/** The items page of the front end: the list it shows, the two inputs of its
    form, adding an item and deleting one through the items service. */
module ItemsPage {
  import opened Wrappers
  import opened Sequences
  import ItemsApi

  type Item = ItemsApi.Item

  /** Ids descending, as the service lists them. */
  predicate NewestFirstOrder(items: seq<Item>) {
    forall i, j :: 0 <= i < j < |items| ==> items[i].id >= items[j].id
  }

  /** Putting a row with an id above every shown id in front keeps the list
      newest first. */
  lemma PrependNewestKeepsOrder(row: Item, items: seq<Item>)
    requires NewestFirstOrder(items)
    requires forall it :: it in items ==> it.id < row.id
    ensures NewestFirstOrder([row] + items)
  {
    var r := [row] + items;
    forall i, j | 0 <= i < j < |r| ensures r[i].id >= r[j].id {
      assert r[j] == items[j - 1];
      if i > 0 {
        assert r[i] == items[i - 1];
      } else {
        assert r[j] in items;
      }
    }
  }

  /** Removing rows keeps the list newest first. */
  lemma DeleteKeepsOrder(items: seq<Item>, id: int)
    requires NewestFirstOrder(items)
    ensures NewestFirstOrder(ItemsApi.DeleteById(items, id))
  {
    SubsequenceKeepsOrder(ItemsApi.DeleteById(items, id), items);
  }

  /** The page and the service delete by the same rule, so equal row sets stay equal. */
  lemma DeleteSameRows(shown: seq<Item>, stored: seq<Item>, id: int)
    requires multiset(shown) == multiset(stored)
    ensures multiset(ItemsApi.DeleteById(shown, id)) == multiset(ItemsApi.DeleteById(stored, id))
  {
    var a, b := ItemsApi.DeleteById(shown, id), ItemsApi.DeleteById(stored, id);
    forall x: Item ensures multiset(a)[x] == multiset(b)[x] {
    }
  }

  lemma {:induction false} SubsequenceKeepsOrder(a: seq<Item>, b: seq<Item>)
    requires NewestFirstOrder(b) && IsSubsequence(a, b)
    ensures NewestFirstOrder(a)
    decreases |b|
  {
    if a != [] {
      assert NewestFirstOrder(b[1..]) by {
        forall i, j | 0 <= i < j < |b[1..]| ensures b[1..][i].id >= b[1..][j].id {
          assert b[1..][i] == b[i + 1] && b[1..][j] == b[j + 1];
        }
      }
      if a[0] == b[0] && IsSubsequence(a[1..], b[1..]) {
        SubsequenceKeepsOrder(a[1..], b[1..]);
        SubsequenceMembers(a[1..], b[1..]);
        forall i, j | 0 <= i < j < |a| ensures a[i].id >= a[j].id {
          assert a[j] == a[1..][j - 1];
          if i > 0 {
            assert a[i] == a[1..][i - 1];
          } else {
            assert a[j] in b[1..];
            var k :| 0 <= k < |b[1..]| && b[1..][k] == a[j];
            assert b[k + 1] == a[j];
          }
        }
      } else {
        SubsequenceKeepsOrder(a, b[1..]);
      }
    }
  }

  class ItemsPage {
    var items: seq<Item>
    var name: string
    var description: string

    constructor ()
      ensures items == [] && name == "" && description == ""
    {
      items, name, description := [], "", "";
    }

    /** The first render's fetch: the list becomes what the service returned. */
    method Loaded(rows: seq<Item>)
      modifies this
      ensures items == rows && name == old(name) && description == old(description)
    {
      items := rows;
    }

    /** The name input's `onChange`. */
    method EditName(value: string)
      modifies this
      ensures name == value && items == old(items) && description == old(description)
    {
      name := value;
    }

    /** The description input's `onChange`. */
    method EditDescription(value: string)
      modifies this
      ensures description == value && items == old(items) && name == old(name)
    {
      description := value;
    }

    /** `addItem`: no request while the name is empty; otherwise the form is
        posted, and on an ok reply the created row goes in front and both
        inputs are cleared.  `reply` is the created row, or None when the
        reply was not ok. */
    method AddItem(reply: Option<Item>) returns (sent: Option<ItemsApi.ItemForm>)
      modifies this
      ensures old(name) == "" ==> sent.None? && items == old(items) && name == old(name) && description == old(description)
      ensures old(name) != "" ==> sent == Some(ItemsApi.ItemForm(Some(old(name)), Some(old(description))))
      ensures old(name) != "" && reply.Some? ==>
        items == [reply.value] + old(items) && name == "" && description == ""
      ensures old(name) != "" && reply.None? ==>
        items == old(items) && name == old(name) && description == old(description)
    {
      if name == "" {
        return None;
      }
      sent := Some(ItemsApi.ItemForm(Some(name), Some(description)));
      if reply.Some? {
        items := [reply.value] + items;
        name, description := "", "";
      }
    }

    /** `deleteItem`: the row leaves the list only when the service answered 204. */
    method DeleteItem(id: int, status: int)
      modifies this
      ensures status == 204 ==> items == ItemsApi.DeleteById(old(items), id)
      ensures status != 204 ==> items == old(items)
      ensures name == old(name) && description == old(description)
    {
      if status == 204 {
        items := ItemsApi.DeleteById(items, id);
      }
    }
  }

  /** The page and the service side by side: after the first listing and an
      add, the page shows exactly the service's rows, newest first. */
  method ListThenAdd(store: ItemsApi.ItemStore, page: ItemsPage, itemName: string, now: int)
    returns (added: Item)
    requires store.Valid() && store.inUse == 0 && itemName != ""
    modifies store, page
    ensures store.Valid() && store.inUse == 0
    ensures added in store.items && added.name == itemName
    ensures multiset(page.items) == multiset(store.items)
    ensures NewestFirstOrder(page.items)
  {
    var listing := store.GetItems(Succeeds, Succeeds);
    page.Loaded(listing.body.rows);
    forall it | it in page.items ensures it.id < store.nextId {
      assert it in multiset(store.items);
    }

    page.EditName(itemName);
    ghost var shown := page.items;
    var created := store.CreateItem(ItemsApi.ItemForm(Some(itemName), Some(page.description)), Succeeds, Succeeds, now);
    var sent := page.AddItem(Some(created.body.item));
    PrependNewestKeepsOrder(created.body.item, shown);
    added := created.body.item;
  }

  /** Deleting a shown row through the service and then from the page keeps
      the two in step. */
  method DeleteOnBoth(store: ItemsApi.ItemStore, page: ItemsPage, row: Item)
    requires store.Valid() && store.inUse == 0 && row in store.items
    requires multiset(page.items) == multiset(store.items) && NewestFirstOrder(page.items)
    modifies store, page
    ensures store.Valid() && store.inUse == 0
    ensures row !in store.items && row !in page.items
    ensures multiset(page.items) == multiset(store.items)
    ensures NewestFirstOrder(page.items)
  {
    ghost var shown, stored := page.items, store.items;
    ghost var k :| 0 <= k < |stored| && stored[k] == row;
    assert ItemsApi.HasId(stored, row.id);
    var removed := store.DeleteItem(row.id, Succeeds, Succeeds);
    page.DeleteItem(row.id, removed.status);
    DeleteKeepsOrder(shown, row.id);
    DeleteSameRows(shown, stored, row.id);
  }
}
