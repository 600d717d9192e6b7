/** The items service of the back end: list, create and delete rows of
    `items`, each handler borrowing one connection from a pool of at most ten
    and handing it back in a `finally` block. */
module ItemsApi {
  import opened Wrappers
  import opened Sequences
  import opened Sorting

  /** A row of `items`; `id` is a serial primary key and `created_at` is set
      by the database when the row is inserted. */
  datatype Item = Item(id: int, name: string, description: Option<string>, createdAt: int)

  datatype ItemForm = ItemForm(name: Option<string>, description: Option<string>)

  datatype ItemsBody =
    | Error(error: string)
    | Rows(rows: seq<Item>)
    | Created(item: Item)
    | NoContent
      /** Flask's own page for an exception the handler does not catch. */
    | InternalServerError

  /** `maxconn` of the threaded pool. */
  const MaxConnections: nat := 10

  const NameRequired := "name is required"
  const NotFound := "not found"

  function IdOf(it: Item): int { it.id }

  /** `ORDER BY id DESC`: `a` may come before `b` when its id is not smaller. */
  predicate IdDesc(a: Item, b: Item) {
    a.id >= b.id
  }

  lemma IdDescIsTotalPreorder()
    ensures TotalPreorder(IdDesc)
  {
  }

  /** `SELECT id, name, description, created_at FROM items ORDER BY id DESC`. */
  function NewestFirst(items: seq<Item>): (r: seq<Item>)
    ensures multiset(r) == multiset(items)
  {
    SortBy(items, IdDesc)
  }

  /** The listing holds every row once and no other, with ids descending. */
  lemma NewestFirstOrdered(items: seq<Item>)
    ensures multiset(NewestFirst(items)) == multiset(items)
    ensures forall i, j :: 0 <= i < j < |NewestFirst(items)| ==> NewestFirst(items)[i].id >= NewestFirst(items)[j].id
  {
    IdDescIsTotalPreorder();
    SortBySorted(items, IdDesc);
  }

  /** `DELETE FROM items WHERE id = %s`. */
  function DeleteById(items: seq<Item>, id: int): (r: seq<Item>)
    ensures forall it :: it in r <==> it in items && it.id != id
    ensures forall it :: multiset(r)[it] == if it.id != id then multiset(items)[it] else 0
    ensures IsSubsequence(r, items)
  {
    Filter(items, (it: Item) => it.id != id)
  }

  predicate HasId(items: seq<Item>, id: int) {
    exists i :: 0 <= i < |items| && items[i].id == id
  }

  lemma DistinctTail(items: seq<Item>)
    requires items != [] && DistinctKeys(items, IdOf)
    ensures DistinctKeys(items[1..], IdOf)
    ensures forall it :: it in items[1..] ==> it.id != items[0].id
  {
    forall a, b | 0 <= a < b < |items[1..]| ensures IdOf(items[1..][a]) != IdOf(items[1..][b]) {
      assert items[1..][a] == items[a + 1] && items[1..][b] == items[b + 1];
    }
    forall it | it in items[1..] ensures it.id != items[0].id {
      var k :| 0 <= k < |items[1..]| && items[1..][k] == it;
      assert IdOf(items[0]) != IdOf(items[k + 1]);
    }
  }

  lemma HasIdTail(items: seq<Item>, id: int)
    requires items != []
    ensures HasId(items, id) <==> items[0].id == id || HasId(items[1..], id)
  {
    if HasId(items, id) && items[0].id != id {
      var i :| 0 <= i < |items| && items[i].id == id;
      assert items[1..][i - 1] == items[i];
    }
    if HasId(items[1..], id) {
      var i :| 0 <= i < |items[1..]| && items[1..][i].id == id;
      assert items[i + 1] == items[1..][i];
    }
  }

  /** With distinct ids the delete removes exactly one row when one has the id
      (`rowcount` is 1) and none otherwise (`rowcount` is 0). */
  lemma {:induction false} DeleteRowCount(items: seq<Item>, id: int)
    requires DistinctKeys(items, IdOf)
    ensures |DeleteById(items, id)| == |items| - (if HasId(items, id) then 1 else 0)
  {
    if items != [] {
      DistinctTail(items);
      HasIdTail(items, id);
      if items[0].id == id {
        FilterKeepsAll(items[1..], (it: Item) => it.id != id);
        assert !HasId(items[1..], id);
      } else {
        DeleteRowCount(items[1..], id);
      }
    }
  }

  /** `getconn` hands out a connection: one is free and opening it works. */
  predicate Connects(inUse: nat, open: Attempt) {
    inUse < MaxConnections && open.Succeeds?
  }

  class ItemStore {
    /** The rows of `items`, oldest first. */
    var items: seq<Item>
    /** The next value of the `id` sequence. */
    var nextId: int
    /** Connections the pool has lent out and not yet taken back. */
    var inUse: nat

    ghost predicate Valid()
      reads this
    {
      && DistinctKeys(items, IdOf)
      && (forall it :: it in items ==> it.id < nextId)
      && inUse <= MaxConnections
    }

    constructor ()
      ensures Valid() && items == [] && nextId == 1 && inUse == 0
    {
      items, nextId, inUse := [], 1, 0;
    }

    /** `conn_pool.getconn()`: fails when every connection is lent out or the
        pool cannot open a new one. */
    method GetConn(open: Attempt) returns (r: Attempt)
      requires Valid()
      modifies this
      ensures Valid()
      ensures items == old(items) && nextId == old(nextId)
      ensures old(inUse) == MaxConnections ==> r == Raises("connection pool exhausted") && inUse == old(inUse)
      ensures old(inUse) < MaxConnections && open.Raises? ==> r == open && inUse == old(inUse)
      ensures old(inUse) < MaxConnections && open.Succeeds? ==> r == Succeeds && inUse == old(inUse) + 1
    {
      if inUse == MaxConnections {
        return Raises("connection pool exhausted");
      }
      if open.Raises? {
        return open;
      }
      inUse := inUse + 1;
      r := Succeeds;
    }

    /** `conn_pool.putconn(conn)`. */
    method PutConn()
      requires Valid() && inUse > 0
      modifies this
      ensures Valid()
      ensures items == old(items) && nextId == old(nextId) && inUse == old(inUse) - 1
    {
      inUse := inUse - 1;
    }

    /** `GET /api/items`. */
    method GetItems(open: Attempt, db: Attempt) returns (resp: Response<ItemsBody>)
      requires Valid()
      modifies this
      ensures Valid()
      ensures items == old(items) && nextId == old(nextId) && inUse == old(inUse)
      ensures !Connects(old(inUse), open) || db.Raises? ==> resp == Response(500, InternalServerError)
      ensures Connects(old(inUse), open) && db.Succeeds? ==>
        && resp.status == 200 && resp.body.Rows?
        && multiset(resp.body.rows) == multiset(items)
        && forall i, j :: 0 <= i < j < |resp.body.rows| ==> resp.body.rows[i].id >= resp.body.rows[j].id
    {
      var conn := GetConn(open);
      if conn.Raises? {
        return Response(500, InternalServerError);
      }
      if db.Raises? {
        PutConn();
        return Response(500, InternalServerError);
      }
      var rows := NewestFirst(items);
      NewestFirstOrdered(items);
      resp := Response(200, Rows(rows));
      PutConn();
    }

    /** `POST /api/items`. */
    method CreateItem(form: ItemForm, open: Attempt, db: Attempt, now: int) returns (resp: Response<ItemsBody>)
      requires Valid()
      modifies this
      ensures Valid()
      ensures inUse == old(inUse)
      ensures !Present(form.name) ==>
        resp == Response(400, Error(NameRequired)) && items == old(items) && nextId == old(nextId)
      ensures Present(form.name) && (!Connects(old(inUse), open) || db.Raises?) ==>
        resp == Response(500, InternalServerError) && items == old(items) && nextId == old(nextId)
      ensures Present(form.name) && Connects(old(inUse), open) && db.Succeeds? ==>
        var row := Item(old(nextId), form.name.value, form.description, now);
        && resp == Response(201, Created(row))
        && items == old(items) + [row]
        && nextId == old(nextId) + 1
    {
      if !Present(form.name) {
        return Response(400, Error(NameRequired));
      }
      var conn := GetConn(open);
      if conn.Raises? {
        return Response(500, InternalServerError);
      }
      if db.Raises? {
        PutConn();
        return Response(500, InternalServerError);
      }
      var row := Item(nextId, form.name.value, form.description, now);
      items := items + [row];
      nextId := nextId + 1;
      resp := Response(201, Created(row));
      PutConn();
    }

    /** `DELETE /api/items/<id>`: 204 when a row went, 404 when none had the id. */
    method DeleteItem(id: int, open: Attempt, db: Attempt) returns (resp: Response<ItemsBody>)
      requires Valid()
      modifies this
      ensures Valid()
      ensures inUse == old(inUse) && nextId == old(nextId)
      ensures !Connects(old(inUse), open) || db.Raises? ==> resp == Response(500, InternalServerError) && items == old(items)
      ensures Connects(old(inUse), open) && db.Succeeds? && HasId(old(items), id) ==>
        && resp == Response(204, NoContent)
        && items == DeleteById(old(items), id)
        && |items| == |old(items)| - 1
      ensures Connects(old(inUse), open) && db.Succeeds? && !HasId(old(items), id) ==>
        resp == Response(404, Error(NotFound)) && items == old(items)
    {
      var conn := GetConn(open);
      if conn.Raises? {
        return Response(500, InternalServerError);
      }
      if db.Raises? {
        PutConn();
        return Response(500, InternalServerError);
      }
      DeleteRowCount(items, id);
      if HasId(items, id) {
        var before := items;
        items := DeleteById(items, id);
        SubsequenceKeepsDistinct(items, before, IdOf);
        resp := Response(204, NoContent);
      } else {
        resp := Response(404, Error(NotFound));
      }
      PutConn();
    }
  }
}
