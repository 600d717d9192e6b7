/** The browser-side session helpers: who is logged in, read from
    `localStorage`, and logging out by removing the session keys. */
module Session {
  import opened Wrappers

  /** The contents of `localStorage`: string keys to string values. */
  type Storage = map<string, string>

  const LoggedInKey := "isLoggedIn"
  const UserIdKey := "userid"
  const UsernameKey := "username"
  const UserEmailKey := "useremail"

  /** The keys a session occupies, and that logging out removes. */
  const SessionKeys: set<string> := {LoggedInKey, UserIdKey, UsernameKey, UserEmailKey}

  /** `localStorage.getItem(key)`: the stored string, or null. */
  function GetItem(st: Storage, key: string): (r: Option<string>)
    ensures r.Some? <==> key in st
    ensures r.Some? ==> r.value == st[key]
  {
    if key in st then Some(st[key]) else None
  }

  function GetCurrentUserId(st: Storage): Option<string> {
    GetItem(st, UserIdKey)
  }

  function GetCurrentUsername(st: Storage): Option<string> {
    GetItem(st, UsernameKey)
  }

  function GetCurrentUserEmail(st: Storage): Option<string> {
    GetItem(st, UserEmailKey)
  }

  /** The flag must be exactly the string "true", and the user id must be
      truthy: stored and not empty. */
  predicate IsLoggedIn(st: Storage) {
    GetItem(st, LoggedInKey) == Some("true") && Present(GetCurrentUserId(st))
  }

  datatype CurrentUser = CurrentUser(userid: string, username: Option<string>, useremail: Option<string>)

  /** `getCurrentUser()`: null unless logged in; otherwise the three stored
      fields, of which only the id is sure to be there. */
  function GetCurrentUser(st: Storage): (r: Option<CurrentUser>)
    ensures r.None? <==> !IsLoggedIn(st)
    ensures r.Some? ==>
      && st[LoggedInKey] == "true"
      && UserIdKey in st && r.value.userid == st[UserIdKey] && r.value.userid != ""
      && r.value.username == GetItem(st, UsernameKey)
      && r.value.useremail == GetItem(st, UserEmailKey)
  {
    if !IsLoggedIn(st) then None
    else Some(CurrentUser(GetCurrentUserId(st).value, GetCurrentUsername(st), GetCurrentUserEmail(st)))
  }

  class LocalStorage {
    var entries: Storage

    constructor (initial: Storage)
      ensures entries == initial
    {
      entries := initial;
    }

    method SetItem(key: string, value: string)
      modifies this
      ensures entries == old(entries)[key := value]
    {
      entries := entries[key := value];
    }

    method RemoveItem(key: string)
      modifies this
      ensures entries == old(entries) - {key}
    {
      entries := entries - {key};
    }

    /** `logout()`: the four session keys go, every other key stays, and
        afterwards nobody is logged in. */
    method Logout()
      modifies this
      ensures entries == old(entries) - SessionKeys
      ensures !IsLoggedIn(entries) && GetCurrentUser(entries).None?
      ensures forall k :: k !in SessionKeys ==> GetItem(entries, k) == GetItem(old(entries), k)
    {
      RemoveItem(LoggedInKey);
      RemoveItem(UserIdKey);
      RemoveItem(UsernameKey);
      RemoveItem(UserEmailKey);
      assert entries == old(entries) - SessionKeys;
      LogoutEndsSession(old(entries));
    }
  }

  /** After the session keys are removed nobody is logged in, and every getter
      returns null. */
  lemma LogoutEndsSession(st: Storage)
    ensures !IsLoggedIn(st - SessionKeys)
    ensures GetCurrentUser(st - SessionKeys).None?
    ensures GetCurrentUserId(st - SessionKeys).None?
    ensures GetCurrentUsername(st - SessionKeys).None?
    ensures GetCurrentUserEmail(st - SessionKeys).None?
  {
  }

  /** Logging out twice is logging out once. */
  lemma LogoutIdempotent(st: Storage)
    ensures (st - SessionKeys) - SessionKeys == st - SessionKeys
  {
  }

  /** A stored "true" flag with a non-empty user id is a session, and the user
      it reports is the one stored. */
  lemma StoredSessionIsCurrent(st: Storage, id: string, name: string, email: string)
    requires id != ""
    ensures var s := st[LoggedInKey := "true"][UserIdKey := id][UsernameKey := name][UserEmailKey := email];
      GetCurrentUser(s) == Some(CurrentUser(id, Some(name), Some(email)))
  {
  }

  /** The flag alone is not a session: any other value than "true", or a
      missing or empty user id, means logged out. */
  lemma FlagNeedsUserId(st: Storage)
    ensures IsLoggedIn(st) ==> LoggedInKey in st && st[LoggedInKey] == "true"
    ensures UserIdKey !in st || st[UserIdKey] == "" ==> !IsLoggedIn(st)
  {
  }

  /** The sign-in page stores the flag and a user name but no user id, so from
      storage without one it does not produce a session that `isLoggedIn`
      accepts. */
  lemma SignInStorageIsNotASession(st: Storage, name: string)
    requires UserIdKey !in st
    ensures !IsLoggedIn(st[LoggedInKey := "true"][UsernameKey := name])
  {
  }
}
