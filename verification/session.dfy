/** The logged-in user and its mirror in `localStorage`: the login and signup
    handlers, `syncCurrentUserToLocalStorage`, the logout handler, and
    `checkIfLoggedIn`, which restores a session on page load. */
module Session {
  import opened Wrappers
  import opened Storage

  /** The fields of a `User` instance that the page stores. */
  datatype User = User(loginToken: string, username: string, name: string, createdAt: string)

  /** The storage keys the page writes for the current user. */
  const TokenKey: string := "token"
  const UsernameKey: string := "username"
  const CreationDateKey: string := "creationDate"
  const NameKey: string := "name"

  const OwnedKeys: set<string> := {TokenKey, UsernameKey, CreationDateKey, NameKey}

  /** The keys in the order the sync writes them. */
  const SyncOrder: seq<string> := [TokenKey, UsernameKey, CreationDateKey, NameKey]

  /** The values the sync writes, in the same order. */
  function SyncValues(u: User): seq<string> {
    [u.loginToken, u.username, u.createdAt, u.name]
  }

  /** The page's state that outlives a single handler: the global `currentUser`
      and the browser's storage. */
  datatype Page = Page(currentUser: Option<User>, store: Store)

  /** The stored record holds every field of `u` under its key. */
  ghost predicate Mirrors(st: Store, u: User) {
    && GetItem(st, TokenKey) == Some(u.loginToken)
    && GetItem(st, UsernameKey) == Some(u.username)
    && GetItem(st, CreationDateKey) == Some(u.createdAt)
    && GetItem(st, NameKey) == Some(u.name)
  }

  /** A present `currentUser` is mirrored in storage. */
  ghost predicate Consistent(p: Page) {
    p.currentUser.Some? ==> Mirrors(p.store, p.currentUser.value)
  }

  /** `syncCurrentUserToLocalStorage()` when only the first `succeeded` of its
      `setItem` calls complete and the next one throws (storage full or
      disabled); `succeeded >= 4` is a sync in which nothing throws. With no
      user it does nothing. */
  function SyncUpTo(currentUser: Option<User>, st: Store, succeeded: nat): (r: Store)
    ensures currentUser.None? ==> r == st
    ensures currentUser.Some? && succeeded >= 1 ==> GetItem(r, TokenKey) == Some(currentUser.value.loginToken)
    ensures currentUser.Some? && succeeded >= 2 ==> GetItem(r, UsernameKey) == Some(currentUser.value.username)
    ensures currentUser.Some? && succeeded >= 3 ==> GetItem(r, CreationDateKey) == Some(currentUser.value.createdAt)
    ensures currentUser.Some? && succeeded >= 4 ==> GetItem(r, NameKey) == Some(currentUser.value.name)
    ensures succeeded < 1 ==> GetItem(r, TokenKey) == GetItem(st, TokenKey)
    ensures succeeded < 2 ==> GetItem(r, UsernameKey) == GetItem(st, UsernameKey)
    ensures succeeded < 3 ==> GetItem(r, CreationDateKey) == GetItem(st, CreationDateKey)
    ensures succeeded < 4 ==> GetItem(r, NameKey) == GetItem(st, NameKey)
    ensures forall k :: k !in OwnedKeys ==> GetItem(r, k) == GetItem(st, k)
    ensures r.Keys <= st.Keys + OwnedKeys
  {
    match currentUser
    case None => st
    case Some(u) =>
      assert SyncOrder[0] == TokenKey && SyncOrder[1] == UsernameKey;
      assert SyncOrder[2] == CreationDateKey && SyncOrder[3] == NameKey;
      SetItems(st, SyncOrder, SyncValues(u), succeeded)
  }

  /** `syncCurrentUserToLocalStorage()` when every write succeeds: with a user
      present the four keys hold its fields; with none, nothing changes. */
  function Sync(currentUser: Option<User>, st: Store): (r: Store)
    ensures currentUser.None? ==> r == st
    ensures currentUser.Some? ==> Mirrors(r, currentUser.value)
    ensures forall k :: k !in OwnedKeys ==> GetItem(r, k) == GetItem(st, k)
    ensures currentUser.Some? ==> r.Keys == st.Keys + OwnedKeys
  {
    var r := SyncUpTo(currentUser, st, |SyncOrder|);
    assert currentUser.Some? ==> OwnedKeys <= r.Keys by {
      if currentUser.Some? {
        assert GetItem(r, TokenKey).Some? && GetItem(r, UsernameKey).Some?;
        assert GetItem(r, CreationDateKey).Some? && GetItem(r, NameKey).Some?;
      }
    }
    r
  }

  /** What both auth handlers do once their remote call settles: a rejection
      stops the handler at its `await`, leaving the page as it was; a resolved
      value becomes `currentUser` first and is then synced, of which the first
      `succeeded` writes complete. */
  function AdoptAndSync(p: Page, outcome: Remote<Option<User>>, succeeded: nat): (r: Page)
    ensures outcome.Rejected? ==> r == p
    ensures outcome.Resolved? ==> r.currentUser == outcome.value
    ensures outcome.Resolved? && succeeded >= 4 ==> Consistent(r)
    ensures outcome.Resolved? && outcome.value.Some? && succeeded >= 1 ==>
      GetItem(r.store, TokenKey) == Some(outcome.value.value.loginToken)
    ensures outcome.Resolved? && outcome.value.Some? && succeeded >= 2 ==>
      GetItem(r.store, UsernameKey) == Some(outcome.value.value.username)
    ensures outcome.Resolved? && outcome.value.Some? && succeeded >= 3 ==>
      GetItem(r.store, CreationDateKey) == Some(outcome.value.value.createdAt)
    ensures succeeded < 1 ==> GetItem(r.store, TokenKey) == GetItem(p.store, TokenKey)
    ensures succeeded < 2 ==> GetItem(r.store, UsernameKey) == GetItem(p.store, UsernameKey)
    ensures succeeded < 3 ==> GetItem(r.store, CreationDateKey) == GetItem(p.store, CreationDateKey)
    ensures succeeded < 4 ==> GetItem(r.store, NameKey) == GetItem(p.store, NameKey)
    ensures outcome == Resolved(None) ==> r.store == p.store
    ensures forall k :: k !in OwnedKeys ==> GetItem(r.store, k) == GetItem(p.store, k)
    ensures r.store.Keys <= p.store.Keys + OwnedKeys
  {
    match outcome
    case Rejected => p
    case Resolved(u) => Page(u, SyncUpTo(u, p.store, succeeded))
  }

  /** The login form's submit handler, given the settled `User.login` call and
      the number of storage writes that succeed. */
  function LoginSubmit(p: Page, login: Remote<Option<User>>, succeeded: nat): (r: Page)
    ensures login.Rejected? ==> r == p
    ensures login.Resolved? ==> r.currentUser == login.value
    ensures login.Resolved? && succeeded >= 4 ==> Consistent(r)
    ensures login.Resolved? && login.value.Some? && succeeded >= 1 ==>
      GetItem(r.store, TokenKey) == Some(login.value.value.loginToken)
    ensures login.Resolved? && login.value.Some? && succeeded >= 2 ==>
      GetItem(r.store, UsernameKey) == Some(login.value.value.username)
    ensures login.Resolved? && login.value.Some? && succeeded >= 3 ==>
      GetItem(r.store, CreationDateKey) == Some(login.value.value.createdAt)
    ensures succeeded < 1 ==> GetItem(r.store, TokenKey) == GetItem(p.store, TokenKey)
    ensures succeeded < 2 ==> GetItem(r.store, UsernameKey) == GetItem(p.store, UsernameKey)
    ensures succeeded < 3 ==> GetItem(r.store, CreationDateKey) == GetItem(p.store, CreationDateKey)
    ensures succeeded < 4 ==> GetItem(r.store, NameKey) == GetItem(p.store, NameKey)
    ensures login == Resolved(None) ==> r.store == p.store
    ensures forall k :: k !in OwnedKeys ==> GetItem(r.store, k) == GetItem(p.store, k)
    ensures r.store.Keys <= p.store.Keys + OwnedKeys
  {
    AdoptAndSync(p, login, succeeded)
  }

  /** The create-account form's submit handler, given the settled `User.create`
      call and the number of storage writes that succeed. */
  function SignupSubmit(p: Page, create: Remote<Option<User>>, succeeded: nat): (r: Page)
    ensures create.Rejected? ==> r == p
    ensures create.Resolved? ==> r.currentUser == create.value
    ensures create.Resolved? && succeeded >= 4 ==> Consistent(r)
    ensures create.Resolved? && create.value.Some? && succeeded >= 1 ==>
      GetItem(r.store, TokenKey) == Some(create.value.value.loginToken)
    ensures create.Resolved? && create.value.Some? && succeeded >= 2 ==>
      GetItem(r.store, UsernameKey) == Some(create.value.value.username)
    ensures create.Resolved? && create.value.Some? && succeeded >= 3 ==>
      GetItem(r.store, CreationDateKey) == Some(create.value.value.createdAt)
    ensures succeeded < 1 ==> GetItem(r.store, TokenKey) == GetItem(p.store, TokenKey)
    ensures succeeded < 2 ==> GetItem(r.store, UsernameKey) == GetItem(p.store, UsernameKey)
    ensures succeeded < 3 ==> GetItem(r.store, CreationDateKey) == GetItem(p.store, CreationDateKey)
    ensures succeeded < 4 ==> GetItem(r.store, NameKey) == GetItem(p.store, NameKey)
    ensures create == Resolved(None) ==> r.store == p.store
    ensures forall k :: k !in OwnedKeys ==> GetItem(r.store, k) == GetItem(p.store, k)
    ensures r.store.Keys <= p.store.Keys + OwnedKeys
  {
    AdoptAndSync(p, create, succeeded)
  }

  /** The logout click handler's `localStorage.clear()`. */
  function Logout(st: Store): (r: Store)
    ensures forall k :: GetItem(r, k) == None
  {
    Clear(st)
  }

  /** The two values `checkIfLoggedIn` reads and passes to `User.getLoggedInUser`. */
  function RestoreRequest(st: Store): (r: (Option<string>, Option<string>))
    ensures r.0.Some? <==> TokenKey in st
    ensures r.0.Some? ==> r.0.value == st[TokenKey]
    ensures r.1.Some? <==> UsernameKey in st
    ensures r.1.Some? ==> r.1.value == st[UsernameKey]
  {
    (GetItem(st, TokenKey), GetItem(st, UsernameKey))
  }

  /** `checkIfLoggedIn` on page load, given the settled `User.getLoggedInUser`
      call: its value becomes `currentUser`; a rejection stops the page's setup
      at line 19 with `currentUser` still at its initial null. Storage is
      neither checked nor rewritten. */
  function Restore(st: Store, loggedIn: Remote<Option<User>>): (r: Page)
    ensures r.store == st
    ensures loggedIn.Resolved? ==> r.currentUser == loggedIn.value
    ensures loggedIn.Rejected? ==> r.currentUser == None
  {
    match loggedIn
    case Rejected => Page(None, st)
    case Resolved(u) => Page(u, st)
  }

  /** Logging out empties the store whatever it held, and a second logout
      changes nothing. */
  lemma LogoutIdempotent(st: Store)
    ensures Logout(st) == map[]
    ensures Logout(Logout(st)) == Logout(st)
  {
  }

  /** What a sync writes is what the next page load reads back. */
  lemma SyncThenRestoreRequest(u: User, st: Store)
    ensures RestoreRequest(Sync(Some(u), st)) == (Some(u.loginToken), Some(u.username))
  {
  }

  /** After logout the next page load finds neither token nor username. */
  lemma LogoutThenRestoreRequest(st: Store)
    ensures RestoreRequest(Logout(st)) == (None, None)
  {
  }

  /** A page reloaded after a sync, whose server resolves the same user, is consistent. */
  lemma RestoreAfterSync(u: User, st: Store)
    ensures Consistent(Restore(Sync(Some(u), st), Resolved(Some(u))))
  {
  }

  /** Restoring never writes the resolved user back: when the server answers
      with another token than the stored one, the page is not consistent. */
  lemma RestoreNeedNotBeConsistent(u: User, v: User, st: Store)
    requires u.loginToken != v.loginToken
    ensures !Consistent(Restore(Sync(Some(u), st), Resolved(Some(v))))
  {
  }

  /** Because the token is written first, a login whose sync stops after its
      first write stores the new token while every other owned key keeps its
      old value; with no name stored before, the page is then not consistent
      although `currentUser` is already set. */
  lemma TokenWithoutName(p: Page, u: User)
    ensures GetItem(LoginSubmit(p, Resolved(Some(u)), 1).store, TokenKey) == Some(u.loginToken)
    ensures GetItem(LoginSubmit(p, Resolved(Some(u)), 1).store, UsernameKey) == GetItem(p.store, UsernameKey)
    ensures GetItem(LoginSubmit(p, Resolved(Some(u)), 1).store, CreationDateKey) == GetItem(p.store, CreationDateKey)
    ensures GetItem(LoginSubmit(p, Resolved(Some(u)), 1).store, NameKey) == GetItem(p.store, NameKey)
    ensures NameKey !in p.store ==> !Consistent(LoginSubmit(p, Resolved(Some(u)), 1))
  {
  }

  /** A sync in which no write throws is `SyncUpTo` with all four writes. */
  lemma SyncIsCompleteSyncUpTo(u: Option<User>, st: Store, succeeded: nat)
    requires succeeded >= 4
    ensures SyncUpTo(u, st, succeeded) == Sync(u, st)
  {
    SameReadsSameStore(SyncUpTo(u, st, succeeded), Sync(u, st));
  }

  /** Syncing the same user twice is the same as syncing once. */
  lemma SyncIdempotent(u: Option<User>, st: Store)
    ensures Sync(u, Sync(u, st)) == Sync(u, st)
  {
    SameReadsSameStore(Sync(u, Sync(u, st)), Sync(u, st));
  }

  /** A later sync of a present user overwrites every trace of an earlier one. */
  lemma LaterSyncWins(u: User, v: User, st: Store)
    ensures Sync(Some(v), Sync(Some(u), st)) == Sync(Some(v), st)
  {
    var mid := Sync(Some(u), st);
    var first := Sync(Some(v), mid);
    var direct := Sync(Some(v), st);
    forall k ensures GetItem(first, k) == GetItem(direct, k) {
      if k !in OwnedKeys {
        assert GetItem(first, k) == GetItem(mid, k) == GetItem(st, k);
      }
    }
    SameReadsSameStore(first, direct);
  }

  /** Two successive logins whose writes all succeed leave the page on the
      second user, mirrored in storage. */
  lemma SecondLoginWins(p: Page, u: User, v: User)
    ensures LoginSubmit(LoginSubmit(p, Resolved(Some(u)), 4), Resolved(Some(v)), 4) == Page(Some(v), Sync(Some(v), p.store))
  {
    SyncIsCompleteSyncUpTo(Some(u), p.store, 4);
    SyncIsCompleteSyncUpTo(Some(v), Sync(Some(u), p.store), 4);
    SyncIsCompleteSyncUpTo(Some(v), p.store, 4);
    LaterSyncWins(u, v, p.store);
  }
}
