/** Walking the manager relation upwards from a user. */
module ManagerChain {
  import opened Wrappers
  import opened Directory
  import opened LdapSync
  import opened SyncTheorems
  import Text

  datatype Chain = Chain(userId: string, managerIds: seq<string>, unresolved: Option<string>, cycleDetected: bool)

  datatype ChainError = UserNotFound | BlankOwnership

  predicate InScope(u: User, provider: Option<string>) {
    provider.Some? ==> u.directoryProviderId == provider
  }

  /** The users in scope by external id; a later one replaces an earlier. */
  function Index(users: seq<User>, provider: Option<string>): map<string, User> {
    if users == [] then map[]
    else
      var n := |users| - 1;
      var rest := Index(users[..n], provider);
      if InScope(users[n], provider) && users[n].externalId.Some? then rest[users[n].externalId.value := users[n]]
      else rest
  }

  function Next(index: map<string, User>, u: User): Option<User> {
    match ManagerId(u)
    case Some(m) => if m in index then Some(index[m]) else None
    case None => None
  }

  /** The user `n` steps up from `u`, if the walk gets that far. */
  function Above(index: map<string, User>, u: User, n: nat): Option<User> {
    if n == 0 then Some(u)
    else
      match Above(index, u, n - 1)
      case Some(v) => Next(index, v)
      case None => None
  }

  lemma {:induction false} IndexHoldsScope(users: seq<User>, provider: Option<string>, ext: string)
    requires ext in Index(users, provider)
    ensures Index(users, provider)[ext] in users
    ensures InScope(Index(users, provider)[ext], provider) && Index(users, provider)[ext].externalId == Some(ext)
  {
    var n := |users| - 1;
    if ext in Index(users[..n], provider) {
      IndexHoldsScope(users[..n], provider, ext);
    }
  }

  lemma {:induction false} AboveHolds(index: map<string, User>, u: User, n: nat)
    requires n > 0 && Above(index, u, n).Some?
    ensures Above(index, u, n).value in index.Values
  {
  }

  lemma {:induction false} SameFromThere(index: map<string, User>, u: User, a: nat, b: nat, m: nat)
    requires Above(index, u, a) == Above(index, u, b)
    ensures Above(index, u, a + m) == Above(index, u, b + m)
  {
    if m > 0 {
      SameFromThere(index, u, a, b, m - 1);
    }
  }

  lemma {:induction false} EarlierToo(index: map<string, User>, u: User, n: nat, m: nat)
    requires m <= n && Above(index, u, n).Some?
    ensures Above(index, u, m).Some?
  {
    if m < n {
      EarlierToo(index, u, n - 1, m);
    }
  }

  /** A walk that comes back to a user it has met never ends. */
  lemma {:induction false} CycleNeverEnds(index: map<string, User>, u: User, a: nat, b: nat, n: nat)
    requires a < b && Above(index, u, a) == Above(index, u, b) && Above(index, u, b).Some?
    ensures Above(index, u, n).Some?
    decreases n
  {
    if n <= b {
      EarlierToo(index, u, b, n);
    } else {
      CycleNeverEnds(index, u, a, b, n - (b - a));
      SameFromThere(index, u, a, b, n - b);
    }
  }

  /** The walk from `u` never ends. */
  ghost predicate Endless(index: map<string, User>, u: User) {
    forall n: nat :: Above(index, u, n).Some?
  }

  method BuildIndex(users: seq<User>, provider: Option<string>) returns (index: map<string, User>)
    ensures index == Index(users, provider)
  {
    index := map[];
    for i := 0 to |users|
      invariant index == Index(users[..i], provider)
    {
      assert users[..i + 1][..i] == users[..i];
      if InScope(users[i], provider) && users[i].externalId.Some? {
        index := index[users[i].externalId.value := users[i]];
      }
    }
    assert users[..|users|] == users;
  }

  /** What a chain says about the walk from `start`: its ids are the iterates of
      the manager relation, each met once and none the start; it stops because
      there is no further manager, because one cannot be resolved, or because
      the walk is endless, and says which. */
  ghost predicate Describes(index: map<string, User>, start: User, c: Chain) {
    var n := |c.managerIds|;
    && (forall k | 0 < k <= n :: Above(index, start, k).Some? && Above(index, start, k).value.id == c.managerIds[k - 1])
    && (forall i, j | 0 <= i < j < n :: c.managerIds[i] != c.managerIds[j])
    && start.id !in c.managerIds
    && (c.cycleDetected <==> Endless(index, start))
    && Above(index, start, n).Some?
    && c.unresolved == ManagerId(Above(index, start, n).value)
    && (!c.cycleDetected ==> Above(index, start, n + 1).None?)
  }

  lemma NextAbove(index: map<string, User>, start: User, n: nat, current: User)
    requires Above(index, start, n) == Some(current)
    ensures Above(index, start, n + 1) ==
              if ManagerId(current).Some? && ManagerId(current).value in index
              then Some(index[ManagerId(current).value]) else None
  {
  }

  method Walk(users: seq<User>, index: map<string, User>, start: User) returns (c: Chain)
    requires forall ext | ext in index :: index[ext] in users
    requires start in users && forall i, j | 0 <= i < j < |users| :: users[i].id != users[j].id
    ensures Describes(index, start, c) && c.userId == start.id
  {
    var visited, ids: seq<string>, current := {start.id}, [], start;
    ghost var all := set u | u in users :: u.id;
    while true
      invariant Above(index, start, |ids|) == Some(current) && current in users
      invariant visited <= all && start.id in visited
      invariant forall id :: id in visited <==> id == start.id || id in ids
      invariant forall k | 0 < k <= |ids| :: Above(index, start, k).Some? && Above(index, start, k).value in users
                                              && Above(index, start, k).value.id == ids[k - 1]
      invariant forall i, j | 0 <= i < j < |ids| :: ids[i] != ids[j]
      invariant start.id !in ids
      decreases all - visited
    {
      var m := ManagerId(current);
      NextAbove(index, start, |ids|, current);
      if m.None? || m.value !in index {
        return Chain(start.id, ids, m, false);
      }
      var manager := index[m.value];
      if manager.id in visited {
        CycleFound(users, index, start, ids, manager);
        return Chain(start.id, ids, m, true);
      }
      visited := visited + {manager.id};
      ids := ids + [manager.id];
      current := manager;
    }
  }

  lemma CycleFound(users: seq<User>, index: map<string, User>, start: User, ids: seq<string>, manager: User)
    requires forall i, j | 0 <= i < j < |users| :: users[i].id != users[j].id
    requires start in users && manager in users && (manager.id == start.id || manager.id in ids)
    requires forall k | 0 < k <= |ids| :: Above(index, start, k).Some? && Above(index, start, k).value in users
                                           && Above(index, start, k).value.id == ids[k - 1]
    requires Above(index, start, |ids| + 1) == Some(manager)
    ensures Endless(index, start)
  {
    var j: nat := 0;
    if manager.id != start.id {
      var i :| 0 <= i < |ids| && ids[i] == manager.id;
      j := i + 1;
    }
    assert Above(index, start, j) == Some(manager);
    forall n: nat ensures Above(index, start, n).Some? {
      CycleNeverEnds(index, start, j, |ids| + 1, n);
    }
  }

  /** `resolve_manager_chain`, over the realm's user listing. A provider-owned
      user's managers all have the same provider. */
  method ResolveManagerChain(s: Store, users: seq<User>, userId: string) returns (r: Result<Chain, ChainError>)
    requires Keyed(s) && (userId in s ==> Lists(s, s[userId].realmId, users))
    ensures r == Err(UserNotFound) <==> userId !in s
    ensures r == Err(BlankOwnership) <==>
              userId in s && s[userId].directoryProviderId.Some? && Text.IsBlank(s[userId].directoryProviderId.value)
    ensures r.Ok? ==>
              var owner := s[userId].directoryProviderId;
              && r.value.userId == userId
              && Describes(Index(users, owner), s[userId], r.value)
              && forall id | id in r.value.managerIds ::
                   id in s && s[id].realmId == s[userId].realmId && (owner.Some? ==> s[id].directoryProviderId == owner)
  {
    if userId !in s {
      return Err(UserNotFound);
    }
    var user := s[userId];
    if user.directoryProviderId.Some? && Text.IsBlank(user.directoryProviderId.value) {
      return Err(BlankOwnership);
    }
    var index := BuildIndex(users, user.directoryProviderId);
    forall ext | ext in index ensures index[ext] in users && InScope(index[ext], user.directoryProviderId) {
      IndexHoldsScope(users, user.directoryProviderId, ext);
    }
    assert user in users;
    var c := Walk(users, index, user);
    forall id | id in c.managerIds
      ensures id in s && s[id].realmId == user.realmId
              && (user.directoryProviderId.Some? ==> s[id].directoryProviderId == user.directoryProviderId)
    {
      var k :| 0 <= k < |c.managerIds| && c.managerIds[k] == id;
      assert Above(index, user, k + 1).value.id == id;
      AboveHolds(index, user, k + 1);
    }
    return Ok(c);
  }

  // ----- Managers after a sync ------------------------------------------

  lemma {:induction false} IndexHasAll(users: seq<User>, provider: Option<string>, i: nat)
    requires i < |users| && InScope(users[i], provider) && users[i].externalId.Some?
    ensures users[i].externalId.value in Index(users, provider)
  {
    var n := |users| - 1;
    if i < n {
      IndexHasAll(users[..n], provider, i);
    }
  }

  /** In a sound table the index finds the one user that owns a DN. */
  lemma IndexFindsOwner(t: Store, snap: Snapshot, users: seq<User>, dn: string, id: string)
    requires Keyed(t) && OwnershipSound(t, snap.realm) && Lists(t, snap.realm, users)
    requires id in t && OwnedAs(t[id], snap, dn)
    ensures dn in Index(users, Some(snap.provider)) && Index(users, Some(snap.provider))[dn] == t[id]
  {
    assert t[id] in users;
    var i :| 0 <= i < |users| && users[i] == t[id];
    IndexHasAll(users, Some(snap.provider), i);
    IndexHoldsScope(users, Some(snap.provider), dn);
    var found := Index(users, Some(snap.provider))[dn];
    assert found in users;
    assert SameOwnership(t[found.id], t[id]);
  }

  lemma OneStepUp(index: map<string, User>, u: User)
    ensures Above(index, u, 1) == Next(index, u)
  {
    assert Above(index, u, 0) == Some(u);
  }

  lemma NoOwnerNoIndex(t: Store, snap: Snapshot, users: seq<User>, dn: string)
    requires Keyed(t) && Lists(t, snap.realm, users) && !HasOwned(t, snap, dn)
    ensures dn !in Index(users, Some(snap.provider))
  {
    if dn in Index(users, Some(snap.provider)) {
      IndexHoldsScope(users, Some(snap.provider), dn);
      var found := Index(users, Some(snap.provider))[dn];
      assert found in users;
      assert OwnedAs(t[found.id], snap, dn);
    }
  }

  lemma ManagerIsProjected(s: Store, t: Store, snap: Snapshot, ids: map<string, string>, k: nat) returns (id: string)
    requires Accepts(s, snap) && FreshIds(s, snap.entries, ids) && Synced(s, t, snap, ids) && k < |snap.entries|
    ensures id in t && OwnedAs(t[id], snap, snap.entries[k].dn) && ManagerId(t[id]) == snap.entries[k].managerDn
  {
    var e := snap.entries[k];
    id := OneProjectedUserPerEntry(s, t, snap, ids, k);
    var before := if id in s then s[id] else BlankUser(id, snap.realm, snap.provider, e);
    ProjectedReadsBack(before, t[id], snap.provider, e, snap.syncedAt);
  }

  /** After a sync the walk from an entry's user goes to the user that owns the
      entry's manager DN, if one does, and otherwise ends there. */
  lemma ManagerAfterSync(s: Store, t: Store, snap: Snapshot, ids: map<string, string>, users: seq<User>, k: nat)
    returns (id: string)
    requires Accepts(s, snap) && FreshIds(s, snap.entries, ids) && Synced(s, t, snap, ids) && k < |snap.entries|
    requires Keyed(t) && Lists(t, snap.realm, users)
    ensures id in t && OwnedAs(t[id], snap, snap.entries[k].dn) && ManagerId(t[id]) == snap.entries[k].managerDn
    ensures match snap.entries[k].managerDn
            case None => Above(Index(users, Some(snap.provider)), t[id], 1) == None
            case Some(dn) =>
              && (!HasOwned(t, snap, dn) ==> Above(Index(users, Some(snap.provider)), t[id], 1) == None)
              && forall m | m in t && OwnedAs(t[m], snap, dn) ::
                   Above(Index(users, Some(snap.provider)), t[id], 1) == Some(t[m])
  {
    id := ManagerIsProjected(s, t, snap, ids, k);
    OwnershipRestored(s, t, snap, ids);
    OneStepUp(Index(users, Some(snap.provider)), t[id]);
    if snap.entries[k].managerDn.Some? {
      var dn := snap.entries[k].managerDn.value;
      if !HasOwned(t, snap, dn) {
        NoOwnerNoIndex(t, snap, users, dn);
      }
      forall m | m in t && OwnedAs(t[m], snap, dn)
        ensures Next(Index(users, Some(snap.provider)), t[id]) == Some(t[m])
      {
        IndexFindsOwner(t, snap, users, dn, m);
      }
    }
  }
}
