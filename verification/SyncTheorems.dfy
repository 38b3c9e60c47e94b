/** What a sync guarantees for the whole user table. */
module SyncTheorems {
  import opened Wrappers
  import opened Directory
  import opened LdapSync

  // ----- One user -------------------------------------------------------

  predicate SameKey(u: User, v: User) {
    u.realmId == v.realmId && u.directoryProviderId == v.directoryProviderId && u.externalId == v.externalId
  }

  lemma ReconcileKeepsKey(u: User, snap: Snapshot)
    ensures Reconcile(u, snap).id == u.id
    ensures SameKey(Reconcile(u, snap), u)
  {
  }

  lemma ReconcileSettles(u: User, snap: Snapshot)
    ensures Reconcile(Reconcile(u, snap), snap) == Reconcile(u, snap)
  {
    ReconcileKeepsKey(u, snap);
    if Listed(u, snap) {
      ApplyLdapEntryIdempotent(u, snap.provider, EntryFor(snap.entries, u.externalId.value).value, snap.syncedAt);
    }
  }

  lemma ReconcileOther(u: User, snap: Snapshot, other: Snapshot)
    requires snap.provider != other.provider
    ensures Reconcile(Reconcile(u, snap), other) == Reconcile(Reconcile(u, other), snap)
  {
    ReconcileKeepsKey(u, snap);
    ReconcileKeepsKey(u, other);
  }

  lemma NewUserKey(snap: Snapshot, ids: map<string, string>, e: LdapEntry)
    requires e.dn in ids
    ensures NewUser(snap, ids, e).id == ids[e.dn]
    ensures OwnedAs(NewUser(snap, ids, e), snap, e.dn)
  {
  }

  lemma NewUserSettles(snap: Snapshot, ids: map<string, string>, i: nat)
    requires ValidEntries(snap.entries) && i < |snap.entries| && snap.entries[i].dn in ids
    ensures Reconcile(NewUser(snap, ids, snap.entries[i]), snap) == NewUser(snap, ids, snap.entries[i])
  {
    var e := snap.entries[i];
    EntryForUnique(snap.entries, i);
    NewUserKey(snap, ids, e);
    ApplyLdapEntryIdempotent(BlankUser(ids[e.dn], snap.realm, snap.provider, e), snap.provider, e, snap.syncedAt);
  }

  /** A sync deactivates a user only for a disabled entry, or because it was
      asked to deactivate missing users and the user is not break-glass. */
  lemma DeactivationIsJustified(u: User, snap: Snapshot)
    requires u.active && !Reconcile(u, snap).active
    ensures Owned(u, snap)
    ensures match EntryFor(snap.entries, u.externalId.value)
            case Some(e) => !e.enabled
            case None => snap.deactivateMissing && !IsBreakGlass(u)
  {
  }

  lemma DeactivateProjects(u: User, at: nat)
    ensures var v := Deactivate(u, at);
            && v == u.(active := false, deprovisionedAt := Some(at), enterprise := v.enterprise)
            && Attribute(v, DeprovisionedAt) == Some(Num(at)) && EmploymentOf(v) == Some(Inactive)
            && Attribute(v, LifecycleSource) == Some(Str(LIFECYCLE_SCHEMA))
            && forall key | key !in {DeprovisionedAt, LifecycleSource, EmploymentState} ::
                 Attribute(v, key) == Attribute(u, key)
  {
    EmploymentOfIff(Deactivate(u, at), Inactive);
  }

  /** An owned user without an entry is left as it is, unless missing users are
      to be deactivated and it is active without a true `break_glass` attribute;
      then it is inactive from the time of the sync. */
  lemma MissingUserFate(u: User, snap: Snapshot)
    requires Owned(u, snap) && forall i | 0 <= i < |snap.entries| :: Some(snap.entries[i].dn) != u.externalId
    ensures var exempt := u.enterprise.Obj? && BreakGlass in u.enterprise.fields
                          && u.enterprise.fields[BreakGlass] == Bool(true);
            var v := Reconcile(u, snap);
            && (v == u <==> !snap.deactivateMissing || !u.active || exempt)
            && (v != u ==>
                  && v == u.(active := false, deprovisionedAt := Some(snap.syncedAt), enterprise := v.enterprise)
                  && Attribute(v, DeprovisionedAt) == Some(Num(snap.syncedAt)) && EmploymentOf(v) == Some(Inactive)
                  && forall key | key !in {DeprovisionedAt, LifecycleSource, EmploymentState} ::
                       Attribute(v, key) == Attribute(u, key))
  {
    DeactivateProjects(u, snap.syncedAt);
  }

  // ----- The table ------------------------------------------------------

  /** A synced user is a stored one reconciled, or a new one. */
  lemma SyncedOrigin(s: Store, t: Store, snap: Snapshot, ids: map<string, string>, id: string)
    requires Synced(s, t, snap, ids) && id in t
    ensures id in s ==> t[id] == Reconcile(s[id], snap) && SameKey(t[id], s[id])
    ensures id !in s ==> exists i :: 0 <= i < |snap.entries| && snap.entries[i].dn in ids
                           && !HasOwned(s, snap, snap.entries[i].dn)
                           && id == ids[snap.entries[i].dn] && t[id] == NewUser(snap, ids, snap.entries[i])
  {
    if id in s {
      ReconcileKeepsKey(s[id], snap);
    } else {
      assert IsNewId(s, snap, ids, id);
      var e :| e in snap.entries && !HasOwned(s, snap, e.dn) && e.dn in ids && id == ids[e.dn];
      var i :| 0 <= i < |snap.entries| && snap.entries[i] == e;
    }
  }

  lemma SyncedUnique(s: Store, t: Store, u: Store, snap: Snapshot, ids: map<string, string>)
    requires Synced(s, t, snap, ids) && Synced(s, u, snap, ids)
    ensures t == u
  {
    forall id ensures id in t <==> id in u {
      if id in t {
        SyncedOrigin(s, t, snap, ids, id);
      }
      if id in u {
        SyncedOrigin(s, u, snap, ids, id);
      }
    }
    forall id | id in t ensures t[id] == u[id] {
      SyncedOrigin(s, t, snap, ids, id);
    }
  }

  /** No user of another provider or realm, and no unowned user, changes. */
  lemma OthersUntouched(s: Store, t: Store, snap: Snapshot, ids: map<string, string>, id: string)
    requires Synced(s, t, snap, ids) && id in s
    requires s[id].directoryProviderId != Some(snap.provider) || s[id].realmId != snap.realm
    ensures id in t && t[id] == s[id]
  {
  }

  /** Who owns what is sound again after a sync. */
  lemma OwnershipRestored(s: Store, t: Store, snap: Snapshot, ids: map<string, string>)
    requires Accepts(s, snap) && FreshIds(s, snap.entries, ids) && Synced(s, t, snap, ids)
    ensures OwnershipSound(t, snap.realm)
  {
    forall id | id in t && t[id].realmId == snap.realm ensures SoundOwner(t[id]) {
      SyncedOrigin(s, t, snap, ids, id);
    }
    forall i, j |
      i in t && j in t && t[i].realmId == snap.realm && t[j].realmId == snap.realm && SameOwnership(t[i], t[j])
      ensures i == j
    {
      DistinctOwners(s, t, snap, ids, i, j);
    }
  }

  lemma DistinctOwners(s: Store, t: Store, snap: Snapshot, ids: map<string, string>, i: string, j: string)
    requires Accepts(s, snap) && FreshIds(s, snap.entries, ids) && Synced(s, t, snap, ids)
    requires i in t && j in t && t[i].realmId == snap.realm && t[j].realmId == snap.realm && SameOwnership(t[i], t[j])
    ensures i == j
  {
    forall k | k in s && Owned(s[k], snap) ensures HasOwned(s, snap, s[k].externalId.value) {
      assert OwnedAs(s[k], snap, s[k].externalId.value);
    }
    SyncedOrigin(s, t, snap, ids, i);
    SyncedOrigin(s, t, snap, ids, j);
    assert i in s && j in s ==> SameOwnership(s[i], s[j]);
  }

  /** After a sync exactly one user owns each snapshot DN, and it carries that
      entry's attributes. */
  lemma OneProjectedUserPerEntry(s: Store, t: Store, snap: Snapshot, ids: map<string, string>, k: nat)
    returns (id: string)
    requires Accepts(s, snap) && FreshIds(s, snap.entries, ids) && Synced(s, t, snap, ids) && k < |snap.entries|
    ensures id in t && OwnedAs(t[id], snap, snap.entries[k].dn)
    ensures forall j | j in t && OwnedAs(t[j], snap, snap.entries[k].dn) :: j == id
    ensures Projects(if id in s then s[id] else BlankUser(id, snap.realm, snap.provider, snap.entries[k]), t[id],
                     snap.provider, snap.entries[k], snap.syncedAt)
  {
    var e := snap.entries[k];
    EntryForUnique(snap.entries, k);
    if HasOwned(s, snap, e.dn) {
      id :| id in s && OwnedAs(s[id], snap, e.dn);
      ApplyLdapEntryProjects(s[id], snap.provider, e, snap.syncedAt);
    } else {
      assert e in snap.entries;
      id := ids[e.dn];
      ApplyLdapEntryProjects(BlankUser(id, snap.realm, snap.provider, e), snap.provider, e, snap.syncedAt);
    }
    forall j | j in t && OwnedAs(t[j], snap, e.dn) ensures j == id {
      DistinctOwners(s, t, snap, ids, id, j);
    }
  }

  lemma OwnedAfter(s: Store, t: Store, snap: Snapshot, ids: map<string, string>, k: nat)
    requires Accepts(s, snap) && FreshIds(s, snap.entries, ids) && Synced(s, t, snap, ids) && k < |snap.entries|
    ensures HasOwned(t, snap, snap.entries[k].dn)
  {
    var id := OneProjectedUserPerEntry(s, t, snap, ids, k);
  }

  /** A snapshot that was accepted is accepted again. */
  lemma AcceptedAgain(s: Store, t: Store, snap: Snapshot, ids: map<string, string>)
    requires Accepts(s, snap) && FreshIds(s, snap.entries, ids) && Synced(s, t, snap, ids)
    ensures Accepts(t, snap)
  {
    OwnershipRestored(s, t, snap, ids);
    forall id, k | id in t && t[id].realmId == snap.realm && 0 <= k < |snap.entries|
      ensures !CollidesUnowned(t[id], snap.entries[k].dn)
    {
      SyncedOrigin(s, t, snap, ids, id);
    }
  }

  lemma SyncedUserSettles(s: Store, t: Store, snap: Snapshot, ids: map<string, string>, id: string)
    requires Accepts(s, snap) && FreshIds(s, snap.entries, ids) && Synced(s, t, snap, ids) && id in t
    ensures Reconcile(t[id], snap) == t[id]
  {
    SyncedOrigin(s, t, snap, ids, id);
    if id in s {
      ReconcileSettles(s[id], snap);
    } else {
      var i :| 0 <= i < |snap.entries| && snap.entries[i].dn in ids && t[id] == NewUser(snap, ids, snap.entries[i]);
      NewUserSettles(snap, ids, i);
    }
  }

  lemma NothingNewAgain(s: Store, t: Store, u: Store, snap: Snapshot, ids: map<string, string>,
                        ids': map<string, string>, id: string)
    requires Accepts(s, snap) && FreshIds(s, snap.entries, ids)
    requires Synced(s, t, snap, ids) && Synced(t, u, snap, ids') && id in u
    ensures id in t
  {
    SyncedOrigin(t, u, snap, ids', id);
    if id !in t {
      var i :| 0 <= i < |snap.entries| && !HasOwned(t, snap, snap.entries[i].dn);
      OwnedAfter(s, t, snap, ids, i);
      assert false;
    }
  }

  /** Repeating a sync with the same snapshot and time changes nothing,
      whatever ids the second run would give out. */
  lemma RepeatedSyncIsIdle(s: Store, t: Store, u: Store, snap: Snapshot, ids: map<string, string>,
                           ids': map<string, string>)
    requires Accepts(s, snap) && FreshIds(s, snap.entries, ids)
    requires Synced(s, t, snap, ids) && Synced(t, u, snap, ids')
    ensures u == t
    ensures forall id | id in t :: Reconcile(t[id], snap) == t[id]
  {
    forall id | id in t ensures Reconcile(t[id], snap) == t[id] {
      SyncedUserSettles(s, t, snap, ids, id);
    }
    forall id | id in u ensures id in t {
      NothingNewAgain(s, t, u, snap, ids, ids', id);
    }
  }

  /** What such a repeated sync reports: every entry the same, no write. */
  lemma RepeatedSyncReport(s: Store, t: Store, u: Store, snap: Snapshot,
                           ids: map<string, string>, ids': map<string, string>, r: SyncResult)
    requires Accepts(s, snap) && FreshIds(s, snap.entries, ids)
    requires Synced(s, t, snap, ids) && Synced(t, u, snap, ids')
    requires ReportsEntries(t, snap, ids', r) && ReportsMissing(t, snap, r)
    ensures r.created == [] && r.updated == [] && r.deactivated == [] && Writes(r) == 0
    ensures |r.same| == |snap.entries|
  {
    RepeatedSyncIsIdle(s, t, u, snap, ids, ids');
    forall k | 0 <= k < |snap.entries| ensures HasOwned(t, snap, snap.entries[k].dn) {
      OwnedAfter(s, t, snap, ids, k);
    }
    EmptyOrHas(r.created);
    EmptyOrHas(r.updated);
    forall id | id in t && Missing(t[id], snap) && snap.deactivateMissing ensures IsBreakGlass(t[id]) {
      assert Reconcile(t[id], snap).active;
    }
    EmptyOrHas(r.deactivated);
  }

  lemma EmptyOrHas<T(!new)>(s: seq<T>)
    ensures s == [] || exists x :: x in s
  {
    assert s != [] ==> s[0] in s;
  }

  // ----- Two providers --------------------------------------------------

  /** `u` is the new user that `snap` makes for the id. */
  ghost predicate IsNewUser(s: Store, snap: Snapshot, ids: map<string, string>, id: string, u: User) {
    exists e ::
      && e in snap.entries && !HasOwned(s, snap, e.dn)
      && e.dn in ids && id == ids[e.dn] && u == NewUser(snap, ids, e)
  }

  /** Another provider's sync neither blocks a snapshot nor takes its DNs. */
  lemma OtherSyncKeepsAcceptance(s: Store, t: Store, snap: Snapshot, other: Snapshot, ids: map<string, string>)
    requires snap.provider != other.provider
    requires Accepts(s, snap) && Accepts(s, other) && FreshIds(s, snap.entries, ids) && Synced(s, t, snap, ids)
    ensures Accepts(t, other)
    ensures forall dn :: HasOwned(t, other, dn) <==> HasOwned(s, other, dn)
  {
    OwnershipRestored(s, t, snap, ids);
    forall id | id in t
      ensures id !in s ==> t[id].directoryProviderId == Some(snap.provider) && t[id].realmId == snap.realm
    {
      SyncedOrigin(s, t, snap, ids, id);
    }
    forall id | id in s ensures id in t && SameKey(t[id], s[id]) {
      ReconcileKeepsKey(s[id], snap);
    }
    if other.realm != snap.realm {
      forall i, j |
        i in t && j in t && t[i].realmId == other.realm && t[j].realmId == other.realm && SameOwnership(t[i], t[j])
        ensures i == j
      {
        assert SameOwnership(s[i], s[j]);
      }
    }
    forall id, k | id in t && t[id].realmId == other.realm && 0 <= k < |other.entries|
      ensures !CollidesUnowned(t[id], other.entries[k].dn)
    {
      assert id in s ==> !CollidesUnowned(s[id], other.entries[k].dn);
    }
    forall dn ensures HasOwned(t, other, dn) <==> HasOwned(s, other, dn) {
      if id :| id in s && OwnedAs(s[id], other, dn) {
        assert OwnedAs(t[id], other, dn);
      }
      if id :| id in t && OwnedAs(t[id], other, dn) {
        assert OwnedAs(s[id], other, dn);
      }
    }
  }

  lemma AfterBoth(s: Store, t: Store, u: Store, snap: Snapshot, other: Snapshot,
                  ids: map<string, string>, ids': map<string, string>, id: string)
    requires snap.provider != other.provider
    requires Accepts(s, snap) && Accepts(s, other) && FreshIds(s, snap.entries, ids)
    requires Synced(s, t, snap, ids) && Synced(t, u, other, ids') && id in u
    ensures id in s ==> u[id] == Reconcile(Reconcile(s[id], snap), other)
    ensures id !in s ==> IsNewUser(s, snap, ids, id, u[id]) || IsNewUser(s, other, ids', id, u[id])
  {
    OtherSyncKeepsAcceptance(s, t, snap, other, ids);
    SyncedOrigin(t, u, other, ids', id);
    if id in t {
      SyncedOrigin(s, t, snap, ids, id);
      if id !in s {
        var i :| 0 <= i < |snap.entries| && snap.entries[i].dn in ids && !HasOwned(s, snap, snap.entries[i].dn)
                 && id == ids[snap.entries[i].dn] && t[id] == NewUser(snap, ids, snap.entries[i]);
        NewUserKey(snap, ids, snap.entries[i]);
        assert snap.entries[i] in snap.entries;
      }
    } else {
      var i :| 0 <= i < |other.entries| && other.entries[i].dn in ids' && !HasOwned(t, other, other.entries[i].dn)
               && id == ids'[other.entries[i].dn] && u[id] == NewUser(other, ids', other.entries[i]);
      assert other.entries[i] in other.entries;
    }
  }

  /** `u` is `s` after a sync of `p` and one of `q`. */
  ghost predicate SyncedBoth(s: Store, u: Store, p: Snapshot, q: Snapshot, ids: map<string, string>,
                             ids': map<string, string>) {
    && (forall id | id in s :: id in u && u[id] == Reconcile(Reconcile(s[id], p), q))
    && HoldsNew(s, u, p, ids)
    && HoldsNew(s, u, q, ids')
    && (forall id | id in u && id !in s :: IsNewUser(s, p, ids, id, u[id]) || IsNewUser(s, q, ids', id, u[id]))
  }

  ghost predicate HoldsNew(s: Store, u: Store, snap: Snapshot, ids: map<string, string>) {
    forall e | e in snap.entries && !HasOwned(s, snap, e.dn) ::
      e.dn in ids && ids[e.dn] in u && u[ids[e.dn]] == NewUser(snap, ids, e)
  }

  lemma TwoSyncs(s: Store, t: Store, u: Store, p: Snapshot, q: Snapshot, ids: map<string, string>,
                 ids': map<string, string>)
    requires p.provider != q.provider
    requires Accepts(s, p) && Accepts(s, q) && FreshIds(s, p.entries, ids)
    requires Synced(s, t, p, ids) && Synced(t, u, q, ids')
    ensures SyncedBoth(s, u, p, q, ids, ids')
  {
    OtherSyncKeepsAcceptance(s, t, p, q, ids);
    forall e | e in p.entries && !HasOwned(s, p, e.dn)
      ensures e.dn in ids && ids[e.dn] in u && u[ids[e.dn]] == NewUser(p, ids, e)
    {
      NewUserKey(p, ids, e);
    }
    forall id | id in u && id !in s ensures IsNewUser(s, p, ids, id, u[id]) || IsNewUser(s, q, ids', id, u[id]) {
      AfterBoth(s, t, u, p, q, ids, ids', id);
    }
  }

  lemma SyncedBothSwaps(s: Store, u: Store, p: Snapshot, q: Snapshot, ids: map<string, string>,
                        ids': map<string, string>)
    requires p.provider != q.provider && SyncedBoth(s, u, p, q, ids, ids')
    ensures SyncedBoth(s, u, q, p, ids', ids)
  {
    forall id | id in s ensures Reconcile(Reconcile(s[id], p), q) == Reconcile(Reconcile(s[id], q), p) {
      ReconcileOther(s[id], p, q);
    }
  }

  lemma NewUserHeld(s: Store, u: Store, snap: Snapshot, ids: map<string, string>, id: string, user: User)
    requires HoldsNew(s, u, snap, ids) && IsNewUser(s, snap, ids, id, user)
    ensures id in u && u[id] == user
  {
  }

  lemma SyncedBothUnique(s: Store, u: Store, v: Store, p: Snapshot, q: Snapshot, ids: map<string, string>,
                         ids': map<string, string>)
    requires SyncedBoth(s, u, p, q, ids, ids') && SyncedBoth(s, v, p, q, ids, ids')
    ensures forall id | id in u :: id in v && v[id] == u[id]
  {
    forall id | id in u && id !in s ensures id in v && v[id] == u[id] {
      if IsNewUser(s, p, ids, id, u[id]) {
        NewUserHeld(s, v, p, ids, id, u[id]);
      } else {
        NewUserHeld(s, v, q, ids', id, u[id]);
      }
    }
  }

  /** Syncs of two providers commute: with the same new ids, both orders give
      the same table. */
  lemma SyncsCommute(s: Store, p: Snapshot, q: Snapshot, ids: map<string, string>, ids': map<string, string>,
                     a: Store, ab: Store, b: Store, ba: Store)
    requires p.provider != q.provider
    requires Accepts(s, p) && Accepts(s, q)
    requires FreshIds(s, p.entries, ids) && FreshIds(s, q.entries, ids')
    requires Synced(s, a, p, ids) && Synced(a, ab, q, ids')
    requires Synced(s, b, q, ids') && Synced(b, ba, p, ids)
    ensures ab == ba
  {
    TwoSyncs(s, a, ab, p, q, ids, ids');
    TwoSyncs(s, b, ba, q, p, ids', ids);
    SyncedBothSwaps(s, ba, q, p, ids', ids);
    SyncedBothUnique(s, ab, ba, p, q, ids, ids');
    SyncedBothUnique(s, ba, ab, p, q, ids, ids');
  }
}
