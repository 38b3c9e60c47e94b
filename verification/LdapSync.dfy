/** Reconciling one provider's LDAP snapshot into the shared user table. */
module LdapSync {
  import opened Wrappers
  import opened Directory
  import opened SyncPlan
  import Text

  type Store = map<string, User>

  datatype Snapshot = Snapshot(
    realm: string,
    provider: string,
    entries: seq<LdapEntry>,
    deactivateMissing: bool,
    syncedAt: nat)

  datatype SyncError =
    | BlankProvider
    | BlankDn
    | BlankUid(dn: string)
    | DuplicateDn(dn: string)
    | BlankOwner(id: string)
    | MissingOwnedDn(id: string)
    | BlankOwnedDn(id: string)
    | DuplicateOwnership(provider: string, dn: string)
    | UnownedCollision(dn: string)

  datatype SyncResult = SyncResult(
    created: seq<string>,
    updated: seq<string>,
    same: seq<string>,
    deactivated: seq<string>,
    breakGlassSkipped: seq<string>)

  // ----- What a sync demands --------------------------------------------

  predicate Keyed(s: Store) {
    forall id | id in s :: s[id].id == id
  }

  predicate ValidEntry(e: LdapEntry) {
    !Text.IsBlank(e.dn) && !Text.IsBlank(e.uid)
  }

  predicate ValidEntries(es: seq<LdapEntry>) {
    && (forall i | 0 <= i < |es| :: ValidEntry(es[i]))
    && forall i, j | 0 <= i < j < |es| :: es[i].dn != es[j].dn
  }

  predicate SoundOwner(u: User) {
    u.directoryProviderId.Some? ==>
      !Text.IsBlank(u.directoryProviderId.value) && u.externalId.Some? && !Text.IsBlank(u.externalId.value)
  }

  predicate SameOwnership(u: User, v: User) {
    u.directoryProviderId.Some? && u.directoryProviderId == v.directoryProviderId && u.externalId == v.externalId
  }

  /** Every owned row names its owner and DN, and no two rows share both. */
  predicate OwnershipSound(s: Store, realm: string) {
    && (forall id | id in s && s[id].realmId == realm :: SoundOwner(s[id]))
    && forall i, j | i in s && j in s && s[i].realmId == realm && s[j].realmId == realm
                     && SameOwnership(s[i], s[j]) :: i == j
  }

  predicate CollidesUnowned(u: User, dn: string) {
    u.directoryProviderId.None? && u.externalId == Some(dn)
  }

  predicate NoUnownedCollision(s: Store, snap: Snapshot) {
    forall id, k | id in s && s[id].realmId == snap.realm && 0 <= k < |snap.entries| ::
      !CollidesUnowned(s[id], snap.entries[k].dn)
  }

  /** The snapshots a sync carries out; every other one is refused. */
  predicate Accepts(s: Store, snap: Snapshot) {
    && !Text.IsBlank(snap.provider)
    && ValidEntries(snap.entries)
    && OwnershipSound(s, snap.realm)
    && NoUnownedCollision(s, snap)
  }

  /** New ids, one per DN, that no stored user has. */
  predicate FreshIds(s: Store, es: seq<LdapEntry>, ids: map<string, string>) {
    && (forall i | 0 <= i < |es| :: es[i].dn in ids && ids[es[i].dn] !in s)
    && forall i, j | 0 <= i < |es| && 0 <= j < |es| && ids[es[i].dn] == ids[es[j].dn] :: es[i].dn == es[j].dn
  }

  // ----- What a sync does -----------------------------------------------

  predicate Owned(u: User, snap: Snapshot) {
    u.realmId == snap.realm && u.directoryProviderId == Some(snap.provider) && u.externalId.Some?
  }

  predicate OwnedAs(u: User, snap: Snapshot, dn: string) {
    Owned(u, snap) && u.externalId.value == dn
  }

  predicate HasOwned(s: Store, snap: Snapshot, dn: string) {
    exists id :: id in s && OwnedAs(s[id], snap, dn)
  }

  function EntryFor(es: seq<LdapEntry>, dn: string): (r: Option<LdapEntry>)
    ensures r.Some? ==> r.value in es && r.value.dn == dn
    ensures r.None? ==> forall i | 0 <= i < |es| :: es[i].dn != dn
  {
    if es == [] then None
    else if es[0].dn == dn then Some(es[0])
    else EntryFor(es[1..], dn)
  }

  lemma {:induction false} EntryForUnique(es: seq<LdapEntry>, i: nat)
    requires i < |es| && forall k, j | 0 <= k < j < |es| :: es[k].dn != es[j].dn
    ensures EntryFor(es, es[i].dn) == Some(es[i])
  {
    if i > 0 {
      EntryForUnique(es[1..], i - 1);
    }
  }

  function Deactivate(u: User, at: nat): User {
    MarkDeprovisioned(u.(active := false), at)
  }

  predicate Listed(u: User, snap: Snapshot) {
    Owned(u, snap) && EntryFor(snap.entries, u.externalId.value).Some?
  }

  predicate Missing(u: User, snap: Snapshot) {
    Owned(u, snap) && EntryFor(snap.entries, u.externalId.value).None? && u.active
  }

  /** What a sync leaves of a stored user. */
  function Reconcile(u: User, snap: Snapshot): User {
    if !Owned(u, snap) then u
    else
      match EntryFor(snap.entries, u.externalId.value)
      case Some(e) => ApplyLdapEntry(u, snap.provider, e, snap.syncedAt)
      case None =>
        if snap.deactivateMissing && u.active && !IsBreakGlass(u) then Deactivate(u, snap.syncedAt) else u
  }

  function NewUser(snap: Snapshot, ids: map<string, string>, e: LdapEntry): User
    requires e.dn in ids
  {
    UserFromLdapEntry(ids[e.dn], snap.realm, snap.provider, e, snap.syncedAt)
  }

  /** The id given to an entry whose DN no stored user owns. */
  ghost predicate IsNewId(s: Store, snap: Snapshot, ids: map<string, string>, id: string) {
    exists e :: e in snap.entries && !HasOwned(s, snap, e.dn) && e.dn in ids && id == ids[e.dn]
  }

  /** `t` is the table a sync of `snap` makes of `s`. */
  ghost predicate Synced(s: Store, t: Store, snap: Snapshot, ids: map<string, string>) {
    && (forall id | id in s :: id in t && t[id] == Reconcile(s[id], snap))
    && (forall e | e in snap.entries && !HasOwned(s, snap, e.dn) ::
          e.dn in ids && ids[e.dn] in t && t[ids[e.dn]] == NewUser(snap, ids, e))
    && (forall id | id in t && id !in s :: IsNewId(s, snap, ids, id))
  }

  // ----- The report -----------------------------------------------------

  /** Each entry is reported once: as created when no owned user has its DN,
      else as updated or the same by what reconciling that user changes. */
  ghost predicate ReportsEntries(s: Store, snap: Snapshot, ids: map<string, string>, r: SyncResult) {
    && |r.created| + |r.updated| + |r.same| == |snap.entries|
    && (forall id :: id in r.created <==> IsNewId(s, snap, ids, id))
    && (forall id :: id in r.updated <==> id in s && Listed(s[id], snap) && Reconcile(s[id], snap) != s[id])
    && (forall id :: id in r.same <==> id in s && Listed(s[id], snap) && Reconcile(s[id], snap) == s[id])
  }

  /** The users reported as deactivated and as skipped. */
  ghost predicate ReportsMissing(s: Store, snap: Snapshot, r: SyncResult) {
    && (forall id :: id in r.deactivated <==>
          snap.deactivateMissing && id in s && Missing(s[id], snap) && !IsBreakGlass(s[id]))
    && (forall id :: id in r.breakGlassSkipped <==>
          snap.deactivateMissing && id in s && Missing(s[id], snap) && IsBreakGlass(s[id]))
  }

  function Writes(r: SyncResult): nat {
    |r.created| + |r.updated| + |r.deactivated|
  }

  /** The repository: users by id, and how many writes it has taken. */
  class Repository {
    var users: Store
    var writes: nat

    constructor (users: Store)
      ensures this.users == users && writes == 0
    {
      this.users := users;
      writes := 0;
    }

    method ListUsers(realm: string) returns (list: seq<User>)
      requires Keyed(users)
      ensures forall u :: u in list <==> u.id in users && users[u.id] == u && u.realmId == realm
      ensures forall i, j | 0 <= i < j < |list| :: list[i].id != list[j].id
    {
      list := [];
      var left := users.Keys;
      while left != {}
        invariant left <= users.Keys
        invariant forall u :: u in list <==> u.id in users && u.id !in left && users[u.id] == u && u.realmId == realm
        invariant forall i, j | 0 <= i < j < |list| :: list[i].id != list[j].id
        decreases left
      {
        var id :| id in left;
        left := left - {id};
        if users[id].realmId == realm {
          assert forall i | 0 <= i < |list| :: list[i] in list;
          list := list + [users[id]];
        }
      }
    }

    method Create(u: User)
      requires Keyed(users) && u.id !in users
      modifies this
      ensures users == old(users)[u.id := u] && Keyed(users) && writes == old(writes) + 1
    {
      users := users[u.id := u];
      writes := writes + 1;
    }

    method Update(u: User)
      requires Keyed(users) && u.id in users
      modifies this
      ensures users == old(users)[u.id := u] && Keyed(users) && writes == old(writes) + 1
    {
      users := users[u.id := u];
      writes := writes + 1;
    }
  }

  // ----- Checks before any write ----------------------------------------

  ghost predicate EntryErrorIsReal(es: seq<LdapEntry>, e: SyncError) {
    match e
    case BlankDn => exists k :: 0 <= k < |es| && Text.IsBlank(es[k].dn)
    case BlankUid(dn) => exists k :: 0 <= k < |es| && es[k].dn == dn && Text.IsBlank(es[k].uid)
    case DuplicateDn(dn) => exists j, k :: 0 <= j < k < |es| && es[j].dn == dn == es[k].dn
    case _ => false
  }

  ghost predicate RowErrorIsReal(users: seq<User>, e: SyncError) {
    match e
    case BlankOwner(id) =>
      exists u :: u in users && u.id == id && u.directoryProviderId.Some? && Text.IsBlank(u.directoryProviderId.value)
    case MissingOwnedDn(id) => exists u :: u in users && u.id == id && u.directoryProviderId.Some? && u.externalId.None?
    case BlankOwnedDn(id) =>
      exists u :: u in users && u.id == id && u.directoryProviderId.Some? && u.externalId.Some?
                  && Text.IsBlank(u.externalId.value)
    case DuplicateOwnership(provider, dn) =>
      exists i, j :: 0 <= i < j < |users| && SameOwnership(users[i], users[j])
                     && users[i].directoryProviderId == Some(provider) && users[i].externalId == Some(dn)
    case _ => false
  }

  ghost predicate CollisionIsReal(users: seq<User>, es: seq<LdapEntry>, e: SyncError) {
    e.UnownedCollision? && exists u, k :: u in users && 0 <= k < |es| && es[k].dn == e.dn && CollidesUnowned(u, e.dn)
  }

  /** What an error says of the snapshot, or of the realm's users as listed. */
  ghost predicate SyncErrorIsReal(s: Store, snap: Snapshot, e: SyncError) {
    || (e == BlankProvider && Text.IsBlank(snap.provider))
    || EntryErrorIsReal(snap.entries, e)
    || exists users :: Lists(s, snap.realm, users) &&
         (RowErrorIsReal(users, e) || CollisionIsReal(users, snap.entries, e))
  }

  method ValidateEntries(es: seq<LdapEntry>) returns (r: Result<(), SyncError>)
    ensures r.Ok? <==> ValidEntries(es)
    ensures r.Err? ==> EntryErrorIsReal(es, r.error)
  {
    var seen := {};
    for i := 0 to |es|
      invariant seen == set k | 0 <= k < i :: es[k].dn
      invariant ValidEntries(es[..i])
    {
      if Text.IsBlank(es[i].dn) {
        return Err(BlankDn);
      }
      if Text.IsBlank(es[i].uid) {
        return Err(BlankUid(es[i].dn));
      }
      if es[i].dn in seen {
        return Err(DuplicateDn(es[i].dn));
      }
      seen := seen + {es[i].dn};
    }
    assert es[..|es|] == es;
    return Ok(());
  }

  predicate RowsSound(users: seq<User>) {
    && (forall i | 0 <= i < |users| :: SoundOwner(users[i]))
    && forall i, j | 0 <= i < j < |users| :: !SameOwnership(users[i], users[j])
  }

  method PreflightDirectoryOwnership(users: seq<User>) returns (r: Result<(), SyncError>)
    ensures r.Ok? <==> RowsSound(users)
    ensures r.Err? ==> RowErrorIsReal(users, r.error)
  {
    var seen: set<(string, string)> := {};
    for i := 0 to |users|
      invariant forall k | 0 <= k < i :: SoundOwner(users[k])
      invariant forall k, m | 0 <= k < m < i :: !SameOwnership(users[k], users[m])
      invariant forall k | 0 <= k < i && users[k].directoryProviderId.Some? ::
                  (users[k].directoryProviderId.value, users[k].externalId.value) in seen
      invariant forall key | key in seen :: exists k :: 0 <= k < i && users[k].directoryProviderId == Some(key.0)
                                                        && users[k].externalId == Some(key.1)
    {
      var u := users[i];
      if u.directoryProviderId.Some? {
        var owner := u.directoryProviderId.value;
        if Text.IsBlank(owner) {
          return Err(BlankOwner(u.id));
        }
        if u.externalId.None? {
          return Err(MissingOwnedDn(u.id));
        }
        var dn := u.externalId.value;
        if Text.IsBlank(dn) {
          return Err(BlankOwnedDn(u.id));
        }
        if (owner, dn) in seen {
          ghost var k :| 0 <= k < i && users[k].directoryProviderId == Some(owner) && users[k].externalId == Some(dn);
          assert SameOwnership(users[k], users[i]);
          return Err(DuplicateOwnership(owner, dn));
        }
        seen := seen + {(owner, dn)};
      }
    }
    return Ok(());
  }

  predicate NoneCollides(users: seq<User>, es: seq<LdapEntry>) {
    forall i, k | 0 <= i < |users| && 0 <= k < |es| :: !CollidesUnowned(users[i], es[k].dn)
  }

  method CheckUnownedCollisions(users: seq<User>, es: seq<LdapEntry>) returns (r: Result<(), SyncError>)
    ensures r.Ok? <==> NoneCollides(users, es)
    ensures r.Err? ==> CollisionIsReal(users, es, r.error)
  {
    var unowned := set i | 0 <= i < |users| && users[i].directoryProviderId.None? && users[i].externalId.Some?
                     :: users[i].externalId.value;
    for k := 0 to |es|
      invariant forall i, m | 0 <= i < |users| && 0 <= m < k :: !CollidesUnowned(users[i], es[m].dn)
    {
      if es[k].dn in unowned {
        ghost var i :| 0 <= i < |users| && users[i].directoryProviderId.None? && users[i].externalId == Some(es[k].dn);
        assert CollidesUnowned(users[i], es[k].dn);
        return Err(UnownedCollision(es[k].dn));
      }
    }
    return Ok(());
  }

  ghost predicate Lists(s: Store, realm: string, users: seq<User>) {
    && (forall u :: u in users <==> u.id in s && s[u.id] == u && u.realmId == realm)
    && forall i, j | 0 <= i < j < |users| :: users[i].id != users[j].id
  }

  lemma RowsSoundIffOwnershipSound(s: Store, realm: string, users: seq<User>)
    requires Keyed(s) && Lists(s, realm, users)
    ensures RowsSound(users) <==> OwnershipSound(s, realm)
  {
    forall i, j | 0 <= i < j < |users| && SameOwnership(users[i], users[j])
      ensures !OwnershipSound(s, realm)
    {
      assert users[i] in users && users[j] in users;
    }
    forall i | 0 <= i < |users| ensures users[i].id in s && s[users[i].id] == users[i] {
      assert users[i] in users;
    }
    if RowsSound(users) {
      forall id | id in s && s[id].realmId == realm ensures SoundOwner(s[id]) {
        assert s[id] in users;
      }
      forall i, j | i in s && j in s && s[i].realmId == realm && s[j].realmId == realm && SameOwnership(s[i], s[j])
        ensures i == j
      {
        assert s[i] in users && s[j] in users;
        var a :| 0 <= a < |users| && users[a] == s[i];
        var b :| 0 <= b < |users| && users[b] == s[j];
        assert SameOwnership(users[b], users[a]);
      }
    }
  }

  lemma NoneCollidesIff(s: Store, snap: Snapshot, users: seq<User>)
    requires Keyed(s) && Lists(s, snap.realm, users)
    ensures NoneCollides(users, snap.entries) <==> NoUnownedCollision(s, snap)
  {
    forall i | 0 <= i < |users| ensures users[i].id in s && s[users[i].id] == users[i] {
      assert users[i] in users;
    }
    forall id | id in s && s[id].realmId == snap.realm ensures s[id] in users {
    }
  }

  method CheckSnapshot(repo: Repository, snap: Snapshot) returns (r: Result<seq<User>, SyncError>)
    requires Keyed(repo.users)
    ensures r.Ok? <==> Accepts(repo.users, snap)
    ensures r.Ok? ==> Lists(repo.users, snap.realm, r.value)
    ensures r.Err? ==> SyncErrorIsReal(repo.users, snap, r.error)
  {
    if Text.IsBlank(snap.provider) {
      return Err(BlankProvider);
    }
    var valid := ValidateEntries(snap.entries);
    if valid.Err? {
      return Err(valid.error);
    }
    var users := repo.ListUsers(snap.realm);
    var sound := PreflightDirectoryOwnership(users);
    RowsSoundIffOwnershipSound(repo.users, snap.realm, users);
    if sound.Err? {
      return Err(sound.error);
    }
    var free := CheckUnownedCollisions(users, snap.entries);
    NoneCollidesIff(repo.users, snap, users);
    if free.Err? {
      return Err(free.error);
    }
    return Ok(users);
  }

  // ----- Carrying a snapshot out ----------------------------------------

  function EntryDns(es: seq<LdapEntry>): set<string> {
    set e | e in es :: e.dn
  }

  ghost function PlanOf(s: Store, snap: Snapshot, ids: map<string, string>): Plan<User> {
    Plan(
      s,
      map id | id in s :: Reconcile(s[id], snap),
      map id | id in s && Owned(s[id], snap) :: s[id].externalId.value,
      map dn | dn in EntryDns(snap.entries) && !HasOwned(s, snap, dn) && dn in ids && EntryFor(snap.entries, dn).Some?
        :: (ids[dn], NewUser(snap, ids, EntryFor(snap.entries, dn).value)))
  }

  lemma PlanIsSound(s: Store, snap: Snapshot, ids: map<string, string>)
    requires Accepts(s, snap) && FreshIds(s, snap.entries, ids)
    ensures Sound(PlanOf(s, snap, ids))
  {
    var p := PlanOf(s, snap, ids);
    forall i, j | i in p.dnOf && j in p.dnOf && p.dnOf[i] == p.dnOf[j] ensures i == j {
      assert SameOwnership(s[i], s[j]);
    }
    forall i, dn | i in p.dnOf && dn in p.created ensures p.dnOf[i] != dn {
      assert OwnedAs(s[i], snap, p.dnOf[i]);
    }
  }

  /** What the loops need to know about a plan. */
  ghost predicate Fits(p: Plan<User>, snap: Snapshot, ids: map<string, string>) {
    var es := snap.entries;
    && Sound(p) && Keyed(p.before) && ValidEntries(es)
    && (forall i, id | 0 <= i < |es| && id in p.dnOf && p.dnOf[id] == es[i].dn ::
          p.after[id] == ApplyLdapEntry(p.before[id], snap.provider, es[i], snap.syncedAt))
    && (forall i | 0 <= i < |es| && es[i].dn !in p.dnOf.Values ::
          es[i].dn in ids && es[i].dn in p.created && p.created[es[i].dn] == (ids[es[i].dn], NewUser(snap, ids, es[i])))
    && (forall id | id in p.dnOf && p.dnOf[id] !in EntryDns(es) ::
          var u := p.before[id];
          p.after[id]
            == if snap.deactivateMissing && u.active && !IsBreakGlass(u) then Deactivate(u, snap.syncedAt) else u)
  }

  lemma PlanFits(s: Store, snap: Snapshot, ids: map<string, string>)
    requires Keyed(s) && Accepts(s, snap) && FreshIds(s, snap.entries, ids)
    ensures Fits(PlanOf(s, snap, ids), snap, ids)
  {
    var p, es := PlanOf(s, snap, ids), snap.entries;
    PlanIsSound(s, snap, ids);
    forall i | 0 <= i < |es| ensures EntryFor(es, es[i].dn) == Some(es[i]) && es[i].dn in EntryDns(es) {
      EntryForUnique(es, i);
    }
    forall i | 0 <= i < |es| && es[i].dn !in p.dnOf.Values ensures !HasOwned(s, snap, es[i].dn) {
      assert forall id | id in s && OwnedAs(s[id], snap, es[i].dn) :: id in p.dnOf && p.dnOf[id] == es[i].dn;
    }
    forall id | id in p.dnOf && p.dnOf[id] !in EntryDns(es) ensures EntryFor(es, p.dnOf[id]).None? {
      EntryForNone(es, p.dnOf[id]);
    }
  }

  lemma EntryForNone(es: seq<LdapEntry>, dn: string)
    ensures EntryFor(es, dn).None? <==> dn !in EntryDns(es)
  {
    if EntryFor(es, dn).Some? {
      assert EntryFor(es, dn).value in es;
    }
  }

  /** The owned users not handled yet, by DN. */
  ghost predicate Indexes(p: Plan<User>, done: set<string>, ownedByDn: map<string, User>) {
    && (forall dn | dn in ownedByDn :: dn !in done && ownedByDn[dn].id in p.dnOf && p.dnOf[ownedByDn[dn].id] == dn
                                       && ownedByDn[dn].id in p.before && p.before[ownedByDn[dn].id] == ownedByDn[dn])
    && forall id | id in p.dnOf && p.dnOf[id] !in done :: p.dnOf[id] in ownedByDn
  }

  method IndexOwned(ghost s: Store, users: seq<User>, snap: Snapshot) returns (ownedByDn: map<string, User>)
    requires Keyed(s) && Lists(s, snap.realm, users)
    ensures forall dn | dn in ownedByDn :: ownedByDn[dn].id in s && s[ownedByDn[dn].id] == ownedByDn[dn]
                                           && OwnedAs(ownedByDn[dn], snap, dn)
    ensures forall id | id in s && Owned(s[id], snap) :: s[id].externalId.value in ownedByDn
  {
    ownedByDn := map[];
    for i := 0 to |users|
      invariant forall dn | dn in ownedByDn :: ownedByDn[dn] in users[..i] && OwnedAs(ownedByDn[dn], snap, dn)
      invariant forall k | 0 <= k < i && Owned(users[k], snap) :: users[k].externalId.value in ownedByDn
    {
      assert users[..i + 1] == users[..i] + [users[i]];
      var u := users[i];
      if u.directoryProviderId == Some(snap.provider) && u.externalId.Some? {
        assert u in users;
        ownedByDn := ownedByDn[u.externalId.value := u];
      }
    }
    assert users[..|users|] == users;
    forall id | id in s && Owned(s[id], snap) ensures s[id].externalId.value in ownedByDn {
      assert s[id] in users;
    }
  }

  lemma EntryDnsSnoc(es: seq<LdapEntry>, i: nat)
    requires i < |es|
    ensures EntryDns(es[..i + 1]) == EntryDns(es[..i]) + {es[i].dn}
    ensures ValidEntries(es) ==> es[i].dn !in EntryDns(es[..i])
  {
    assert es[..i + 1] == es[..i] + [es[i]];
  }

  lemma IndexStep(p: Plan<User>, done: set<string>, m: map<string, User>, dn: string)
    requires Indexes(p, done, m)
    ensures Indexes(p, done + {dn}, m - {dn})
  {
  }

  lemma IndexMiss(p: Plan<User>, done: set<string>, m: map<string, User>, dn: string)
    requires Indexes(p, done, m) && dn !in done && dn !in m
    ensures dn !in p.dnOf.Values
  {
  }

  /** Store what an owned user becomes, unless that is what it already is. */
  method SettleOwned(repo: Repository, ghost p: Plan<User>, ghost done: set<string>, user: User, after: User,
                     before: Report)
    returns (r: Report)
    requires Keyed(repo.users) && Sound(p) && Staged(p, repo.users, done) && Reported(p, done, before)
    requires user.id in p.dnOf && p.dnOf[user.id] !in done && p.before[user.id] == user
    requires p.after[user.id] == after && after.id == user.id
    modifies repo
    ensures var done' := done + {p.dnOf[user.id]};
            Keyed(repo.users) && Staged(p, repo.users, done') && Reported(p, done', r)
    ensures r.created == before.created && |r.updated| + |r.same| == |before.updated| + |before.same| + 1
    ensures repo.writes - |r.updated| == old(repo.writes) - |before.updated|
  {
    StepOwned(p, repo.users, done, user.id);
    ReportOwned(p, done, before, user.id);
    if after == user {
      assert repo.users[user.id := user] == repo.users;
      r := before.(same := before.same + [user.id]);
    } else {
      repo.Update(after);
      r := before.(updated := before.updated + [user.id]);
    }
  }

  method StoreNew(repo: Repository, ghost p: Plan<User>, ghost done: set<string>, ghost dn: string, user: User,
                  before: Report)
    returns (r: Report)
    requires Keyed(repo.users) && Sound(p) && Staged(p, repo.users, done) && Reported(p, done, before)
    requires dn in p.created && dn !in done && p.created[dn] == (user.id, user)
    modifies repo
    ensures Keyed(repo.users) && Staged(p, repo.users, done + {dn}) && Reported(p, done + {dn}, r)
    ensures r == before.(created := before.created + [user.id])
    ensures repo.writes == old(repo.writes) + 1
  {
    StepNew(p, repo.users, done, dn);
    ReportNew(p, done, before, dn);
    repo.Create(user);
    r := before.(created := before.created + [user.id]);
  }

  /** One entry: update the user that owns its DN, or create one. */
  method ApplyEntry(repo: Repository, ghost p: Plan<User>, ghost done: set<string>, snap: Snapshot,
                    ids: map<string, string>, i: nat, index: map<string, User>, before: Report)
    returns (ownedByDn: map<string, User>, r: Report)
    requires Fits(p, snap, ids) && i < |snap.entries| && snap.entries[i].dn !in done
    requires Keyed(repo.users) && Staged(p, repo.users, done) && Indexes(p, done, index) && Reported(p, done, before)
    modifies repo
    ensures var done' := done + {snap.entries[i].dn};
            Keyed(repo.users) && Staged(p, repo.users, done') && Indexes(p, done', ownedByDn) && Reported(p, done', r)
    ensures |r.created| + |r.updated| + |r.same| == |before.created| + |before.updated| + |before.same| + 1
    ensures repo.writes - (|r.created| + |r.updated|) == old(repo.writes) - (|before.created| + |before.updated|)
  {
    var e := snap.entries[i];
    IndexStep(p, done, index, e.dn);
    ownedByDn := index - {e.dn};
    if e.dn in index {
      var user := index[e.dn];
      r := SettleOwned(repo, p, done, user, ApplyLdapEntry(user, snap.provider, e, snap.syncedAt), before);
    } else {
      IndexMiss(p, done, index, e.dn);
      r := StoreNew(repo, p, done, e.dn,
                    UserFromLdapEntry(ids[e.dn], snap.realm, snap.provider, e, snap.syncedAt), before);
    }
  }

  /** The entry loop. */
  method ApplyEntries(repo: Repository, ghost p: Plan<User>, snap: Snapshot, ids: map<string, string>,
                      index: map<string, User>)
    returns (ownedByDn: map<string, User>, r: Report)
    requires Fits(p, snap, ids) && repo.users == p.before && Indexes(p, {}, index)
    modifies repo
    ensures Keyed(repo.users)
    ensures Staged(p, repo.users, EntryDns(snap.entries))
    ensures Indexes(p, EntryDns(snap.entries), ownedByDn)
    ensures Reported(p, EntryDns(snap.entries), r)
    ensures |r.created| + |r.updated| + |r.same| == |snap.entries|
    ensures repo.writes == old(repo.writes) + |r.created| + |r.updated|
  {
    ownedByDn, r := index, Report([], [], []);
    for i := 0 to |snap.entries|
      invariant Keyed(repo.users)
      invariant Staged(p, repo.users, EntryDns(snap.entries[..i]))
      invariant Indexes(p, EntryDns(snap.entries[..i]), ownedByDn)
      invariant Reported(p, EntryDns(snap.entries[..i]), r)
      invariant |r.created| + |r.updated| + |r.same| == i
      invariant repo.writes == old(repo.writes) + |r.created| + |r.updated|
    {
      EntryDnsSnoc(snap.entries, i);
      ownedByDn, r := ApplyEntry(repo, p, EntryDns(snap.entries[..i]), snap, ids, i, ownedByDn, r);
    }
    assert snap.entries[..|snap.entries|] == snap.entries;
  }

  /** The owned users handled as missing that are active, split by whether
      they are break-glass. */
  ghost predicate Swept(p: Plan<User>, listed: set<string>, done: set<string>, deactivated: seq<string>,
                        skipped: seq<string>)
    requires Sound(p)
  {
    && (forall id :: id in deactivated <==> Gone(p, listed, done, id) && !IsBreakGlass(p.before[id]))
    && (forall id :: id in skipped <==> Gone(p, listed, done, id) && IsBreakGlass(p.before[id]))
  }

  predicate Gone(p: Plan<User>, listed: set<string>, done: set<string>, id: string)
    requires Sound(p)
  {
    Handled(p, done, id) && p.dnOf[id] !in listed && p.before[id].active
  }

  /** One missing user: deactivate it if it is active and not break-glass. */
  method SweepOne(repo: Repository, ghost p: Plan<User>, ghost listed: set<string>, ghost done: set<string>, user: User,
                  at: nat, deactivated: seq<string>, skipped: seq<string>)
    returns (deactivated': seq<string>, skipped': seq<string>)
    requires Keyed(repo.users) && Sound(p) && Staged(p, repo.users, done)
    requires Swept(p, listed, done, deactivated, skipped)
    requires user.id in p.dnOf && p.dnOf[user.id] !in done && listed <= done && p.before[user.id] == user
    requires p.after[user.id] == if user.active && !IsBreakGlass(user) then Deactivate(user, at) else user
    modifies repo
    ensures Keyed(repo.users) && Staged(p, repo.users, done + {p.dnOf[user.id]})
    ensures Swept(p, listed, done + {p.dnOf[user.id]}, deactivated', skipped')
    ensures repo.writes - |deactivated'| == old(repo.writes) - |deactivated|
  {
    StepOwned(p, repo.users, done, user.id);
    assert forall k :: Handled(p, done + {p.dnOf[user.id]}, k) <==> Handled(p, done, k) || k == user.id;
    deactivated', skipped' := deactivated, skipped;
    if user.active {
      if IsBreakGlass(user) {
        skipped' := skipped + [user.id];
      } else {
        repo.Update(Deactivate(user, at));
        deactivated' := deactivated + [user.id];
        return;
      }
    }
    assert repo.users[user.id := user] == repo.users;
  }

  /** The loop over the users the snapshot no longer has. */
  method DeactivateMissing(repo: Repository, ghost p: Plan<User>, ghost listed: set<string>, at: nat,
                           index: map<string, User>)
    returns (deactivated: seq<string>, skipped: seq<string>, ghost done: set<string>)
    requires Keyed(repo.users) && Sound(p) && Staged(p, repo.users, listed) && Indexes(p, listed, index)
    requires forall id | id in p.dnOf && p.dnOf[id] !in listed ::
               var u := p.before[id];
               p.after[id] == if u.active && !IsBreakGlass(u) then Deactivate(u, at) else u
    modifies repo
    ensures Keyed(repo.users) && Staged(p, repo.users, done)
    ensures listed <= done && p.dnOf.Values <= done
    ensures Swept(p, listed, done, deactivated, skipped)
    ensures repo.writes == old(repo.writes) + |deactivated|
  {
    deactivated, skipped, done := [], [], listed;
    var ownedByDn := index;
    while ownedByDn != map[]
      invariant Keyed(repo.users) && listed <= done
      invariant Staged(p, repo.users, done) && Indexes(p, done, ownedByDn)
      invariant Swept(p, listed, done, deactivated, skipped)
      invariant repo.writes == old(repo.writes) + |deactivated|
      decreases ownedByDn.Keys
    {
      var dn :| dn in ownedByDn;
      var user := ownedByDn[dn];
      IndexStep(p, done, ownedByDn, dn);
      deactivated, skipped := SweepOne(repo, p, listed, done, user, at, deactivated, skipped);
      ownedByDn := ownedByDn - {dn};
      done := done + {dn};
    }
  }

  lemma StagedIsSynced(s: Store, t: Store, snap: Snapshot, ids: map<string, string>, done: set<string>)
    requires Accepts(s, snap) && FreshIds(s, snap.entries, ids) && Sound(PlanOf(s, snap, ids))
    requires Staged(PlanOf(s, snap, ids), t, done) && EntryDns(snap.entries) <= done
    requires snap.deactivateMissing ==> PlanOf(s, snap, ids).dnOf.Values <= done
    ensures Synced(s, t, snap, ids)
  {
    var p := PlanOf(s, snap, ids);
    forall id | id in s ensures id in t && t[id] == Reconcile(s[id], snap) {
      if id in p.dnOf && !Handled(p, done, id) {
        EntryForNone(snap.entries, p.dnOf[id]);
      }
    }
    forall e | e in snap.entries && !HasOwned(s, snap, e.dn)
      ensures e.dn in ids && ids[e.dn] in t && t[ids[e.dn]] == NewUser(snap, ids, e)
    {
      var i :| 0 <= i < |snap.entries| && snap.entries[i] == e;
      EntryForUnique(snap.entries, i);
      assert e.dn in p.created;
    }
    forall id | id in t && id !in s ensures IsNewId(s, snap, ids, id) {
      NewIdsOfPlan(s, snap, ids, id);
    }
  }

  lemma NewIdsOfPlan(s: Store, snap: Snapshot, ids: map<string, string>, id: string)
    requires FreshIds(s, snap.entries, ids)
    ensures (exists dn :: dn in PlanOf(s, snap, ids).created && dn in EntryDns(snap.entries)
                          && id == PlanOf(s, snap, ids).created[dn].0)
       <==> IsNewId(s, snap, ids, id)
  {
    var p, dns := PlanOf(s, snap, ids), EntryDns(snap.entries);
    if dn :| dn in p.created && dn in dns && id == p.created[dn].0 {
      var e := EntryFor(snap.entries, dn).value;
      assert e in snap.entries && e.dn == dn;
    }
    if e :| e in snap.entries && !HasOwned(s, snap, e.dn) && e.dn in ids && id == ids[e.dn] {
      EntryForNone(snap.entries, e.dn);
      assert e.dn in p.created && p.created[e.dn].0 == id;
    }
  }

  lemma ListedOfPlan(s: Store, snap: Snapshot, ids: map<string, string>, id: string)
    ensures Handled(PlanOf(s, snap, ids), EntryDns(snap.entries), id) <==> id in s && Listed(s[id], snap)
  {
    var p := PlanOf(s, snap, ids);
    if id in p.dnOf {
      EntryForNone(snap.entries, p.dnOf[id]);
    }
  }

  lemma ReportedIsReports(s: Store, snap: Snapshot, ids: map<string, string>, q: Report, r: SyncResult)
    requires FreshIds(s, snap.entries, ids) && Sound(PlanOf(s, snap, ids))
    requires Reported(PlanOf(s, snap, ids), EntryDns(snap.entries), q)
    requires |q.created| + |q.updated| + |q.same| == |snap.entries|
    requires r.created == q.created && r.updated == q.updated && r.same == q.same
    ensures ReportsEntries(s, snap, ids, r)
  {
    forall id ensures id in r.created <==> IsNewId(s, snap, ids, id) {
      NewIdsOfPlan(s, snap, ids, id);
    }
    forall id ensures id in r.updated <==> id in s && Listed(s[id], snap) && Reconcile(s[id], snap) != s[id] {
      ListedOfPlan(s, snap, ids, id);
    }
    forall id ensures id in r.same <==> id in s && Listed(s[id], snap) && Reconcile(s[id], snap) == s[id] {
      ListedOfPlan(s, snap, ids, id);
    }
  }

  /** `sync_ldap_entries`: a refused snapshot writes nothing; an accepted one
      turns the table into exactly the synced one. */
  method SyncLdapEntries(repo: Repository, snap: Snapshot, ids: map<string, string>)
    returns (r: Result<SyncResult, SyncError>)
    requires Keyed(repo.users) && FreshIds(repo.users, snap.entries, ids)
    modifies repo
    ensures r.Ok? <==> Accepts(old(repo.users), snap)
    ensures r.Err? ==> repo.users == old(repo.users) && repo.writes == old(repo.writes)
    ensures r.Err? ==> SyncErrorIsReal(old(repo.users), snap, r.error)
    ensures Keyed(repo.users)
    ensures r.Ok? ==> Synced(old(repo.users), repo.users, snap, ids)
    ensures r.Ok? ==> ReportsEntries(old(repo.users), snap, ids, r.value)
    ensures r.Ok? ==> ReportsMissing(old(repo.users), snap, r.value)
    ensures r.Ok? ==> repo.writes == old(repo.writes) + Writes(r.value)
  {
    ghost var s := repo.users;
    var checked := CheckSnapshot(repo, snap);
    if checked.Err? {
      return Err(checked.error);
    }
    ghost var p := PlanOf(s, snap, ids);
    PlanFits(s, snap, ids);
    var index := IndexOwned(s, checked.value, snap);
    var rest, report := ApplyEntries(repo, p, snap, ids, index);
    var deactivated: seq<string>, skipped: seq<string> := [], [];
    ghost var done := EntryDns(snap.entries);
    if snap.deactivateMissing {
      deactivated, skipped, done := DeactivateMissing(repo, p, done, snap.syncedAt, rest);
    }
    StagedIsSynced(s, repo.users, snap, ids, done);
    var result := SyncResult(report.created, report.updated, report.same, deactivated, skipped);
    ReportedIsReports(s, snap, ids, report, result);
    if snap.deactivateMissing {
      SweptIsReports(s, snap, ids, done, result);
    }
    return Ok(result);
  }

  lemma SweptIsReports(s: Store, snap: Snapshot, ids: map<string, string>, done: set<string>, r: SyncResult)
    requires snap.deactivateMissing && Sound(PlanOf(s, snap, ids)) && PlanOf(s, snap, ids).dnOf.Values <= done
    requires Swept(PlanOf(s, snap, ids), EntryDns(snap.entries), done, r.deactivated, r.breakGlassSkipped)
    ensures ReportsMissing(s, snap, r)
  {
    var p := PlanOf(s, snap, ids);
    forall id ensures Gone(p, EntryDns(snap.entries), done, id) <==> id in s && Missing(s[id], snap) {
      if id in p.dnOf {
        EntryForNone(snap.entries, p.dnOf[id]);
      }
    }
  }
}
