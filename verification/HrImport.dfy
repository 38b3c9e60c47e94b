/** HR batches: the record-by-record importer and the indexed webhook planner,
    and why they agree. */
module HrImport {
  import opened Wrappers
  import opened Directory
  import opened HrProjection
  import opened SyncPlan
  import opened LdapSync

  datatype HrError =
    | DuplicateRecord(externalId: string)
    | AmbiguousTarget(externalId: string)
    | MissingLeaver(externalId: string)

  datatype Action = Created | Updated | Deprovisioned

  datatype ImportResult = ImportResult(externalId: string, userId: string, action: Action)

  datatype Change = Change(expected: Option<User>, user: User)

  datatype Summary = Summary(created: nat, updated: nat, deprovisioned: nat)

  // ----- The batch rules ------------------------------------------------

  /** The listed users with an external id, in list order. */
  function MatchesOf(users: seq<User>, ext: string): seq<User> {
    if users == [] then []
    else
      var n := |users| - 1;
      MatchesOf(users[..n], ext) + if users[n].externalId == Some(ext) then [users[n]] else []
  }

  predicate DistinctRecords(records: seq<HrRecord>) {
    forall i, j | 0 <= i < j < |records| :: records[i].externalId != records[j].externalId
  }

  predicate Resolves(users: seq<User>, r: HrRecord) {
    |MatchesOf(users, r.externalId)| <= 1 && (r.event.Leaver? ==> |MatchesOf(users, r.externalId)| == 1)
  }

  /** The batches that are carried out. */
  predicate BatchOk(users: seq<User>, records: seq<HrRecord>) {
    DistinctRecords(records) && forall i | 0 <= i < |records| :: Resolves(users, records[i])
  }

  function Current(users: seq<User>, ext: string): Option<User> {
    var found := MatchesOf(users, ext);
    if |found| == 0 then None else Some(found[0])
  }

  function Planned(realm: string, r: HrRecord, current: Option<User>, ids: map<string, string>, now: nat): User
    requires r.externalId in ids
  {
    match current
    case Some(u) => if r.event.Leaver? then ApplyLeaver(u, r, now) else ApplyHrRecord(u, r)
    case None => UserFromHrRecord(ids[r.externalId], realm, r)
  }

  function ActionFor(r: HrRecord, current: Option<User>): Action {
    if r.event.Leaver? then Deprovisioned else if current.Some? then Updated else Created
  }

  /** What a record asks for, given the users listed before the batch. */
  function ChangeFor(users: seq<User>, realm: string, r: HrRecord, ids: map<string, string>, now: nat): Change
    requires r.externalId in ids
  {
    var current := Current(users, r.externalId);
    Change(current, Planned(realm, r, current, ids, now))
  }

  predicate HasIds(records: seq<HrRecord>, ids: map<string, string>) {
    forall i | 0 <= i < |records| :: records[i].externalId in ids
  }

  /** New ids, one per external id, that no stored user has. */
  predicate FreshHrIds(s: Store, records: seq<HrRecord>, ids: map<string, string>) {
    && HasIds(records, ids)
    && (forall i | 0 <= i < |records| :: ids[records[i].externalId] !in s)
    && forall i, j | 0 <= i < |records| && 0 <= j < |records|
                     && ids[records[i].externalId] == ids[records[j].externalId] ::
         records[i].externalId == records[j].externalId
  }

  lemma {:induction false} MatchesAreListed(users: seq<User>, ext: string)
    ensures forall u :: u in MatchesOf(users, ext) <==> u in users && u.externalId == Some(ext)
  {
    if users != [] {
      var n := |users| - 1;
      MatchesAreListed(users[..n], ext);
      assert users == users[..n] + [users[n]];
    }
  }

  // ----- The importer ---------------------------------------------------

  method CheckDistinct(records: seq<HrRecord>) returns (r: Result<(), HrError>)
    ensures r.Ok? <==> DistinctRecords(records)
    ensures r.Err? ==> exists i, j :: 0 <= i < j < |records| && records[i].externalId == records[j].externalId
                                      && r.error == DuplicateRecord(records[i].externalId)
  {
    var seen := {};
    for i := 0 to |records|
      invariant seen == set k | 0 <= k < i :: records[k].externalId
      invariant DistinctRecords(records[..i])
    {
      if records[i].externalId in seen {
        return Err(DuplicateRecord(records[i].externalId));
      }
      seen := seen + {records[i].externalId};
    }
    assert records[..|records|] == records;
    return Ok(());
  }

  /** `find_hr_user`: the only listed user with the external id. */
  method FindHrUser(users: seq<User>, ext: string) returns (r: Result<Option<User>, HrError>)
    ensures r.Ok? <==> |MatchesOf(users, ext)| <= 1
    ensures r.Ok? ==> r.value == Current(users, ext)
    ensures r.Err? ==> r.error == AmbiguousTarget(ext)
  {
    var found: Option<User> := None;
    for i := 0 to |users|
      invariant |MatchesOf(users[..i], ext)| <= 1 && found == Current(users[..i], ext)
    {
      assert users[..i + 1][..i] == users[..i];
      if users[i].externalId == Some(ext) {
        if found.Some? {
          MoreMatches(users, i + 1, ext);
          return Err(AmbiguousTarget(ext));
        }
        found := Some(users[i]);
      }
    }
    assert users[..|users|] == users;
    return Ok(found);
  }

  lemma {:induction false} MoreMatches(users: seq<User>, i: nat, ext: string)
    requires i <= |users|
    ensures |MatchesOf(users[..i], ext)| <= |MatchesOf(users, ext)|
    decreases |users| - i
  {
    if i < |users| {
      assert users[..i + 1][..i] == users[..i];
      MoreMatches(users, i + 1, ext);
    } else {
      assert users[..i] == users;
    }
  }

  /** The record does not resolve, and `e` says why. */
  ghost predicate FailsAs(users: seq<User>, r: HrRecord, e: HrError) {
    && !Resolves(users, r)
    && e == if |MatchesOf(users, r.externalId)| > 1 then AmbiguousTarget(r.externalId) else MissingLeaver(r.externalId)
  }

  method PlanRecords(users: seq<User>, records: seq<HrRecord>) returns (r: Result<seq<Option<User>>, HrError>)
    requires DistinctRecords(records)
    ensures r.Ok? <==> BatchOk(users, records)
    ensures r.Ok? ==> |r.value| == |records|
                      && forall i | 0 <= i < |records| :: r.value[i] == Current(users, records[i].externalId)
    ensures r.Err? ==> exists i :: 0 <= i < |records| && FailsAs(users, records[i], r.error)
  {
    var planned: seq<Option<User>> := [];
    for i := 0 to |records|
      invariant |planned| == i
      invariant forall k | 0 <= k < i ::
                  planned[k] == Current(users, records[k].externalId) && Resolves(users, records[k])
    {
      var current := FindHrUser(users, records[i].externalId);
      if current.Err? {
        return Err(current.error);
      }
      if records[i].event.Leaver? && current.value.None? {
        return Err(MissingLeaver(records[i].externalId));
      }
      planned := planned + [current.value];
    }
    return Ok(planned);
  }

  // ----- The table a batch makes ----------------------------------------

  function RecordFor(records: seq<HrRecord>, ext: string): (r: Option<HrRecord>)
    ensures r.Some? ==> r.value in records && r.value.externalId == ext
    ensures r.None? ==> forall i | 0 <= i < |records| :: records[i].externalId != ext
  {
    if records == [] then None
    else if records[0].externalId == ext then Some(records[0])
    else RecordFor(records[1..], ext)
  }

  lemma {:induction false} RecordForUnique(records: seq<HrRecord>, i: nat)
    requires DistinctRecords(records) && i < |records|
    ensures RecordFor(records, records[i].externalId) == Some(records[i])
  {
    if i > 0 {
      RecordForUnique(records[1..], i - 1);
    }
  }

  predicate Targeted(u: User, realm: string, records: seq<HrRecord>) {
    u.realmId == realm && u.externalId.Some? && RecordFor(records, u.externalId.value).Some?
  }

  predicate HasTarget(s: Store, realm: string, ext: string) {
    exists id :: id in s && s[id].realmId == realm && s[id].externalId == Some(ext)
  }

  function HrReconcile(u: User, realm: string, records: seq<HrRecord>, now: nat): User {
    if !Targeted(u, realm, records) then u
    else
      var r := RecordFor(records, u.externalId.value).value;
      if r.event.Leaver? then ApplyLeaver(u, r, now) else ApplyHrRecord(u, r)
  }

  /** `t` is what a batch makes of `s`: it speaks of the records as a set. */
  ghost predicate Imported(s: Store, t: Store, realm: string, records: seq<HrRecord>, ids: map<string, string>,
                           now: nat) {
    && (forall id | id in s :: id in t && t[id] == HrReconcile(s[id], realm, records, now))
    && (forall r | r in records && !HasTarget(s, realm, r.externalId) ::
          r.externalId in ids && ids[r.externalId] in t
          && t[ids[r.externalId]] == UserFromHrRecord(ids[r.externalId], realm, r))
    && (forall id | id in t && id !in s :: IsNewHrId(s, realm, records, ids, id))
  }

  ghost predicate IsNewHrId(s: Store, realm: string, records: seq<HrRecord>, ids: map<string, string>, id: string) {
    exists r :: r in records && !HasTarget(s, realm, r.externalId) && r.externalId in ids && id == ids[r.externalId]
  }

  // ----- Carrying a batch out -------------------------------------------

  function Exts(records: seq<HrRecord>): set<string> {
    set r | r in records :: r.externalId
  }

  /** The external ids of the first `n` records. */
  function ExtsUpTo(records: seq<HrRecord>, n: nat): set<string>
    requires n <= |records|
  {
    if n == 0 then {} else ExtsUpTo(records, n - 1) + {records[n - 1].externalId}
  }

  lemma {:induction false} InExtsUpTo(records: seq<HrRecord>, n: nat, ext: string)
    requires n <= |records|
    ensures ext in ExtsUpTo(records, n) <==> exists k :: 0 <= k < n && records[k].externalId == ext
  {
    if n > 0 {
      InExtsUpTo(records, n - 1, ext);
    }
  }

  lemma ExtsOfAll(records: seq<HrRecord>)
    ensures ExtsUpTo(records, |records|) == Exts(records)
  {
    forall ext ensures ext in ExtsUpTo(records, |records|) <==> ext in Exts(records) {
      InExtsUpTo(records, |records|, ext);
      if ext in Exts(records) {
        var r :| r in records && r.externalId == ext;
      }
    }
  }

  lemma SeenIffOld(records: seq<HrRecord>, i: nat)
    requires i < |records|
    ensures records[i].externalId in ExtsUpTo(records, i) <==> !NewRecord(records, i)
  {
    InExtsUpTo(records, i, records[i].externalId);
  }

  ghost function HrPlan(s: Store, realm: string, records: seq<HrRecord>, ids: map<string, string>,
                        now: nat): Plan<User> {
    Plan(
      s,
      map id | id in s :: HrReconcile(s[id], realm, records, now),
      map id | id in s && Targeted(s[id], realm, records) :: s[id].externalId.value,
      map ext | ext in Exts(records) && !HasTarget(s, realm, ext) && ext in ids && RecordFor(records, ext).Some?
        :: (ids[ext], UserFromHrRecord(ids[ext], realm, RecordFor(records, ext).value)))
  }

  lemma OnlyTarget(s: Store, realm: string, users: seq<User>, ext: string, i: string, j: string)
    requires Keyed(s) && Lists(s, realm, users) && |MatchesOf(users, ext)| <= 1
    requires i in s && s[i].realmId == realm && s[i].externalId == Some(ext)
    requires j in s && s[j].realmId == realm && s[j].externalId == Some(ext)
    ensures i == j && Current(users, ext) == Some(s[i])
  {
    MatchesAreListed(users, ext);
    assert s[i] in MatchesOf(users, ext) && s[j] in MatchesOf(users, ext);
  }

  lemma NoTarget(s: Store, realm: string, users: seq<User>, ext: string)
    requires Keyed(s) && Lists(s, realm, users)
    ensures Current(users, ext).None? <==> !HasTarget(s, realm, ext)
  {
    MatchesAreListed(users, ext);
    if Current(users, ext).Some? {
      var u := MatchesOf(users, ext)[0];
      assert u in MatchesOf(users, ext);
      assert u.id in s && s[u.id].externalId == Some(ext);
    }
    if id :| id in s && s[id].realmId == realm && s[id].externalId == Some(ext) {
      assert s[id] in MatchesOf(users, ext);
    }
  }

  lemma HrPlanIsSound(s: Store, realm: string, users: seq<User>, records: seq<HrRecord>, ids: map<string, string>,
                      now: nat)
    requires Keyed(s) && Lists(s, realm, users) && BatchOk(users, records) && FreshHrIds(s, records, ids)
    ensures Sound(HrPlan(s, realm, records, ids, now))
  {
    var p := HrPlan(s, realm, records, ids, now);
    forall i, j | i in p.dnOf && j in p.dnOf && p.dnOf[i] == p.dnOf[j] ensures i == j {
      var r := RecordFor(records, p.dnOf[i]).value;
      var k :| 0 <= k < |records| && records[k] == r;
      OnlyTarget(s, realm, users, p.dnOf[i], i, j);
    }
  }

  /** What the apply loop needs to know about the plan for record `i`. */
  ghost predicate HrFits(p: Plan<User>, realm: string, r: HrRecord, current: Option<User>, ids: map<string, string>,
                         now: nat)
    requires Sound(p) && r.externalId in ids
  {
    match current
    case Some(u) => u.id in p.dnOf && p.dnOf[u.id] == r.externalId && p.before[u.id] == u
                    && p.after[u.id] == Planned(realm, r, current, ids, now)
    case None => r.externalId in p.created
                 && p.created[r.externalId] == (ids[r.externalId], Planned(realm, r, current, ids, now))
  }

  lemma HrPlanFits(s: Store, realm: string, users: seq<User>, records: seq<HrRecord>, ids: map<string, string>,
                   now: nat, i: nat)
    requires Keyed(s) && Lists(s, realm, users) && BatchOk(users, records) && FreshHrIds(s, records, ids)
    requires i < |records|
    requires Sound(HrPlan(s, realm, records, ids, now))
    ensures HrFits(HrPlan(s, realm, records, ids, now), realm, records[i], Current(users, records[i].externalId),
                   ids, now)
  {
    var r := records[i];
    RecordForUnique(records, i);
    NoTarget(s, realm, users, r.externalId);
    if HasTarget(s, realm, r.externalId) {
      var id :| id in s && s[id].realmId == realm && s[id].externalId == Some(r.externalId);
      OnlyTarget(s, realm, users, r.externalId, id, id);
    } else {
      assert r in records;
      assert r.externalId in Exts(records);
    }
  }

  lemma PlannedId(realm: string, r: HrRecord, current: Option<User>, ids: map<string, string>, now: nat)
    requires r.externalId in ids
    ensures Planned(realm, r, current, ids, now).id == if current.Some? then current.value.id else ids[r.externalId]
  {
  }

  /** One planned record: write the user it asks for. */
  method ApplyOne(repo: Repository, ghost p: Plan<User>, ghost done: set<string>, realm: string, r: HrRecord,
                  current: Option<User>, ids: map<string, string>, now: nat)
    returns (result: ImportResult)
    requires r.externalId in ids && r.externalId !in done && Keyed(repo.users)
    requires Sound(p) && Staged(p, repo.users, done) && HrFits(p, realm, r, current, ids, now)
    modifies repo
    ensures Keyed(repo.users) && Staged(p, repo.users, done + {r.externalId})
    ensures repo.writes == old(repo.writes) + 1
    ensures result == ResultFor(realm, r, current, ids, now)
  {
    PlannedId(realm, r, current, ids, now);
    match current
    case Some(u) =>
      StepOwned(p, repo.users, done, u.id);
      repo.Update(if r.event.Leaver? then ApplyLeaver(u, r, now) else ApplyHrRecord(u, r));
      result := ImportResult(r.externalId, u.id, ActionFor(r, current));
    case None =>
      StepNew(p, repo.users, done, r.externalId);
      repo.Create(UserFromHrRecord(ids[r.externalId], realm, r));
      result := ImportResult(r.externalId, ids[r.externalId], ActionFor(r, current));
  }

  lemma TargetIsHandled(s: Store, realm: string, records: seq<HrRecord>, ids: map<string, string>, now: nat, id: string)
    requires id in HrPlan(s, realm, records, ids, now).dnOf
    ensures Handled(HrPlan(s, realm, records, ids, now), Exts(records), id)
  {
    var p := HrPlan(s, realm, records, ids, now);
    assert RecordFor(records, p.dnOf[id]).value in records;
  }

  lemma RecordIsCreated(s: Store, realm: string, records: seq<HrRecord>, ids: map<string, string>, now: nat,
                        r: HrRecord)
    requires DistinctRecords(records) && r in records && !HasTarget(s, realm, r.externalId) && r.externalId in ids
    ensures var p := HrPlan(s, realm, records, ids, now);
            && r.externalId in p.created && r.externalId in Exts(records)
            && p.created[r.externalId] == (ids[r.externalId], UserFromHrRecord(ids[r.externalId], realm, r))
  {
    var i :| 0 <= i < |records| && records[i] == r;
    RecordForUnique(records, i);
  }

  lemma CreatedIsNew(s: Store, realm: string, records: seq<HrRecord>, ids: map<string, string>, now: nat, ext: string)
    requires ext in HrPlan(s, realm, records, ids, now).created
    ensures IsNewHrId(s, realm, records, ids, HrPlan(s, realm, records, ids, now).created[ext].0)
  {
    assert RecordFor(records, ext).value in records;
  }

  lemma StagedIsImported(s: Store, t: Store, realm: string, records: seq<HrRecord>, ids: map<string, string>, now: nat)
    requires DistinctRecords(records) && FreshHrIds(s, records, ids)
    requires Sound(HrPlan(s, realm, records, ids, now)) && Staged(HrPlan(s, realm, records, ids, now), t, Exts(records))
    ensures Imported(s, t, realm, records, ids, now)
  {
    var p := HrPlan(s, realm, records, ids, now);
    forall id | id in p.dnOf ensures Handled(p, Exts(records), id) {
      TargetIsHandled(s, realm, records, ids, now, id);
    }
    forall r | r in records && !HasTarget(s, realm, r.externalId)
      ensures r.externalId in ids && ids[r.externalId] in t
              && t[ids[r.externalId]] == UserFromHrRecord(ids[r.externalId], realm, r)
    {
      RecordIsCreated(s, realm, records, ids, now, r);
    }
    forall id | id in t && id !in s ensures IsNewHrId(s, realm, records, ids, id) {
      var ext :| ext in p.created && id == p.created[ext].0;
      CreatedIsNew(s, realm, records, ids, now, ext);
    }
  }

  /** The batches a table admits: one record per external id, each with at most
      one realm user to act on, and a leaver with exactly one. */
  ghost predicate Admits(s: Store, realm: string, records: seq<HrRecord>) {
    && DistinctRecords(records)
    && forall i | 0 <= i < |records| ::
         && AtMostOneTarget(s, realm, records[i].externalId)
         && (records[i].event.Leaver? ==> HasTarget(s, realm, records[i].externalId))
  }

  ghost predicate AtMostOneTarget(s: Store, realm: string, ext: string) {
    forall i, j | i in s && j in s && s[i].realmId == realm && s[j].realmId == realm
                  && s[i].externalId == Some(ext) && s[j].externalId == Some(ext) :: i == j
  }

  lemma {:induction false} MatchesDistinct(users: seq<User>, ext: string)
    requires forall i, j | 0 <= i < j < |users| :: users[i].id != users[j].id
    ensures forall i, j | 0 <= i < j < |MatchesOf(users, ext)| ::
              MatchesOf(users, ext)[i].id != MatchesOf(users, ext)[j].id
  {
    if users != [] {
      var n := |users| - 1;
      MatchesDistinct(users[..n], ext);
      MatchesAreListed(users[..n], ext);
      assert forall u | u in MatchesOf(users[..n], ext) :: u in users[..n];
      var m := MatchesOf(users[..n], ext);
      forall i | 0 <= i < |m| ensures m[i].id != users[n].id {
        assert m[i] in m;
      }
    }
  }

  lemma BatchOkIffAdmits(s: Store, realm: string, users: seq<User>, records: seq<HrRecord>)
    requires Keyed(s) && Lists(s, realm, users)
    ensures BatchOk(users, records) <==> Admits(s, realm, records)
  {
    forall k | 0 <= k < |records|
      ensures Resolves(users, records[k]) <==>
                && AtMostOneTarget(s, realm, records[k].externalId)
                && (records[k].event.Leaver? ==> HasTarget(s, realm, records[k].externalId))
    {
      var ext := records[k].externalId;
      NoTarget(s, realm, users, ext);
      FewMatchesIff(s, realm, users, ext);
    }
  }

  lemma FewMatchesIff(s: Store, realm: string, users: seq<User>, ext: string)
    requires Keyed(s) && Lists(s, realm, users)
    ensures |MatchesOf(users, ext)| <= 1 <==> AtMostOneTarget(s, realm, ext)
  {
    var m := MatchesOf(users, ext);
    if |m| <= 1 {
      forall i, j | i in s && j in s && s[i].realmId == realm && s[j].realmId == realm
                    && s[i].externalId == Some(ext) && s[j].externalId == Some(ext)
        ensures i == j
      {
        OnlyTarget(s, realm, users, ext, i, j);
      }
    } else {
      MatchesAreListed(users, ext);
      MatchesDistinct(users, ext);
      assert m[0] in m && m[1] in m;
      assert m[0].id in s && m[1].id in s && m[0].id != m[1].id;
    }
  }

  ghost function ResultFor(realm: string, r: HrRecord, current: Option<User>, ids: map<string, string>,
                           now: nat): ImportResult
    requires r.externalId in ids
  {
    ImportResult(r.externalId, Planned(realm, r, current, ids, now).id, ActionFor(r, current))
  }

  ghost function ResultsUpTo(realm: string, records: seq<HrRecord>, planned: seq<Option<User>>,
                             ids: map<string, string>, now: nat, n: nat): (r: seq<ImportResult>)
    requires n <= |records| == |planned| && HasIds(records, ids)
    ensures |r| == n
  {
    if n == 0 then []
    else
      ResultsUpTo(realm, records, planned, ids, now, n - 1) +
      [ResultFor(realm, records[n - 1], planned[n - 1], ids, now)]
  }

  lemma {:induction false} ResultAt(realm: string, records: seq<HrRecord>, planned: seq<Option<User>>,
                                    ids: map<string, string>, now: nat, n: nat, i: nat)
    requires i < n <= |records| == |planned| && HasIds(records, ids)
    ensures ResultsUpTo(realm, records, planned, ids, now, n)[i] == ResultFor(realm, records[i], planned[i], ids, now)
  {
    if i < n - 1 {
      ResultAt(realm, records, planned, ids, now, n - 1, i);
    }
  }

  /** The apply loop. */
  method ApplyPlanned(repo: Repository, ghost p: Plan<User>, realm: string, records: seq<HrRecord>,
                      planned: seq<Option<User>>, ids: map<string, string>, now: nat)
    returns (results: seq<ImportResult>)
    requires DistinctRecords(records) && HasIds(records, ids) && |planned| == |records|
    requires Sound(p) && Keyed(repo.users) && Staged(p, repo.users, {})
    requires forall i {:trigger HrFits(p, realm, records[i], planned[i], ids, now)} | 0 <= i < |records| ::
               HrFits(p, realm, records[i], planned[i], ids, now)
    modifies repo
    ensures Keyed(repo.users) && Staged(p, repo.users, Exts(records))
    ensures repo.writes == old(repo.writes) + |records|
    ensures results == ResultsUpTo(realm, records, planned, ids, now, |records|)
  {
    results := [];
    for i := 0 to |records|
      invariant Keyed(repo.users) && Staged(p, repo.users, ExtsUpTo(records, i))
      invariant repo.writes == old(repo.writes) + i
      invariant results == ResultsUpTo(realm, records, planned, ids, now, i)
    {
      SeenIffOld(records, i);
      assert HrFits(p, realm, records[i], planned[i], ids, now);
      var result := ApplyOne(repo, p, ExtsUpTo(records, i), realm, records[i], planned[i], ids, now);
      results := results + [result];
    }
    ExtsOfAll(records);
  }

  /** What the importer reports for a record. */
  ghost predicate Reports(s: Store, realm: string, ids: map<string, string>, r: HrRecord, result: ImportResult) {
    && result.externalId == r.externalId
    && result.action == (if r.event.Leaver? then Deprovisioned
                         else if HasTarget(s, realm, r.externalId) then Updated else Created)
    && if HasTarget(s, realm, r.externalId)
       then result.userId in s && s[result.userId].realmId == realm && s[result.userId].externalId == Some(r.externalId)
       else r.externalId in ids && result.userId == ids[r.externalId]
  }

  lemma ResultReports(s: Store, realm: string, users: seq<User>, ids: map<string, string>, now: nat, r: HrRecord,
                      result: ImportResult)
    requires Keyed(s) && Lists(s, realm, users) && r.externalId in ids && Resolves(users, r)
    requires result == ResultFor(realm, r, Current(users, r.externalId), ids, now)
    ensures Reports(s, realm, ids, r, result)
  {
    var c := Current(users, r.externalId);
    NoTarget(s, realm, users, r.externalId);
    PlannedId(realm, r, c, ids, now);
    if c.Some? {
      MatchesAreListed(users, r.externalId);
      assert c.value in MatchesOf(users, r.externalId);
    }
  }

  ghost predicate RecordFails(users: seq<User>, records: seq<HrRecord>, e: HrError) {
    exists i :: 0 <= i < |records| && FailsAs(users, records[i], e)
  }

  /** What an error says of the batch, or of the realm's users as listed. */
  ghost predicate ImportErrorIsReal(s: Store, realm: string, records: seq<HrRecord>, e: HrError) {
    || (exists i, j :: 0 <= i < j < |records| && records[i].externalId == records[j].externalId
                       && e == DuplicateRecord(records[i].externalId))
    || exists users :: Lists(s, realm, users) && RecordFails(users, records, e)
  }

  /** The checks before any write. */
  method PreflightBatch(repo: Repository, realm: string, records: seq<HrRecord>)
    returns (r: Result<seq<Option<User>>, HrError>, users: seq<User>)
    requires Keyed(repo.users)
    ensures r.Ok? <==> Admits(repo.users, realm, records)
    ensures r.Err? ==> ImportErrorIsReal(repo.users, realm, records, r.error)
    ensures r.Ok? ==> Lists(repo.users, realm, users) && BatchOk(users, records) && |r.value| == |records|
    ensures r.Ok? ==> forall i | 0 <= i < |records| :: r.value[i] == Current(users, records[i].externalId)
  {
    users := [];
    var distinct := CheckDistinct(records);
    if distinct.Err? {
      return Err(distinct.error), users;
    }
    users := repo.ListUsers(realm);
    r := PlanRecords(users, records);
    assert r.Err? ==> RecordFails(users, records, r.error);
    BatchOkIffAdmits(repo.users, realm, users, records);
  }

  /** `import_hr_records`: a refused batch writes nothing; an accepted one
      writes each record's planned user and nothing else. */
  method ImportHrRecords(repo: Repository, realm: string, records: seq<HrRecord>, ids: map<string, string>, now: nat)
    returns (r: Result<seq<ImportResult>, HrError>)
    requires Keyed(repo.users) && FreshHrIds(repo.users, records, ids)
    modifies repo
    ensures r.Ok? <==> Admits(old(repo.users), realm, records)
    ensures r.Err? ==> repo.users == old(repo.users) && repo.writes == old(repo.writes)
    ensures r.Err? ==> ImportErrorIsReal(old(repo.users), realm, records, r.error)
    ensures r.Ok? ==> Keyed(repo.users) && Imported(old(repo.users), repo.users, realm, records, ids, now)
    ensures r.Ok? ==> repo.writes == old(repo.writes) + |records| && |r.value| == |records|
    ensures r.Ok? ==> forall i | 0 <= i < |records| :: Reports(old(repo.users), realm, ids, records[i], r.value[i])
  {
    ghost var s := repo.users;
    var planned, existing := PreflightBatch(repo, realm, records);
    if planned.Err? {
      return Err(planned.error);
    }
    ghost var p := HrPlan(s, realm, records, ids, now);
    HrPlanIsSound(s, realm, existing, records, ids, now);
    forall i | 0 <= i < |records| ensures HrFits(p, realm, records[i], planned.value[i], ids, now) {
      HrPlanFits(s, realm, existing, records, ids, now, i);
    }
    var results := ApplyPlanned(repo, p, realm, records, planned.value, ids, now);
    StagedIsImported(s, repo.users, realm, records, ids, now);
    forall i | 0 <= i < |records| ensures Reports(s, realm, ids, records[i], results[i]) {
      ResultAt(realm, records, planned.value, ids, now, |records|, i);
      ResultReports(s, realm, existing, ids, now, records[i], results[i]);
    }
    return Ok(results);
  }

  // ----- The webhook planner --------------------------------------------

  function Bucket(index: map<string, seq<User>>, ext: string): seq<User> {
    if ext in index then index[ext] else []
  }

  /** The index of users by external id. */
  method IndexByExternalId(users: seq<User>) returns (index: map<string, seq<User>>)
    ensures forall ext :: Bucket(index, ext) == MatchesOf(users, ext)
  {
    index := map[];
    for i := 0 to |users|
      invariant forall ext :: Bucket(index, ext) == MatchesOf(users[..i], ext)
    {
      assert users[..i + 1][..i] == users[..i];
      ghost var before := index;
      if users[i].externalId.Some? {
        var key := users[i].externalId.value;
        index := index[key := Bucket(index, key) + [users[i]]];
      }
      forall ext ensures Bucket(index, ext) == MatchesOf(users[..i + 1], ext) {
        assert Bucket(before, ext) == MatchesOf(users[..i], ext);
      }
    }
    assert users[..|users|] == users;
  }

  function Count(s: Summary): nat {
    s.created + s.updated + s.deprovisioned
  }

  function Tally(s: Summary, a: Action): Summary {
    match a
    case Created => s.(created := s.created + 1)
    case Updated => s.(updated := s.updated + 1)
    case Deprovisioned => s.(deprovisioned := s.deprovisioned + 1)
  }

  /** One record of the webhook plan, from the users the index gives for it. */
  method PlanOne(ghost users: seq<User>, targets: seq<User>, realm: string, r: HrRecord, ids: map<string, string>,
                 now: nat)
    returns (change: Option<Change>, action: Action)
    requires r.externalId in ids && targets == MatchesOf(users, r.externalId)
    ensures change.Some? <==> Resolves(users, r)
    ensures change.Some? ==> change.value == ChangeFor(users, realm, r, ids, now)
    ensures change.Some? ==> action == ActionFor(r, change.value.expected)
  {
    action := Created;
    if |targets| > 1 {
      return None, action;
    }
    var expected := if targets == [] then None else Some(targets[0]);
    if r.event.Leaver? && expected.None? {
      return None, action;
    }
    var user := if expected.Some? then expected.value else UserFromHrRecord(ids[r.externalId], realm, r);
    if r.event.Leaver? {
      return Some(Change(expected, ApplyLeaver(user, r, now))), Deprovisioned;
    }
    if expected.None? {
      ApplyHrRecordIdempotent(BlankHrUser(ids[r.externalId], realm, r), r);
    }
    return Some(Change(expected, ApplyHrRecord(user, r))), if expected.Some? then Updated else Created;
  }

  /** The changes the first `n` records ask for. */
  ghost function ChangesUpTo(users: seq<User>, realm: string, records: seq<HrRecord>, ids: map<string, string>,
                             now: nat, n: nat): (r: seq<Change>)
    requires n <= |records| && HasIds(records, ids)
    ensures |r| == n
  {
    if n == 0 then []
    else ChangesUpTo(users, realm, records, ids, now, n - 1) + [ChangeFor(users, realm, records[n - 1], ids, now)]
  }

  lemma {:induction false} ChangeAt(users: seq<User>, realm: string, records: seq<HrRecord>, ids: map<string, string>,
                                    now: nat, n: nat, i: nat)
    requires i < n <= |records| && HasIds(records, ids)
    ensures ChangesUpTo(users, realm, records, ids, now, n)[i] == ChangeFor(users, realm, records[i], ids, now)
  {
    if i < n - 1 {
      ChangeAt(users, realm, records, ids, now, n - 1, i);
    }
  }

  predicate NewRecord(records: seq<HrRecord>, i: nat)
    requires i < |records|
  {
    forall k | 0 <= k < i :: records[k].externalId != records[i].externalId
  }

  ghost predicate OkUpTo(users: seq<User>, records: seq<HrRecord>, n: nat)
    requires n <= |records|
  {
    n == 0 || (OkUpTo(users, records, n - 1) && NewRecord(records, n - 1) && Resolves(users, records[n - 1]))
  }

  lemma {:induction false} OkUpToIsBatchOk(users: seq<User>, records: seq<HrRecord>, n: nat)
    requires n <= |records| && OkUpTo(users, records, n)
    ensures forall i | 0 <= i < n :: NewRecord(records, i) && Resolves(users, records[i])
    ensures n == |records| ==> BatchOk(users, records)
  {
    if n > 0 {
      OkUpToIsBatchOk(users, records, n - 1);
    }
  }

  lemma NotBatchOk(users: seq<User>, records: seq<HrRecord>, i: nat)
    requires i < |records| && (!NewRecord(records, i) || !Resolves(users, records[i]))
    ensures !BatchOk(users, records)
  {
  }

  /** How many of the first `n` records are of leavers. */
  ghost function Leavers(records: seq<HrRecord>, n: nat): nat
    requires n <= |records|
  {
    if n == 0 then 0 else Leavers(records, n - 1) + if records[n - 1].event.Leaver? then 1 else 0
  }

  /** How many are of people who stay and already have a user. */
  ghost function Known(users: seq<User>, records: seq<HrRecord>, n: nat): nat
    requires n <= |records|
  {
    if n == 0 then 0
    else
      Known(users, records, n - 1) +
      if !records[n - 1].event.Leaver? && MatchesOf(users, records[n - 1].externalId) != [] then 1 else 0
  }

  /** How many are of people without a user. */
  ghost function Unknown(users: seq<User>, records: seq<HrRecord>, n: nat): nat
    requires n <= |records|
  {
    if n == 0 then 0
    else Unknown(users, records, n - 1) + if MatchesOf(users, records[n - 1].externalId) == [] then 1 else 0
  }

  ghost predicate Counted(users: seq<User>, records: seq<HrRecord>, n: nat, summary: Summary)
    requires n <= |records|
  {
    && summary.deprovisioned == Leavers(records, n)
    && summary.updated == Known(users, records, n)
    && summary.created == Unknown(users, records, n)
  }

  lemma CountedStep(users: seq<User>, records: seq<HrRecord>, n: nat, summary: Summary)
    requires n < |records| && Counted(users, records, n, summary) && Resolves(users, records[n])
    ensures Counted(users, records, n + 1,
                    Tally(summary, ActionFor(records[n], Current(users, records[n].externalId))))
  {
  }

  /** The planning loop of `import_hr_webhook`, which stops at the first record
      that repeats an external id or does not resolve. */
  method PlanPrefix(users: seq<User>, index: map<string, seq<User>>, realm: string, records: seq<HrRecord>,
                    ids: map<string, string>, now: nat)
    returns (n: nat, planned: seq<Change>, summary: Summary)
    requires HasIds(records, ids) && forall ext :: Bucket(index, ext) == MatchesOf(users, ext)
    ensures n <= |records| && OkUpTo(users, records, n) && Count(summary) == n
    ensures Counted(users, records, n, summary)
    ensures planned == ChangesUpTo(users, realm, records, ids, now, n)
    ensures n < |records| ==> !NewRecord(records, n) || !Resolves(users, records[n])
  {
    planned, summary, n := [], Summary(0, 0, 0), 0;
    var seen: set<string> := {};
    while n < |records|
      invariant n <= |records| && seen == ExtsUpTo(records, n)
      invariant OkUpTo(users, records, n) && Count(summary) == n
      invariant Counted(users, records, n, summary)
      invariant planned == ChangesUpTo(users, realm, records, ids, now, n)
    {
      var r := records[n];
      SeenIffOld(records, n);
      if r.externalId in seen {
        return;
      }
      var change, action := PlanOne(users, Bucket(index, r.externalId), realm, r, ids, now);
      if change.None? {
        return;
      }
      seen := seen + {r.externalId};
      CountedStep(users, records, n, summary);
      summary := Tally(summary, action);
      planned := planned + [change.value];
      n := n + 1;
    }
  }

  lemma PlannedAllIff(users: seq<User>, records: seq<HrRecord>, n: nat)
    requires n <= |records| && OkUpTo(users, records, n)
    requires n < |records| ==> !NewRecord(records, n) || !Resolves(users, records[n])
    ensures BatchOk(users, records) <==> n == |records|
  {
    if n < |records| {
      NotBatchOk(users, records, n);
    } else {
      OkUpToIsBatchOk(users, records, n);
    }
  }

  /** The webhook plan: changes exactly for the batches the importer accepts,
      one per record, and counters that say how many leavers, known people and
      new people there are. */
  method PlanWebhook(users: seq<User>, realm: string, records: seq<HrRecord>, ids: map<string, string>, now: nat)
    returns (changes: Option<seq<Change>>, summary: Summary)
    requires HasIds(records, ids)
    ensures changes.Some? <==> BatchOk(users, records)
    ensures changes.Some? ==>
              && |changes.value| == |records| == Count(summary)
              && changes.value == ChangesUpTo(users, realm, records, ids, now, |records|)
              && Counted(users, records, |records|, summary)
  {
    var index := IndexByExternalId(users);
    var n, planned, counted := PlanPrefix(users, index, realm, records, ids, now);
    summary, changes := counted, if n < |records| then None else Some(planned);
    PlannedAllIff(users, records, n);
  }

  // ----- The two agree --------------------------------------------------

  /** For every table and batch, the planner yields changes exactly when the
      importer accepts, each planned user is the one the importer stores, and
      the importer changes no user that no change plans. */
  lemma PlannersAgree(s: Store, t: Store, realm: string, users: seq<User>, records: seq<HrRecord>,
                      ids: map<string, string>, now: nat)
    requires Keyed(s) && Lists(s, realm, users) && FreshHrIds(s, records, ids)
    requires BatchOk(users, records) && Imported(s, t, realm, records, ids, now)
    ensures Admits(s, realm, records)
    ensures forall i | 0 <= i < |records| ::
              var c := ChangeFor(users, realm, records[i], ids, now);
              c.user.id in t && t[c.user.id] == c.user
    ensures forall id |
              && id in t
              && (forall i | 0 <= i < |records| :: ChangeFor(users, realm, records[i], ids, now).user.id != id) ::
              id in s && t[id] == s[id]
  {
    BatchOkIffAdmits(s, realm, users, records);
    forall i | 0 <= i < |records|
      ensures var c := ChangeFor(users, realm, records[i], ids, now); c.user.id in t && t[c.user.id] == c.user
    {
      PlannedIsStored(s, t, realm, users, records, ids, now, i);
    }
    forall id |
      && id in t
      && (forall i | 0 <= i < |records| :: ChangeFor(users, realm, records[i], ids, now).user.id != id)
      ensures id in s && t[id] == s[id]
    {
      UnplannedIsKept(s, t, realm, users, records, ids, now, id);
    }
  }

  lemma PlannedIsStored(s: Store, t: Store, realm: string, users: seq<User>, records: seq<HrRecord>,
                        ids: map<string, string>, now: nat, i: nat)
    requires Keyed(s) && Lists(s, realm, users) && FreshHrIds(s, records, ids) && i < |records|
    requires BatchOk(users, records) && Imported(s, t, realm, records, ids, now)
    ensures var c := ChangeFor(users, realm, records[i], ids, now);
            && c.user.id == (if c.expected.Some? then c.expected.value.id else ids[records[i].externalId])
            && c.user.id in t && t[c.user.id] == c.user
  {
    var r := records[i];
    var c := ChangeFor(users, realm, r, ids, now);
    RecordForUnique(records, i);
    NoTarget(s, realm, users, r.externalId);
    PlannedId(realm, r, c.expected, ids, now);
    if HasTarget(s, realm, r.externalId) {
      var id :| id in s && s[id].realmId == realm && s[id].externalId == Some(r.externalId);
      OnlyTarget(s, realm, users, r.externalId, id, id);
      assert t[id] == HrReconcile(s[id], realm, records, now);
    } else {
      assert r in records;
    }
  }

  lemma UnplannedIsKept(s: Store, t: Store, realm: string, users: seq<User>, records: seq<HrRecord>,
                        ids: map<string, string>, now: nat, id: string)
    requires Keyed(s) && Lists(s, realm, users) && FreshHrIds(s, records, ids)
    requires BatchOk(users, records) && Imported(s, t, realm, records, ids, now) && id in t
    requires forall i | 0 <= i < |records| :: ChangeFor(users, realm, records[i], ids, now).user.id != id
    ensures id in s && t[id] == s[id]
  {
    if id in s && Targeted(s[id], realm, records) {
      var r := RecordFor(records, s[id].externalId.value).value;
      var i :| 0 <= i < |records| && records[i] == r;
      PlannedIsStored(s, t, realm, users, records, ids, now, i);
      OnlyTarget(s, realm, users, r.externalId, id, id);
    }
    if id !in s {
      assert IsNewHrId(s, realm, records, ids, id);
      var r :| r in records && !HasTarget(s, realm, r.externalId) && r.externalId in ids && id == ids[r.externalId];
      var i :| 0 <= i < |records| && records[i] == r;
      PlannedIsStored(s, t, realm, users, records, ids, now, i);
      NoTarget(s, realm, users, r.externalId);
    }
  }

  lemma SameElements<T>(a: seq<T>, b: seq<T>)
    requires multiset(a) == multiset(b)
    ensures forall x :: x in a <==> x in b
  {
    assert forall x :: x in a <==> x in multiset(a);
    assert forall x :: x in b <==> x in multiset(b);
  }

  /** The table a batch makes does not depend on the order of its records. */
  lemma OrderDoesNotMatter(s: Store, t: Store, u: Store, realm: string, records: seq<HrRecord>, shuffled: seq<HrRecord>,
                           ids: map<string, string>, now: nat)
    requires DistinctRecords(records) && multiset(records) == multiset(shuffled)
    requires Imported(s, t, realm, records, ids, now) && Imported(s, u, realm, shuffled, ids, now)
    ensures t == u
  {
    SameElements(records, shuffled);
    SameRecords(records, shuffled);
    KeptInAll(s, t, u, realm, records, shuffled, ids, now);
    KeptInAll(s, u, t, realm, shuffled, records, ids, now);
  }

  lemma SameRecords(records: seq<HrRecord>, shuffled: seq<HrRecord>)
    requires DistinctRecords(records) && forall r :: r in records <==> r in shuffled
    ensures forall ext :: RecordFor(records, ext) == RecordFor(shuffled, ext)
  {
    forall ext ensures RecordFor(records, ext) == RecordFor(shuffled, ext) {
      SameRecordFor(records, shuffled, ext);
    }
  }

  lemma KeptInAll(s: Store, t: Store, u: Store, realm: string, records: seq<HrRecord>, shuffled: seq<HrRecord>,
                  ids: map<string, string>, now: nat)
    requires forall r :: r in records <==> r in shuffled
    requires forall ext :: RecordFor(records, ext) == RecordFor(shuffled, ext)
    requires Imported(s, t, realm, records, ids, now) && Imported(s, u, realm, shuffled, ids, now)
    ensures forall id | id in t :: id in u && u[id] == t[id]
  {
    forall id | id in t ensures id in u && u[id] == t[id] {
      KeptInBoth(s, t, u, realm, records, shuffled, ids, now, id);
    }
  }

  lemma KeptInBoth(s: Store, t: Store, u: Store, realm: string, records: seq<HrRecord>, shuffled: seq<HrRecord>,
                   ids: map<string, string>, now: nat, id: string)
    requires forall r :: r in records <==> r in shuffled
    requires forall ext :: RecordFor(records, ext) == RecordFor(shuffled, ext)
    requires Imported(s, t, realm, records, ids, now) && Imported(s, u, realm, shuffled, ids, now) && id in t
    ensures id in u && u[id] == t[id]
  {
    if id !in s {
      assert IsNewHrId(s, realm, records, ids, id);
    }
  }

  lemma SameRecordFor(records: seq<HrRecord>, shuffled: seq<HrRecord>, ext: string)
    requires DistinctRecords(records) && forall r :: r in records <==> r in shuffled
    ensures RecordFor(records, ext) == RecordFor(shuffled, ext)
  {
    var a, b := RecordFor(records, ext), RecordFor(shuffled, ext);
    if a.Some? {
      var j :| 0 <= j < |shuffled| && shuffled[j] == a.value;
    }
    if b.Some? {
      var i :| 0 <= i < |records| && records[i] == b.value;
      RecordForUnique(records, i);
    }
  }
}
