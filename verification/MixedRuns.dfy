/** The audit's verdicts over runs that mix directory syncs and HR imports. */
module MixedRuns {
  import opened Wrappers
  import opened Directory
  import opened HrImport
  import opened HrProjection
  import opened LdapSync
  import opened Lifecycle
  import opened Numbers
  import opened SlaAudit
  import opened SyncTheorems
  import Text

  /** One HR batch: its realm and records, the new ids and the clock. */
  datatype Batch = Batch(realm: string, records: seq<HrRecord>, ids: map<string, string>, now: nat)

  datatype Work = Sync(call: Call) | Import(batch: Batch)

  ghost predicate WorkStep(s: Store, t: Store, w: Work) {
    match w
    case Sync(c) => CallStep(s, t, c)
    case Import(b) =>
      && FreshHrIds(s, b.records, b.ids)
      && if Admits(s, b.realm, b.records) then Imported(s, t, b.realm, b.records, b.ids, b.now) else t == s
  }

  ghost predicate WorkAt(states: seq<Store>, work: seq<Work>, i: nat)
    requires |states| == |work| + 1 && i < |work|
  {
    WorkStep(states[i], states[i + 1], work[i])
  }

  ghost predicate IsMixedRun(states: seq<Store>, work: seq<Work>) {
    && |states| == |work| + 1
    && forall i {:trigger WorkAt(states, work, i)} | 0 <= i < |work| :: WorkAt(states, work, i)
  }

  // ----- What a piece of work does to one user --------------------------

  /** An enabled entry, or a joiner or mover record, makes the user active. */
  ghost predicate Reactivates(s: Store, w: Work, u: User) {
    match w
    case Sync(c) => Reenables(s, c, u)
    case Import(b) =>
      && Admits(s, b.realm, b.records) && Targeted(u, b.realm, b.records)
      && !RecordFor(b.records, u.externalId.value).value.event.Leaver?
  }

  /** A leaver record stamps the user anew. */
  ghost predicate Restamps(s: Store, w: Work, u: User) {
    && w.Import? && Admits(s, w.batch.realm, w.batch.records) && Targeted(u, w.batch.realm, w.batch.records)
    && RecordFor(w.batch.records, u.externalId.value).value.event.Leaver?
  }

  /** A leaver record leaves a user in time exactly when it comes in time. */
  lemma LeaverInTimeIff(u: User, r: HrRecord, now: nat, e: Event, sla: nat)
    requires r.event.Leaver?
    ensures InTime(ApplyLeaver(u, r, now), e, sla) <==> now <= SaturatingAdd(e.occurredAt, sla)
  {
    ApplyLeaverProjects(u, r, now);
  }

  lemma HrReconcileKeepsKey(u: User, realm: string, records: seq<HrRecord>, now: nat)
    ensures SameKey(HrReconcile(u, realm, records, now), u)
  {
    if Targeted(u, realm, records) {
      var r := RecordFor(records, u.externalId.value).value;
      if r.event.Leaver? {
        ApplyLeaverProjects(u, r, now);
      } else {
        ApplyHrRecordProjects(u, r);
      }
    }
  }

  lemma ImportMoves(s: Store, t: Store, b: Batch, id: string)
    requires WorkStep(s, t, Import(b)) && id in s && !s[id].active && s[id].deprovisionedAt.Some?
    requires !Reactivates(s, Import(b), s[id])
    ensures id in t && SameKey(t[id], s[id]) && !t[id].active
    ensures t[id].deprovisionedAt == if Restamps(s, Import(b), s[id]) then Some(b.now) else s[id].deprovisionedAt
  {
    if Admits(s, b.realm, b.records) {
      assert t[id] == HrReconcile(s[id], b.realm, b.records, b.now);
      HrReconcileKeepsKey(s[id], b.realm, b.records, b.now);
      if Targeted(s[id], b.realm, b.records) {
        ApplyLeaverProjects(s[id], RecordFor(b.records, s[id].externalId.value).value, b.now);
      }
    }
  }

  /** Work that does not reactivate a deprovisioned user keeps its stamp or, for a
      leaver record, replaces it. */
  lemma WorkMoves(s: Store, t: Store, w: Work, id: string)
    requires WorkStep(s, t, w) && id in s && !s[id].active && s[id].deprovisionedAt.Some?
    requires !Reactivates(s, w, s[id])
    ensures id in t && SameKey(t[id], s[id]) && !t[id].active
    ensures t[id].deprovisionedAt == if Restamps(s, w, s[id]) then Some(w.batch.now) else s[id].deprovisionedAt
  {
    match w
    case Sync(c) => DeprovisionedStays(s, t, c, id);
    case Import(b) => ImportMoves(s, t, b, id);
  }

  // ----- Which user an event refers to ----------------------------------

  /** A new HR user has no owner and an external id nobody in the realm had. */
  lemma NewHrUser(s: Store, t: Store, b: Batch, k: string)
    requires WorkStep(s, t, Import(b)) && Admits(s, b.realm, b.records) && k in t && k !in s
    ensures t[k].realmId == b.realm && t[k].externalId.Some? && !HasTarget(s, b.realm, t[k].externalId.value)
  {
    assert IsNewHrId(s, b.realm, b.records, b.ids, k);
    var r :| r in b.records && !HasTarget(s, b.realm, r.externalId)
             && r.externalId in b.ids && k == b.ids[r.externalId];
    ApplyHrRecordProjects(BlankHrUser(k, b.realm, r), r);
  }

  /** No import adds a user an event could mean, or takes the one it means. */
  lemma ImportKeepsReference(s: Store, t: Store, b: Batch, realm: string, e: Event, id: string)
    requires WorkStep(s, t, Import(b)) && RefersTo(s, realm, e, id)
    ensures RefersTo(t, realm, e, id)
  {
    if Admits(s, b.realm, b.records) {
      assert t[id] == HrReconcile(s[id], b.realm, b.records, b.now);
      HrReconcileKeepsKey(s[id], b.realm, b.records, b.now);
      forall k | k in t && t[k].realmId == realm && Matches(t[k], e)
        ensures k == id
      {
        if k in s {
          HrReconcileKeepsKey(s[k], b.realm, b.records, b.now);
        } else {
          NewHrUser(s, t, b, k);
        }
      }
    }
  }

  /** A sync of another provider takes the id of an event without a provider. */
  ghost predicate TakenBy(s: Store, w: Work, realm: string, e: Event, owner: Option<string>) {
    e.providerId.None? && w.Sync? && TakesId(s, w.call, realm, e, owner)
  }

  lemma WorkKeepsUser(s: Store, t: Store, w: Work, k: string)
    requires WorkStep(s, t, w) && k in s
    ensures k in t && SameKey(t[k], s[k])
  {
    match w
    case Sync(c) =>
      if Accepts(s, c.snap) {
        assert t[k] == Reconcile(s[k], c.snap);
        ReconcileKeepsKey(s[k], c.snap);
      }
    case Import(b) =>
      if Admits(s, b.realm, b.records) {
        HrReconcileKeepsKey(s[k], b.realm, b.records, b.now);
      }
  }

  lemma HolderIsReferredTo(s: Store, realm: string, e: Event, id: string)
    requires e.providerId.None?
    ensures RefersTo(s, realm, e, id) <==> OnlyHolder(s, realm, e, id)
  {
  }

  lemma WorkKeepsReference(s: Store, t: Store, w: Work, realm: string, e: Event, id: string)
    requires WorkStep(s, t, w) && RefersTo(s, realm, e, id)
    ensures RefersTo(t, realm, e, id) <==> !TakenBy(s, w, realm, e, s[id].directoryProviderId)
  {
    WorkKeepsUser(s, t, w, id);
    match w
    case Import(b) => ImportKeepsReference(s, t, b, realm, e, id);
    case Sync(c) =>
      if e.providerId.Some? {
        StillTheOnlyOne(s, t, c, realm, e, id);
      } else {
        OnlyHolderStep(s, t, c, realm, e, id);
        HolderIsReferredTo(s, realm, e, id);
        HolderIsReferredTo(t, realm, e, id);
      }
  }

  /** An ambiguous event stays ambiguous. */
  lemma AmbiguityStays(s: Store, t: Store, w: Work, realm: string, e: Event, id: string)
    requires WorkStep(s, t, w) && id in s && s[id].realmId == realm && Matches(s[id], e) && !RefersTo(s, realm, e, id)
    ensures !RefersTo(t, realm, e, id)
  {
    var k :| k in s && s[k].realmId == realm && Matches(s[k], e) && k != id;
    WorkKeepsUser(s, t, w, k);
  }

  // ----- Whole runs -----------------------------------------------------

  ghost predicate NeverReactivated(states: seq<Store>, work: seq<Work>, m: nat, n: nat, u: User)
    requires |states| == |work| + 1 && m <= n <= |work|
  {
    forall i | m <= i < n :: !Reactivates(states[i], work[i], u)
  }

  ghost predicate NeverTakenInRun(states: seq<Store>, work: seq<Work>, m: nat, n: nat, realm: string, e: Event,
                                  owner: Option<string>)
    requires |states| == |work| + 1 && m <= n <= |work|
  {
    forall i | m <= i < n :: !TakenBy(states[i], work[i], realm, e, owner)
  }

  /** When the last leaver record for the user was imported, if any was. */
  ghost function LastRestamp(states: seq<Store>, work: seq<Work>, m: nat, n: nat, u: User): Option<nat>
    requires |states| == |work| + 1 && m <= n <= |work|
    decreases n
  {
    if m == n then None
    else if Restamps(states[n - 1], work[n - 1], u) then Some(work[n - 1].batch.now)
    else LastRestamp(states, work, m, n - 1, u)
  }

  lemma SameKeySameWork(s: Store, w: Work, u: User, v: User)
    requires SameKey(u, v)
    ensures Reactivates(s, w, u) == Reactivates(s, w, v) && Restamps(s, w, u) == Restamps(s, w, v)
  {
  }

  lemma WorkMovesAt(states: seq<Store>, work: seq<Work>, i: nat, id: string, u: User)
    requires IsMixedRun(states, work) && i < |work| && id in states[i] && SameKey(states[i][id], u)
    requires !states[i][id].active && states[i][id].deprovisionedAt.Some? && !Reactivates(states[i], work[i], u)
    ensures id in states[i + 1] && SameKey(states[i + 1][id], u) && !states[i + 1][id].active
    ensures states[i + 1][id].deprovisionedAt
         == if Restamps(states[i], work[i], u) then Some(work[i].batch.now) else states[i][id].deprovisionedAt
  {
    assert WorkAt(states, work, i);
    SameKeySameWork(states[i], work[i], states[i][id], u);
    WorkMoves(states[i], states[i + 1], work[i], id);
  }

  lemma {:induction false} StampOverRun(states: seq<Store>, work: seq<Work>, m: nat, n: nat, id: string, u: User)
    requires IsMixedRun(states, work) && m <= n <= |work| && id in states[m] && u == states[m][id]
    requires !u.active && u.deprovisionedAt.Some? && NeverReactivated(states, work, m, n, u)
    ensures id in states[n] && SameKey(states[n][id], u) && !states[n][id].active
    ensures states[n][id].deprovisionedAt
         == if LastRestamp(states, work, m, n, u).Some? then LastRestamp(states, work, m, n, u) else u.deprovisionedAt
    decreases n
  {
    if m < n {
      assert !Reactivates(states[n - 1], work[n - 1], u);
      StampOverRun(states, work, m, n - 1, id, u);
      WorkMovesAt(states, work, n - 1, id, u);
    }
  }

  lemma ReferenceAt(states: seq<Store>, work: seq<Work>, i: nat, realm: string, e: Event, id: string, u: User)
    requires IsMixedRun(states, work) && i < |work| && id in states[i] && SameKey(states[i][id], u)
    requires u.realmId == realm && Matches(u, e)
    ensures RefersTo(states[i + 1], realm, e, id) <==>
              RefersTo(states[i], realm, e, id) && !TakenBy(states[i], work[i], realm, e, u.directoryProviderId)
  {
    assert WorkAt(states, work, i);
    if RefersTo(states[i], realm, e, id) {
      WorkKeepsReference(states[i], states[i + 1], work[i], realm, e, id);
    } else {
      AmbiguityStays(states[i], states[i + 1], work[i], realm, e, id);
    }
  }

  lemma {:induction false} ReferenceOverRun(states: seq<Store>, work: seq<Work>, m: nat, n: nat, realm: string,
                                            e: Event, id: string, u: User)
    requires IsMixedRun(states, work) && m <= n <= |work| && RefersTo(states[m], realm, e, id) && u == states[m][id]
    ensures id in states[n] && SameKey(states[n][id], u)
    ensures RefersTo(states[n], realm, e, id) <==> NeverTakenInRun(states, work, m, n, realm, e, u.directoryProviderId)
    decreases n
  {
    if m < n {
      ReferenceOverRun(states, work, m, n - 1, realm, e, id, u);
      ReferenceAt(states, work, n - 1, realm, e, id, u);
      KeyAt(states, work, n - 1, id);
      NeverTakenInRunSnoc(states, work, m, n, realm, e, u.directoryProviderId);
    }
  }

  lemma KeyAt(states: seq<Store>, work: seq<Work>, i: nat, id: string)
    requires IsMixedRun(states, work) && i < |work| && id in states[i]
    ensures id in states[i + 1] && SameKey(states[i + 1][id], states[i][id])
  {
    assert WorkAt(states, work, i);
    WorkKeepsUser(states[i], states[i + 1], work[i], id);
  }

  lemma NeverTakenInRunSnoc(states: seq<Store>, work: seq<Work>, m: nat, n: nat, realm: string, e: Event,
                            owner: Option<string>)
    requires |states| == |work| + 1 && m < n <= |work|
    ensures NeverTakenInRun(states, work, m, n, realm, e, owner) <==>
              NeverTakenInRun(states, work, m, n - 1, realm, e, owner) &&
              !TakenBy(states[n - 1], work[n - 1], realm, e, owner)
  {
  }

  /** Over every run of syncs and imports that does not reactivate the user, Met
      stays Met exactly when the last leaver record, if there was one, came in
      time, and, for an event without a provider, no sync of another provider
      brought its external id into the realm. */
  lemma MetOverMixedRunIff(states: seq<Store>, work: seq<Work>, m: nat, n: nat, realm: string, e: Event, sla: nat,
                           id: string)
    requires IsMixedRun(states, work) && m <= n <= |work| && AnswersMet(states[m], realm, e, sla, id)
    requires NeverReactivated(states, work, m, n, states[m][id])
    ensures var u := states[m][id];
            var last := LastRestamp(states, work, m, n, u);
            (exists k :: AnswersMet(states[n], realm, e, sla, k)) <==>
              && (last.Some? ==> last.value <= SaturatingAdd(e.occurredAt, sla))
              && NeverTakenInRun(states, work, m, n, realm, e, u.directoryProviderId)
  {
    var u := states[m][id];
    StampOverRun(states, work, m, n, id, u);
    ReferenceOverRun(states, work, m, n, realm, e, id, u);
    MetIsAboutTheHolder(states[n], realm, e, sla, id);
  }

  lemma MetIsAboutTheHolder(s: Store, realm: string, e: Event, sla: nat, id: string)
    requires id in s && s[id].realmId == realm && Matches(s[id], e)
    requires e.providerId.Some? ==> !Text.IsBlank(e.providerId.value)
    ensures (exists k :: AnswersMet(s, realm, e, sla, k)) <==> RefersTo(s, realm, e, id) && InTime(s[id], e, sla)
  {
    if RefersTo(s, realm, e, id) && InTime(s[id], e, sla) {
      assert AnswersMet(s, realm, e, sla, id);
    }
  }

  // ----- A late leaver record -------------------------------------------

  function LateRecord(): HrRecord {
    HrRecord("d", "x", None, None, None, None, HrProjection.Leaver)
  }

  lemma LateImportSteps(at: nat, late: nat)
    ensures WorkStep(map["1" := SlaAudit.Leaver(at)], map["1" := ApplyLeaver(SlaAudit.Leaver(at), LateRecord(), late)],
                     Import(Batch("r", [LateRecord()], map["d" := "2"], late)))
  {
    var s: Store := map["1" := SlaAudit.Leaver(at)];
    var records := [LateRecord()];
    assert RecordFor(records, "d") == Some(LateRecord());
    assert "1" in s && s["1"].realmId == "r" && s["1"].externalId == Some("d");
    assert HasTarget(s, "r", "d");
    assert Admits(s, "r", records);
  }

  /** Importing a leaver again after the deadline turns Met into a violation,
      without the user having been active in between. */
  lemma LateLeaverLosesMet(at: nat, late: nat) returns (t: Store, w: Work)
    requires at < late && at <= U64_MAX
    ensures var s: Store := map["1" := SlaAudit.Leaver(at)];
            var e := Event("d", at, Some("p"));
            && WorkStep(s, t, w) && !Reactivates(s, w, SlaAudit.Leaver(at))
            && AnswersMet(s, "r", e, 0, "1") && !exists k :: AnswersMet(t, "r", e, 0, k)
  {
    var s: Store := map["1" := SlaAudit.Leaver(at)];
    var e := Event("d", at, Some("p"));
    t := map["1" := ApplyLeaver(SlaAudit.Leaver(at), LateRecord(), late)];
    w := Import(Batch("r", [LateRecord()], map["d" := "2"], late));
    LateImportSteps(at, late);
    assert RecordFor([LateRecord()], "d") == Some(LateRecord());
    assert !Text.IsBlank("p");
    ApplyLeaverProjects(SlaAudit.Leaver(at), LateRecord(), late);
    MetIsAboutTheHolder(t, "r", e, 0, "1");
  }
}
