/** The deprovisioning deadline audit, and how its verdicts fare as syncs run. */
module SlaAudit {
  import opened Wrappers
  import opened Directory
  import opened LdapSync
  import opened SyncTheorems
  import opened Lifecycle
  import opened Numbers
  import Text

  datatype Event = Event(externalId: string, occurredAt: nat, providerId: Option<string>)

  datatype Status = Met | Pending | Violated | MissingUser

  datatype Finding = Finding(
    externalId: string,
    userId: Option<string>,
    dueAt: nat,
    deprovisionedAt: Option<nat>,
    status: Status)

  datatype AuditError = BlankProviderId | Ambiguous

  predicate Matches(u: User, e: Event) {
    u.externalId == Some(e.externalId) && (e.providerId.Some? ==> u.directoryProviderId == e.providerId)
  }

  function Candidates(users: seq<User>, e: Event): seq<User> {
    if users == [] then []
    else (if Matches(users[0], e) then [users[0]] else []) + Candidates(users[1..], e)
  }

  function FindDeprovisionUser(users: seq<User>, e: Event): Result<Option<User>, AuditError> {
    var found := Candidates(users, e);
    if e.providerId.Some? && Text.IsBlank(e.providerId.value) then Err(BlankProviderId)
    else if |found| > 1 then Err(Ambiguous)
    else if |found| == 1 then Ok(Some(found[0]))
    else Ok(None)
  }

  function StatusOf(u: User, dueAt: nat, now: nat): Status {
    if u.active && now <= dueAt then Pending
    else if u.active then Violated
    else if u.deprovisionedAt.Some? && u.deprovisionedAt.value <= dueAt then Met
    else Violated
  }

  function FindingFor(users: seq<User>, e: Event, sla: nat, now: nat): Result<Finding, AuditError> {
    var dueAt := SaturatingAdd(e.occurredAt, sla);
    var user :- FindDeprovisionUser(users, e);
    match user
    case Some(u) => Ok(Finding(e.externalId, Some(u.id), dueAt, u.deprovisionedAt, StatusOf(u, dueAt, now)))
    case None => Ok(Finding(e.externalId, None, dueAt, None, MissingUser))
  }

  /** `audit_deprovision_sla`: one finding per event in order, or the error of
      the first event that has one. */
  method AuditDeprovisionSla(users: seq<User>, events: seq<Event>, sla: nat, now: nat)
    returns (r: Result<seq<Finding>, AuditError>)
    ensures r.Ok? ==> |r.value| == |events|
                      && forall i | 0 <= i < |events| :: FindingFor(users, events[i], sla, now) == Ok(r.value[i])
    ensures r.Err? ==> exists i :: 0 <= i < |events| && FindingFor(users, events[i], sla, now) == Err(r.error)
                                   && forall k | 0 <= k < i :: FindingFor(users, events[k], sla, now).Ok?
  {
    var findings: seq<Finding> := [];
    for i := 0 to |events|
      invariant |findings| == i
      invariant forall k | 0 <= k < i :: FindingFor(users, events[k], sla, now) == Ok(findings[k])
    {
      var finding := FindingFor(users, events[i], sla, now);
      if finding.Err? {
        return Err(finding.error);
      }
      findings := findings + [finding.value];
    }
    return Ok(findings);
  }

  // ----- Who an event refers to -----------------------------------------

  /** The only realm user an event can mean. */
  ghost predicate RefersTo(s: Store, realm: string, e: Event, id: string) {
    && id in s && s[id].realmId == realm && Matches(s[id], e)
    && forall k | k in s && s[k].realmId == realm && Matches(s[k], e) :: k == id
  }

  lemma {:induction false} CandidatesAreMatches(users: seq<User>, e: Event)
    ensures forall u :: u in Candidates(users, e) <==> u in users && Matches(u, e)
  {
    if users != [] {
      CandidatesAreMatches(users[1..], e);
      assert forall u :: u in users <==> u == users[0] || u in users[1..];
    }
  }

  lemma {:induction false} NoCandidates(users: seq<User>, e: Event)
    requires forall u | u in users :: !Matches(u, e)
    ensures Candidates(users, e) == []
  {
    if users != [] {
      NoCandidates(users[1..], e);
    }
  }

  lemma {:induction false} OneCandidate(users: seq<User>, e: Event, i: nat)
    requires i < |users| && Matches(users[i], e)
    requires forall j | 0 <= j < |users| && j != i :: !Matches(users[j], e)
    ensures Candidates(users, e) == [users[i]]
  {
    if i == 0 {
      NoCandidates(users[1..], e);
    } else {
      OneCandidate(users[1..], e, i - 1);
    }
  }

  /** A single candidate is found exactly when one realm user matches. */
  lemma FoundIffRefersTo(s: Store, realm: string, users: seq<User>, e: Event, id: string)
    requires Keyed(s) && Lists(s, realm, users) && id in s
    ensures Candidates(users, e) == [s[id]] <==> RefersTo(s, realm, e, id)
  {
    if RefersTo(s, realm, e, id) {
      assert s[id] in users;
      var i :| 0 <= i < |users| && users[i] == s[id];
      forall j | 0 <= j < |users| && j != i ensures !Matches(users[j], e) {
        assert users[j] in users;
      }
      OneCandidate(users, e, i);
    }
    if Candidates(users, e) == [s[id]] {
      CandidatesAreMatches(users, e);
      assert s[id] in Candidates(users, e);
      forall k | k in s && s[k].realmId == realm && Matches(s[k], e) ensures k == id {
        assert s[k] in users;
        assert s[k] in Candidates(users, e);
      }
    }
  }

  /** The event leaves its provider out or names one. */
  predicate NamesProvider(e: Event) {
    e.providerId.Some? ==> !Text.IsBlank(e.providerId.value)
  }

  /** The audit answers Met for an event about this user. */
  ghost predicate AnswersMet(s: Store, realm: string, e: Event, sla: nat, id: string) {
    && NamesProvider(e)
    && RefersTo(s, realm, e, id)
    && InTime(s[id], e, sla)
  }

  predicate InTime(u: User, e: Event, sla: nat) {
    !u.active && u.deprovisionedAt.Some? && u.deprovisionedAt.value <= SaturatingAdd(e.occurredAt, sla)
  }

  lemma MetIff(s: Store, realm: string, users: seq<User>, e: Event, sla: nat, now: nat)
    requires Keyed(s) && Lists(s, realm, users)
    ensures (FindingFor(users, e, sla, now).Ok? && FindingFor(users, e, sla, now).value.status == Met)
       <==> exists id :: AnswersMet(s, realm, e, sla, id)
  {
    var r := FindingFor(users, e, sla, now);
    if r.Ok? && r.value.status == Met {
      var u := Candidates(users, e)[0];
      CandidatesAreMatches(users, e);
      assert u in Candidates(users, e);
      assert Candidates(users, e) == [u];
      FoundIffRefersTo(s, realm, users, e, u.id);
      assert AnswersMet(s, realm, e, sla, u.id);
    }
    if id :| AnswersMet(s, realm, e, sla, id) {
      FoundIffRefersTo(s, realm, users, e, id);
    }
  }

  /** About the only user an event can mean, the audit reports that user's id and
      timestamp, and: pending while it is active in time, violated when it is
      active past the deadline or inactive without a timestamp in time, and met
      otherwise. */
  lemma FindingAboutUser(s: Store, realm: string, users: seq<User>, e: Event, sla: nat, now: nat, id: string)
    requires Keyed(s) && Lists(s, realm, users) && NamesProvider(e) && RefersTo(s, realm, e, id)
    ensures var u, due := s[id], Min(e.occurredAt + sla, U64_MAX);
            match FindingFor(users, e, sla, now)
            case Err(_) => false
            case Ok(f) =>
              && f.externalId == e.externalId && f.userId == Some(id) && f.dueAt == due
              && f.deprovisionedAt == u.deprovisionedAt
              && (f.status == Pending <==> u.active && now <= due)
              && (f.status == Violated <==>
                    (u.active && due < now) ||
                    (!u.active && !(u.deprovisionedAt.Some? && u.deprovisionedAt.value <= due)))
              && (f.status == Met <==> !u.active && u.deprovisionedAt.Some? && u.deprovisionedAt.value <= due)
  {
    FoundIffRefersTo(s, realm, users, e, id);
  }

  /** The user is reported missing exactly when no realm user matches, with
      neither an id nor a timestamp. */
  lemma MissingIff(s: Store, realm: string, users: seq<User>, e: Event, sla: nat, now: nat)
    requires Keyed(s) && Lists(s, realm, users) && NamesProvider(e)
    ensures (forall k | k in s && s[k].realmId == realm :: !Matches(s[k], e)) <==>
            FindingFor(users, e, sla, now)
              == Ok(Finding(e.externalId, None, Min(e.occurredAt + sla, U64_MAX), None, MissingUser))
    ensures FindingFor(users, e, sla, now).Ok? && FindingFor(users, e, sla, now).value.status == MissingUser ==>
              forall k | k in s && s[k].realmId == realm :: !Matches(s[k], e)
  {
    CandidatesAreMatches(users, e);
    if forall k | k in s && s[k].realmId == realm :: !Matches(s[k], e) {
      NoCandidates(users, e);
    } else {
      var k :| k in s && s[k].realmId == realm && Matches(s[k], e);
      assert s[k] in users;
      assert s[k] in Candidates(users, e);
    }
  }

  lemma {:induction false} TwoCandidates(users: seq<User>, e: Event, i: nat, j: nat)
    requires i < j < |users| && Matches(users[i], e) && Matches(users[j], e)
    ensures |Candidates(users, e)| >= 2
  {
    if i > 0 {
      TwoCandidates(users[1..], e, i - 1, j - 1);
    } else {
      CandidatesAreMatches(users[1..], e);
      assert users[1..][j - 1] in Candidates(users[1..], e);
    }
  }

  lemma {:induction false} CandidatesInOrder(users: seq<User>, e: Event)
    requires |Candidates(users, e)| >= 2
    ensures exists i, j :: 0 <= i < j < |users| && Matches(users[i], e) && Matches(users[j], e)
  {
    if !Matches(users[0], e) || |Candidates(users[1..], e)| >= 2 {
      CandidatesInOrder(users[1..], e);
      var i, j :| 0 <= i < j < |users[1..]| && Matches(users[1..][i], e) && Matches(users[1..][j], e);
      assert Matches(users[i + 1], e) && Matches(users[j + 1], e);
    } else {
      CandidatesAreMatches(users[1..], e);
      var u := Candidates(users[1..], e)[0];
      assert u in Candidates(users[1..], e);
      var j :| 0 <= j < |users[1..]| && users[1..][j] == u;
      assert Matches(users[0], e) && Matches(users[j + 1], e);
    }
  }

  /** An event is refused as ambiguous exactly when two realm users match. */
  lemma AmbiguousIff(s: Store, realm: string, users: seq<User>, e: Event, sla: nat, now: nat)
    requires Keyed(s) && Lists(s, realm, users) && NamesProvider(e)
    ensures FindingFor(users, e, sla, now) == Err(Ambiguous) <==>
            exists k, m :: k in s && m in s && k != m && s[k].realmId == realm == s[m].realmId
                           && Matches(s[k], e) && Matches(s[m], e)
  {
    if |Candidates(users, e)| >= 2 {
      CandidatesInOrder(users, e);
      var i, j :| 0 <= i < j < |users| && Matches(users[i], e) && Matches(users[j], e);
      assert users[i] in users && users[j] in users;
      assert Matches(s[users[i].id], e) && Matches(s[users[j].id], e);
    }
    if k, m :| k in s && m in s && k != m && s[k].realmId == realm == s[m].realmId
               && Matches(s[k], e) && Matches(s[m], e) {
      assert s[k] in users && s[m] in users;
      var i :| 0 <= i < |users| && users[i] == s[k];
      var j :| 0 <= j < |users| && users[j] == s[m];
      if i < j {
        TwoCandidates(users, e, i, j);
      } else {
        TwoCandidates(users, e, j, i);
      }
    }
  }

  /** A blank provider is refused, whatever the users. */
  lemma BlankProviderIff(users: seq<User>, e: Event, sla: nat, now: nat)
    ensures FindingFor(users, e, sla, now) == Err(BlankProviderId) <==> !NamesProvider(e)
  {
  }

  // ----- Verdicts over runs ---------------------------------------------

  predicate Reenables(s: Store, c: Call, u: User) {
    && u.directoryProviderId.Some? && u.externalId.Some?
    && SignalOf(s, c, u.realmId, u.directoryProviderId.value, u.externalId.value) == Enabled
  }

  lemma ReconcileKeepsStamp(u: User, snap: Snapshot)
    requires !u.active && u.deprovisionedAt.Some?
    requires Owned(u, snap) ==> EntrySignal(snap, u.externalId.value) != Enabled
    ensures !Reconcile(u, snap).active && Reconcile(u, snap).deprovisionedAt == u.deprovisionedAt
  {
    if Listed(u, snap) {
      ApplyLdapEntryProjects(u, snap.provider, EntryFor(snap.entries, u.externalId.value).value, snap.syncedAt);
    }
  }

  /** A deprovisioned user keeps its timestamp until a call re-enables it. */
  lemma DeprovisionedStays(s: Store, t: Store, c: Call, id: string)
    requires CallStep(s, t, c) && id in s && !s[id].active && s[id].deprovisionedAt.Some?
    requires !Reenables(s, c, s[id])
    ensures id in t && SameKey(t[id], s[id]) && !t[id].active && t[id].deprovisionedAt == s[id].deprovisionedAt
  {
    if Accepts(s, c.snap) {
      assert t[id] == Reconcile(s[id], c.snap);
      ReconcileKeepsKey(s[id], c.snap);
      ReconcileKeepsStamp(s[id], c.snap);
    }
  }

  /** No sync creates a second user for a provider's DN. */
  lemma StillTheOnlyOne(s: Store, t: Store, c: Call, realm: string, e: Event, id: string)
    requires CallStep(s, t, c) && RefersTo(s, realm, e, id) && e.providerId.Some?
    ensures RefersTo(t, realm, e, id)
  {
    if Accepts(s, c.snap) {
      ReconcileKeepsKey(s[id], c.snap);
      forall k | k in t && t[k].realmId == realm && Matches(t[k], e) ensures k == id {
        SyncedOrigin(s, t, c.snap, c.ids, k);
        if k !in s {
          NewUserTakesFreeDn(s, t, c, k, id);
        }
      }
    }
  }

  lemma NewUserTakesFreeDn(s: Store, t: Store, c: Call, k: string, id: string)
    requires CallStep(s, t, c) && Accepts(s, c.snap) && k in t && k !in s && id in s
    ensures !SameKey(s[id], t[k])
  {
    SyncedOrigin(s, t, c.snap, c.ids, k);
    var i :| 0 <= i < |c.snap.entries| && c.snap.entries[i].dn in c.ids
             && !HasOwned(s, c.snap, c.snap.entries[i].dn) && t[k] == NewUser(c.snap, c.ids, c.snap.entries[i]);
    NewUserKey(c.snap, c.ids, c.snap.entries[i]);
    assert !OwnedAs(s[id], c.snap, c.snap.entries[i].dn);
  }

  /** No call from `m` on re-enables the user. */
  ghost predicate NeverReenabled(states: seq<Store>, calls: seq<Call>, m: nat, n: nat, u: User)
    requires |states| == |calls| + 1 && m <= n <= |calls|
  {
    forall i | m <= i < n :: !Reenables(states[i], calls[i], u)
  }

  lemma {:induction false} TimestampKept(states: seq<Store>, calls: seq<Call>, m: nat, n: nat, id: string)
    requires IsRun(states, calls) && m <= n <= |calls| && id in states[m]
    requires !states[m][id].active && states[m][id].deprovisionedAt.Some?
    requires NeverReenabled(states, calls, m, n, states[m][id])
    ensures id in states[n] && SameKey(states[n][id], states[m][id])
    ensures !states[n][id].active && states[n][id].deprovisionedAt == states[m][id].deprovisionedAt
    decreases n
  {
    if m < n {
      TimestampKept(states, calls, m, n - 1, id);
      assert StepAt(states, calls, n - 1);
      assert Reenables(states[n - 1], calls[n - 1], states[n - 1][id])
          == Reenables(states[n - 1], calls[n - 1], states[m][id]);
      DeprovisionedStays(states[n - 1], states[n], calls[n - 1], id);
    }
  }

  lemma {:induction false} StillReferredTo(states: seq<Store>, calls: seq<Call>, m: nat, n: nat, realm: string,
                                           e: Event, id: string)
    requires IsRun(states, calls) && m <= n <= |calls| && e.providerId.Some? && RefersTo(states[m], realm, e, id)
    ensures RefersTo(states[n], realm, e, id)
    decreases n
  {
    if m < n {
      StillReferredTo(states, calls, m, n - 1, realm, e, id);
      assert StepAt(states, calls, n - 1);
      StillTheOnlyOne(states[n - 1], states[n], calls[n - 1], realm, e, id);
    }
  }

  /** Once Met for an event that names its provider, always Met until a call
      re-enables the user, whatever the syncs in between. */
  lemma MetStaysMet(states: seq<Store>, calls: seq<Call>, m: nat, n: nat, realm: string, e: Event, sla: nat, id: string)
    requires IsRun(states, calls) && m <= n <= |calls| && e.providerId.Some?
    requires AnswersMet(states[m], realm, e, sla, id)
    requires NeverReenabled(states, calls, m, n, states[m][id])
    ensures AnswersMet(states[n], realm, e, sla, id)
  {
    TimestampKept(states, calls, m, n, id);
    StillReferredTo(states, calls, m, n, realm, e, id);
  }

  /** The call is accepted and brings the event's external id into the realm for
      another provider than the owner. */
  ghost predicate TakesId(s: Store, c: Call, realm: string, e: Event, owner: Option<string>) {
    && Accepts(s, c.snap) && c.snap.realm == realm && Some(c.snap.provider) != owner
    && exists k :: 0 <= k < |c.snap.entries| && c.snap.entries[k].dn == e.externalId
  }

  /** The user is the only one of the realm with the event's external id. */
  ghost predicate OnlyHolder(s: Store, realm: string, e: Event, id: string) {
    && id in s && s[id].realmId == realm && s[id].externalId == Some(e.externalId)
    && forall k | k in s && s[k].realmId == realm && s[k].externalId == Some(e.externalId) :: k == id
  }

  /** A call that takes the id leaves two holders. */
  lemma TakenIdIsShared(s: Store, t: Store, c: Call, realm: string, e: Event, id: string)
    requires CallStep(s, t, c) && id in s && id in t && s[id].externalId == Some(e.externalId)
    requires SameKey(t[id], s[id]) && TakesId(s, c, realm, e, s[id].directoryProviderId)
    ensures !OnlyHolder(t, realm, e, id)
  {
    var k :| 0 <= k < |c.snap.entries| && c.snap.entries[k].dn == e.externalId;
    var other := OneProjectedUserPerEntry(s, t, c.snap, c.ids, k);
    assert t[other].directoryProviderId != t[id].directoryProviderId;
  }

  /** A call that does not take the id adds no holder. */
  lemma UntakenIdIsKept(s: Store, t: Store, c: Call, realm: string, e: Event, id: string)
    requires CallStep(s, t, c) && OnlyHolder(s, realm, e, id)
    requires !TakesId(s, c, realm, e, s[id].directoryProviderId)
    ensures OnlyHolder(t, realm, e, id)
  {
    if Accepts(s, c.snap) {
      ReconcileKeepsKey(s[id], c.snap);
      forall k | k in t && t[k].realmId == realm && t[k].externalId == Some(e.externalId)
        ensures k == id
      {
        SyncedOrigin(s, t, c.snap, c.ids, k);
        if k in s {
          ReconcileKeepsKey(s[k], c.snap);
        } else {
          NewUserTakesFreeDn(s, t, c, k, id);
          NewUserIsListed(s, t, c, k);
        }
      }
    }
  }

  lemma NewUserIsListed(s: Store, t: Store, c: Call, k: string)
    requires CallStep(s, t, c) && Accepts(s, c.snap) && k in t && k !in s
    ensures t[k].realmId == c.snap.realm && t[k].directoryProviderId == Some(c.snap.provider)
    ensures exists i :: 0 <= i < |c.snap.entries| && t[k].externalId == Some(c.snap.entries[i].dn)
  {
    SyncedOrigin(s, t, c.snap, c.ids, k);
    var i :| 0 <= i < |c.snap.entries| && c.snap.entries[i].dn in c.ids
             && t[k] == NewUser(c.snap, c.ids, c.snap.entries[i]);
    NewUserKey(c.snap, c.ids, c.snap.entries[i]);
  }

  /** No sync removes a holder. */
  lemma SharedIdStaysShared(s: Store, t: Store, c: Call, realm: string, e: Event, id: string)
    requires CallStep(s, t, c) && !OnlyHolder(s, realm, e, id)
    requires id in s && s[id].realmId == realm && s[id].externalId == Some(e.externalId)
    ensures !OnlyHolder(t, realm, e, id)
  {
    var k :| k in s && s[k].realmId == realm && s[k].externalId == Some(e.externalId) && k != id;
    if Accepts(s, c.snap) {
      ReconcileKeepsKey(s[k], c.snap);
    }
  }

  ghost predicate NeverTaken(states: seq<Store>, calls: seq<Call>, m: nat, n: nat, realm: string, e: Event,
                             owner: Option<string>)
    requires |states| == |calls| + 1 && m <= n <= |calls|
  {
    forall i | m <= i < n :: !TakesId(states[i], calls[i], realm, e, owner)
  }

  /** One call keeps the only holder exactly when it does not take the id. */
  lemma OnlyHolderStep(s: Store, t: Store, c: Call, realm: string, e: Event, id: string)
    requires CallStep(s, t, c) && id in s && id in t && SameKey(t[id], s[id])
    requires s[id].realmId == realm && s[id].externalId == Some(e.externalId)
    ensures OnlyHolder(t, realm, e, id) <==>
              OnlyHolder(s, realm, e, id) && !TakesId(s, c, realm, e, s[id].directoryProviderId)
  {
    if !OnlyHolder(s, realm, e, id) {
      SharedIdStaysShared(s, t, c, realm, e, id);
    } else if TakesId(s, c, realm, e, s[id].directoryProviderId) {
      TakenIdIsShared(s, t, c, realm, e, id);
    } else {
      UntakenIdIsKept(s, t, c, realm, e, id);
    }
  }

  lemma {:induction false} OnlyHolderIff(states: seq<Store>, calls: seq<Call>, m: nat, n: nat, realm: string, e: Event,
                                         id: string)
    requires IsRun(states, calls) && m <= n <= |calls| && OnlyHolder(states[m], realm, e, id)
    requires !states[m][id].active && states[m][id].deprovisionedAt.Some?
    requires NeverReenabled(states, calls, m, n, states[m][id])
    ensures OnlyHolder(states[n], realm, e, id) <==>
              NeverTaken(states, calls, m, n, realm, e, states[m][id].directoryProviderId)
    decreases n
  {
    if m < n {
      NeverReenabledSnoc(states, calls, m, n, states[m][id]);
      OnlyHolderIff(states, calls, m, n - 1, realm, e, id);
      TimestampKept(states, calls, m, n - 1, id);
      TimestampKept(states, calls, m, n, id);
      OnlyHolderAt(states, calls, n, realm, e, id, states[m][id]);
      NeverTakenSnoc(states, calls, m, n, realm, e, states[m][id].directoryProviderId);
    }
  }

  lemma OnlyHolderAt(states: seq<Store>, calls: seq<Call>, n: nat, realm: string, e: Event, id: string, u: User)
    requires IsRun(states, calls) && 0 < n <= |calls| && id in states[n - 1] && id in states[n]
    requires SameKey(states[n - 1][id], u) && SameKey(states[n][id], u)
    requires u.realmId == realm && u.externalId == Some(e.externalId)
    ensures OnlyHolder(states[n], realm, e, id) <==>
              OnlyHolder(states[n - 1], realm, e, id) &&
              !TakesId(states[n - 1], calls[n - 1], realm, e, u.directoryProviderId)
  {
    assert StepAt(states, calls, n - 1);
    OnlyHolderStep(states[n - 1], states[n], calls[n - 1], realm, e, id);
  }

  lemma NeverReenabledSnoc(states: seq<Store>, calls: seq<Call>, m: nat, n: nat, u: User)
    requires |states| == |calls| + 1 && m < n <= |calls| && NeverReenabled(states, calls, m, n, u)
    ensures NeverReenabled(states, calls, m, n - 1, u)
  {
  }

  lemma NeverTakenSnoc(states: seq<Store>, calls: seq<Call>, m: nat, n: nat, realm: string, e: Event,
                       owner: Option<string>)
    requires |states| == |calls| + 1 && m < n <= |calls|
    ensures NeverTaken(states, calls, m, n, realm, e, owner) <==>
              NeverTaken(states, calls, m, n - 1, realm, e, owner) &&
              !TakesId(states[n - 1], calls[n - 1], realm, e, owner)
  {
  }

  /** For an event without a provider, Met stays Met exactly when no accepted
      call of another provider lists the external id in the realm. */
  lemma LegacyMetStaysMetIff(states: seq<Store>, calls: seq<Call>, m: nat, n: nat, realm: string, e: Event, sla: nat,
                             id: string)
    requires IsRun(states, calls) && m <= n <= |calls| && e.providerId.None?
    requires AnswersMet(states[m], realm, e, sla, id)
    requires NeverReenabled(states, calls, m, n, states[m][id])
    ensures (exists k :: AnswersMet(states[n], realm, e, sla, k)) <==>
              NeverTaken(states, calls, m, n, realm, e, states[m][id].directoryProviderId)
  {
    TimestampKept(states, calls, m, n, id);
    OnlyHolderIff(states, calls, m, n, realm, e, id);
    if OnlyHolder(states[n], realm, e, id) {
      assert AnswersMet(states[n], realm, e, sla, id);
    }
    if k :| AnswersMet(states[n], realm, e, sla, k) {
      assert Matches(states[n][id], e);
      assert OnlyHolder(states[n], realm, e, id);
    }
  }

  // ----- And it can fail ------------------------------------------------

  /** A leaver of provider `p`, and the entry with the same DN that provider `q`
      lists. */
  function Leaver(at: nat): User {
    User("1", "r", Some("d"), "x", Null, Null, Null, Some("p"), Some(at), false)
  }

  const OTHER_ENTRY := LdapEntry("d", "x", None, None, None, None, true)

  function OtherCall(at: nat): Call {
    Call(Snapshot("r", "q", [OTHER_ENTRY], false, at), map["d" := "2"])
  }

  lemma OtherCallAccepted(at: nat)
    ensures Accepts(map["1" := Leaver(at)], OtherCall(at).snap)
  {
    assert !Text.IsBlank("q") && !Text.IsBlank("p") && !Text.IsBlank("d") && !Text.IsBlank("x");
    assert ValidEntry(OTHER_ENTRY);
  }

  lemma OtherCallSteps(at: nat) returns (t: Store)
    ensures CallStep(map["1" := Leaver(at)], t, OtherCall(at)) && "1" in t && t["1"] == Leaver(at)
  {
    var s: Store := map["1" := Leaver(at)];
    var c := OtherCall(at);
    OtherCallAccepted(at);
    NewUserKey(c.snap, c.ids, OTHER_ENTRY);
    t := s["2" := NewUser(c.snap, c.ids, OTHER_ENTRY)];
    assert !HasOwned(s, c.snap, "d");
    assert OTHER_ENTRY in c.snap.entries;
    assert IsNewId(s, c.snap, c.ids, "2");
  }

  /** Another provider's snapshot that lists the same DN turns Met into an
      ambiguity error. */
  lemma LegacyMetCanBeLost(at: nat) returns (t: Store)
    requires at <= U64_MAX
    ensures var s: Store := map["1" := Leaver(at)];
            var e := Event("d", at, None);
            && CallStep(s, t, OtherCall(at)) && !Reenables(s, OtherCall(at), Leaver(at))
            && AnswersMet(s, "r", e, 0, "1") && !exists id :: AnswersMet(t, "r", e, 0, id)
  {
    var s: Store := map["1" := Leaver(at)];
    var e := Event("d", at, None);
    t := OtherCallSteps(at);
    OtherCallAccepted(at);
    assert OtherCall(at).snap.entries[0].dn == "d";
    TakenIdIsShared(s, t, OtherCall(at), "r", e, "1");
    forall id
      ensures !AnswersMet(t, "r", e, 0, id)
    {
      assert Matches(t["1"], e);
    }
  }
}
