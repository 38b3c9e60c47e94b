/** The deprovisioning timestamp over whole runs of syncs. */
module Lifecycle {
  import opened Wrappers
  import opened Directory
  import opened LdapSync
  import opened SyncTheorems

  /** One sync call: the snapshot and the new ids it would hand out. */
  datatype Call = Call(snap: Snapshot, ids: map<string, string>)

  /** A refused call changes nothing; an accepted one syncs the table. */
  ghost predicate CallStep(s: Store, t: Store, c: Call) {
    && FreshIds(s, c.snap.entries, c.ids)
    && if Accepts(s, c.snap) then Synced(s, t, c.snap, c.ids) else t == s
  }

  ghost predicate StepAt(states: seq<Store>, calls: seq<Call>, i: nat)
    requires |states| == |calls| + 1 && i < |calls|
  {
    CallStep(states[i], states[i + 1], calls[i])
  }

  /** `states` are the tables before, between and after the calls. */
  ghost predicate IsRun(states: seq<Store>, calls: seq<Call>) {
    && |states| == |calls| + 1
    && forall i {:trigger StepAt(states, calls, i)} | 0 <= i < |calls| :: StepAt(states, calls, i)
  }

  // ----- What a call says about one user --------------------------------

  datatype Signal = Enabled | Disabled | Silent

  /** What a call says about the user that owns `dn` for `provider`. A disabled
      entry and a missing one that is to be deactivated both disable. */
  function SignalOf(s: Store, c: Call, realm: string, provider: string, dn: string): Signal {
    if !Accepts(s, c.snap) || c.snap.provider != provider || c.snap.realm != realm then Silent
    else EntrySignal(c.snap, dn)
  }

  predicate Follows(u: User, provider: string, realm: string, dn: string) {
    u.directoryProviderId == Some(provider) && u.realmId == realm && u.externalId == Some(dn)
  }

  predicate StampMatchesActive(u: User) {
    u.active <==> u.deprovisionedAt.None?
  }

  /** How a signal moves a user's active flag and timestamp. */
  predicate Moved(u: User, v: User, signal: Signal, at: nat) {
    match signal
    case Enabled => v.active && v.deprovisionedAt == None
    case Disabled => !v.active && v.deprovisionedAt == if u.active then Some(at) else u.deprovisionedAt
    case Silent => v.active == u.active && v.deprovisionedAt == u.deprovisionedAt
  }

  /** What a snapshot's own entry, or its absence, says. */
  function EntrySignal(snap: Snapshot, dn: string): Signal {
    match EntryFor(snap.entries, dn)
    case Some(e) => if e.enabled then Enabled else Disabled
    case None => if snap.deactivateMissing then Disabled else Silent
  }

  lemma ReconcileMoves(u: User, snap: Snapshot)
    requires Owned(u, snap) && StampMatchesActive(u) && !IsBreakGlass(u)
    ensures var v := Reconcile(u, snap);
            && StampMatchesActive(v) && !IsBreakGlass(v)
            && Moved(u, v, EntrySignal(snap, u.externalId.value), snap.syncedAt)
  {
    if Listed(u, snap) {
      var e := EntryFor(snap.entries, u.externalId.value).value;
      ApplyLdapEntryProjects(u, snap.provider, e, snap.syncedAt);
      assert Attribute(Reconcile(u, snap), BreakGlass) == ProjectedAttribute(u, e, snap.syncedAt, BreakGlass);
    }
  }

  lemma CallMovesUser(s: Store, t: Store, c: Call, provider: string, realm: string, dn: string, id: string)
    requires CallStep(s, t, c) && id in s && Follows(s[id], provider, realm, dn)
    requires StampMatchesActive(s[id]) && !IsBreakGlass(s[id])
    ensures id in t && Follows(t[id], provider, realm, dn)
    ensures StampMatchesActive(t[id]) && !IsBreakGlass(t[id])
    ensures Moved(s[id], t[id], SignalOf(s, c, realm, provider, dn), c.snap.syncedAt)
  {
    if Accepts(s, c.snap) {
      assert t[id] == Reconcile(s[id], c.snap);
      ReconcileKeepsKey(s[id], c.snap);
      if Owned(s[id], c.snap) {
        ReconcileMoves(s[id], c.snap);
      }
    }
  }

  // ----- The timestamp over a run ---------------------------------------

  ghost predicate NoSignal(signals: seq<Signal>, kind: Signal, lo: int, hi: int) {
    forall m | lo <= m < hi && 0 <= m < |signals| :: signals[m] != kind
  }

  /** Position `k` is the first disabling signal since the last enabling one. */
  ghost predicate FirstDisabling(signals: seq<Signal>, k: nat) {
    && k < |signals| && signals[k] == Disabled
    && NoSignal(signals, Enabled, k, |signals|)
    && exists j :: Restarts(signals, j, k)
  }

  /** Nothing disables between `j` and `k`, and `j` is an enabling signal or
      the start of the run. */
  ghost predicate Restarts(signals: seq<Signal>, j: int, k: nat) {
    -1 <= j < k <= |signals| && (j >= 0 ==> signals[j] == Enabled) && NoSignal(signals, Disabled, j + 1, k)
  }

  /** The last signal that says anything is an enabling one. */
  ghost predicate EndsEnabled(signals: seq<Signal>) {
    exists j :: 0 <= j < |signals| && signals[j] == Enabled && NoSignal(signals, Disabled, j, |signals|)
  }

  /** What the signals and their times determine about a user. */
  ghost predicate Explained(u: User, signals: seq<Signal>, times: seq<nat>)
    requires |times| == |signals|
  {
    && (u.active <==> EndsEnabled(signals))
    && (u.active ==> u.deprovisionedAt == None)
    && (!u.active ==> exists k: nat :: FirstDisabling(signals, k) && u.deprovisionedAt == Some(times[k]))
  }

  lemma SnocNoSignal(signals: seq<Signal>, s: Signal, kind: Signal, lo: int)
    requires lo <= |signals|
    ensures NoSignal(signals + [s], kind, lo, |signals| + 1) <==>
              NoSignal(signals, kind, lo, |signals|) && s != kind
  {
    assert (signals + [s])[|signals|] == s;
    if NoSignal(signals + [s], kind, lo, |signals| + 1) {
      assert forall m | 0 <= m < |signals| :: (signals + [s])[m] == signals[m];
    }
  }

  lemma ExplainedStep(u: User, v: User, signals: seq<Signal>, times: seq<nat>, signal: Signal, at: nat)
    requires |times| == |signals| && Explained(u, signals, times) && Moved(u, v, signal, at)
    ensures Explained(v, signals + [signal], times + [at])
  {
    var n := |signals|;
    var sig := signals + [signal];
    match signal
    case Enabled =>
      assert sig[n] == Enabled && NoSignal(sig, Disabled, n, n + 1);
      assert EndsEnabled(sig);
    case Disabled =>
      NotEnabledAfterDisabled(signals);
      if u.active {
        FirstOfNew(signals);
        assert (times + [at])[n] == at;
      } else {
        var k: nat :| FirstDisabling(signals, k) && u.deprovisionedAt == Some(times[k]);
        KeepsFirst(signals, Disabled, k);
        assert (times + [at])[k] == times[k];
      }
    case Silent =>
      SilentKeepsEnabled(signals);
      if !u.active {
        var k: nat :| FirstDisabling(signals, k) && u.deprovisionedAt == Some(times[k]);
        KeepsFirst(signals, Silent, k);
        assert (times + [at])[k] == times[k];
      }
  }

  lemma NotEnabledAfterDisabled(signals: seq<Signal>)
    ensures !EndsEnabled(signals + [Disabled])
  {
    var n, sig := |signals|, signals + [Disabled];
    assert sig[n] == Disabled;
    forall j | 0 <= j < |sig| && sig[j] == Enabled ensures !NoSignal(sig, Disabled, j, n + 1) {
    }
  }

  lemma SilentKeepsEnabled(signals: seq<Signal>)
    ensures EndsEnabled(signals + [Silent]) <==> EndsEnabled(signals)
  {
    var n, sig := |signals|, signals + [Silent];
    if j :| 0 <= j < n && signals[j] == Enabled && NoSignal(signals, Disabled, j, n) {
      SnocNoSignal(signals, Silent, Disabled, j);
      assert sig[j] == Enabled;
    }
    if j :| 0 <= j < |sig| && sig[j] == Enabled && NoSignal(sig, Disabled, j, n + 1) {
      SnocNoSignal(signals, Silent, Disabled, j);
    }
  }

  lemma FirstOfNew(signals: seq<Signal>)
    requires EndsEnabled(signals)
    ensures FirstDisabling(signals + [Disabled], |signals|)
  {
    var n, sig := |signals|, signals + [Disabled];
    var j :| 0 <= j < n && signals[j] == Enabled && NoSignal(signals, Disabled, j, n);
    assert sig[j] == Enabled;
    forall m | j + 1 <= m < n && 0 <= m < |sig| ensures sig[m] != Disabled {
      assert sig[m] == signals[m];
    }
    assert Restarts(sig, j, n);
  }

  lemma KeepsFirst(signals: seq<Signal>, s: Signal, k: nat)
    requires FirstDisabling(signals, k) && s != Enabled
    ensures FirstDisabling(signals + [s], k)
  {
    var sig := signals + [s];
    SnocNoSignal(signals, s, Enabled, k);
    var j :| Restarts(signals, j, k);
    forall m | j + 1 <= m < k && 0 <= m < |sig| ensures sig[m] != Disabled {
      assert sig[m] == signals[m];
    }
    assert Restarts(sig, j, k);
  }

  /** The signals of calls `lo..hi`, and the times they were sent. */
  function Signals(states: seq<Store>, calls: seq<Call>, lo: nat, hi: nat, realm: string, provider: string,
                   dn: string): (r: seq<Signal>)
    requires lo <= hi <= |calls| && |states| == |calls| + 1
    ensures |r| == hi - lo
  {
    if lo == hi then []
    else Signals(states, calls, lo, hi - 1, realm, provider, dn)
         + [SignalOf(states[hi - 1], calls[hi - 1], realm, provider, dn)]
  }

  function Times(calls: seq<Call>, lo: nat, hi: nat): (r: seq<nat>)
    requires lo <= hi <= |calls|
    ensures |r| == hi - lo
  {
    if lo == hi then [] else Times(calls, lo, hi - 1) + [calls[hi - 1].snap.syncedAt]
  }

  /** Call `c` created the user. */
  ghost predicate CreatedBy(states: seq<Store>, c: nat, id: string) {
    c + 1 < |states| && id !in states[c] && id in states[c + 1]
  }

  lemma NewUserFacts(snap: Snapshot, ids: map<string, string>, e: LdapEntry)
    requires e.dn in ids
    ensures var u := NewUser(snap, ids, e);
            && u.active == e.enabled && !IsBreakGlass(u)
            && u.deprovisionedAt == if e.enabled then None else Some(snap.syncedAt)
  {
    var blank := BlankUser(ids[e.dn], snap.realm, snap.provider, e);
    ApplyLdapEntryProjects(blank, snap.provider, e, snap.syncedAt);
    assert Attribute(NewUser(snap, ids, e), BreakGlass) == ProjectedAttribute(blank, e, snap.syncedAt, BreakGlass);
  }

  lemma FirstSignalExplains(u: User, enabled: bool, at: nat)
    requires u.active == enabled && u.deprovisionedAt == if enabled then None else Some(at)
    ensures Explained(u, [if enabled then Enabled else Disabled], [at])
  {
    OneSignal(if enabled then Enabled else Disabled);
    assert [at][0] == at;
  }

  lemma NewUserExplained(snap: Snapshot, ids: map<string, string>, i: nat)
    requires ValidEntries(snap.entries) && i < |snap.entries| && snap.entries[i].dn in ids
    ensures var u := NewUser(snap, ids, snap.entries[i]);
            && StampMatchesActive(u) && !IsBreakGlass(u)
            && EntrySignal(snap, snap.entries[i].dn) != Silent
            && Explained(u, [EntrySignal(snap, snap.entries[i].dn)], [snap.syncedAt])
  {
    var e := snap.entries[i];
    EntryForUnique(snap.entries, i);
    NewUserFacts(snap, ids, e);
    FirstSignalExplains(NewUser(snap, ids, e), e.enabled, snap.syncedAt);
  }

  lemma OneSignal(s: Signal)
    ensures EndsEnabled([s]) <==> s == Enabled
    ensures s == Disabled ==> FirstDisabling([s], 0)
  {
    assert [s][0] == s;
    if s == Enabled {
      assert NoSignal([s], Disabled, 0, 1);
    } else if s == Disabled {
      assert Restarts([s], -1, 0);
    }
  }

  lemma CreatedUser(s: Store, t: Store, c: Call, id: string)
    requires CallStep(s, t, c) && id !in s && id in t
    ensures var u := t[id];
            && u.externalId.Some? && Follows(u, c.snap.provider, c.snap.realm, u.externalId.value)
            && StampMatchesActive(u) && !IsBreakGlass(u)
            && SignalOf(s, c, c.snap.realm, c.snap.provider, u.externalId.value) != Silent
            && Explained(u, [SignalOf(s, c, c.snap.realm, c.snap.provider, u.externalId.value)], [c.snap.syncedAt])
  {
    var snap := c.snap;
    SyncedOrigin(s, t, snap, c.ids, id);
    var i :| 0 <= i < |snap.entries| && snap.entries[i].dn in c.ids && t[id] == NewUser(snap, c.ids, snap.entries[i]);
    NewUserKey(snap, c.ids, snap.entries[i]);
    NewUserExplained(snap, c.ids, i);
  }

  /** What holds after call `n` for the user that call `c` created. */
  ghost predicate Tracked(states: seq<Store>, calls: seq<Call>, c: nat, n: nat, id: string, dn: string)
    requires c < n <= |calls| && |states| == |calls| + 1
  {
    && id in states[n]
    && var u := states[n][id];
       var snap := calls[c].snap;
       && Follows(u, snap.provider, snap.realm, dn) && StampMatchesActive(u) && !IsBreakGlass(u)
       && Explained(u, Signals(states, calls, c, n, snap.realm, snap.provider, dn), Times(calls, c, n))
  }

  lemma TrackedStep(states: seq<Store>, calls: seq<Call>, c: nat, n: nat, id: string, dn: string)
    requires IsRun(states, calls) && c < n < |calls| && Tracked(states, calls, c, n, id, dn)
    ensures Tracked(states, calls, c, n + 1, id, dn)
  {
    var snap := calls[c].snap;
    assert StepAt(states, calls, n);
    CallMovesUser(states[n], states[n + 1], calls[n], snap.provider, snap.realm, dn, id);
    ExplainedStep(states[n][id], states[n + 1][id],
                  Signals(states, calls, c, n, snap.realm, snap.provider, dn), Times(calls, c, n),
                  SignalOf(states[n], calls[n], snap.realm, snap.provider, dn), calls[n].snap.syncedAt);
  }

  lemma TrackedStart(states: seq<Store>, calls: seq<Call>, c: nat, id: string)
    requires IsRun(states, calls) && CreatedBy(states, c, id)
    ensures states[c + 1][id].externalId.Some?
    ensures Tracked(states, calls, c, c + 1, id, states[c + 1][id].externalId.value)
  {
    var snap := calls[c].snap;
    assert StepAt(states, calls, c);
    CreatedUser(states[c], states[c + 1], calls[c], id);
    var dn := states[c + 1][id].externalId.value;
    assert Signals(states, calls, c, c, snap.realm, snap.provider, dn) == [];
    assert Times(calls, c, c) == [];
    assert Signals(states, calls, c, c + 1, snap.realm, snap.provider, dn)
        == [SignalOf(states[c], calls[c], snap.realm, snap.provider, dn)];
    assert Times(calls, c, c + 1) == [snap.syncedAt];
  }

  lemma {:induction false} TrackedThrough(states: seq<Store>, calls: seq<Call>, c: nat, m: nat, n: nat, id: string,
                                          dn: string)
    requires IsRun(states, calls) && c < m <= n <= |calls| && Tracked(states, calls, c, m, id, dn)
    ensures Tracked(states, calls, c, n, id, dn)
    decreases n - m
  {
    if m < n {
      TrackedStep(states, calls, c, m, id, dn);
      TrackedThrough(states, calls, c, m + 1, n, id, dn);
    }
  }

  /** Over every run, the timestamp of a user a sync created is empty while the
      user is active, and otherwise is the time of the first disabling call
      since the last enabling one. */
  lemma TimestampOverRun(states: seq<Store>, calls: seq<Call>, c: nat, id: string, n: nat)
    requires IsRun(states, calls) && CreatedBy(states, c, id) && c < n <= |calls|
    ensures states[c + 1][id].externalId.Some?
    ensures Tracked(states, calls, c, n, id, states[c + 1][id].externalId.value)
  {
    TrackedStart(states, calls, c, id);
    TrackedThrough(states, calls, c, c + 1, n, id, states[c + 1][id].externalId.value);
  }
}
