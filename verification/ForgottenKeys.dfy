/** The failure budget with more keys than it has entries for. */
module ForgottenKeys {
  import opened FailureLog
  import opened Numbers
  import opened Throttle

  // ----- One failure ----------------------------------------------------

  /** What another key's failure leaves of an answer: it is the same, or the key
      is forgotten and no longer exhausted. */
  lemma KeptOrForgotten(m: Budget, after: Budget, key: string, other: string, limit: nat, window: nat, at: nat,
                        now: nat)
    requires Evicted(Bump(m, other, window, at), after) && key != other
    ensures IsExhausted(after, key, limit, window, now) <==> key in after && IsExhausted(m, key, limit, window, now)
  {
  }

  /** The map is full, the failing key is new, and nothing in it is older than
      the key. */
  ghost predicate NothingOlder(m: Budget, key: string, other: string, at: nat)
    requires key in m
  {
    && other !in m && |m| == MAX_BUDGET_ENTRIES && m[key].windowStart <= at
    && forall k | k in m :: m[key].windowStart <= m[k].windowStart
  }

  /** And everything else in it is newer. */
  ghost predicate AllNewer(m: Budget, key: string, other: string, at: nat)
    requires key in m
  {
    && other !in m && |m| == MAX_BUDGET_ENTRIES && m[key].windowStart < at
    && forall k | k in m && k != key :: m[key].windowStart < m[k].windowStart
  }

  lemma NewKeyBump(m: Budget, other: string, window: nat, at: nat)
    requires other !in m
    ensures |Bump(m, other, window, at)| == |m| + 1 && Bump(m, other, window, at)[other].windowStart == at
  {
    assert Bump(m, other, window, at).Keys == m.Keys + {other};
  }

  lemma OldKeyBump(m: Budget, other: string, window: nat, at: nat)
    requires other in m
    ensures |Bump(m, other, window, at)| == |m|
  {
    assert Bump(m, other, window, at).Keys == m.Keys;
  }

  /** Evicting one entry keeps all the others. */
  lemma OneEvicted(m: Budget, after: Budget, key: string)
    requires Evicted(m, after) && |m| == MAX_BUDGET_ENTRIES + 1 && key in m && key !in after
    ensures after.Keys == m.Keys - {key}
  {
    assert after.Keys <= m.Keys - {key};
    SameSize(after.Keys, m.Keys - {key});
  }

  lemma EvictKey(m: Budget, key: string)
    requires key in m && |m| == MAX_BUDGET_ENTRIES + 1
    requires forall k | k in m :: m[key].windowStart <= m[k].windowStart
    ensures Evicted(m, m - {key})
  {
    RemoveOne(m, key);
  }

  /** Another key's failure can make the budget forget a key exactly when the map
      is full, the other key is new, and nothing in the map is older. */
  lemma CanForgetIff(m: Budget, key: string, other: string, window: nat, at: nat)
    requires |m| <= MAX_BUDGET_ENTRIES && key in m && key != other
    ensures (exists after :: Evicted(Bump(m, other, window, at), after) && key !in after) <==>
              NothingOlder(m, key, other, at)
  {
    var bumped := Bump(m, other, window, at);
    if NothingOlder(m, key, other, at) {
      NewKeyBump(m, other, window, at);
      EvictKey(bumped, key);
      assert Evicted(bumped, bumped - {key}) && key !in bumped - {key};
    }
    if after :| Evicted(bumped, after) && key !in after {
      ForgottenIsOldest(m, after, key, other, window, at);
    }
  }

  lemma ForgottenIsOldest(m: Budget, after: Budget, key: string, other: string, window: nat, at: nat)
    requires |m| <= MAX_BUDGET_ENTRIES && key in m && key != other
    requires Evicted(Bump(m, other, window, at), after) && key !in after
    ensures NothingOlder(m, key, other, at)
  {
    var bumped := Bump(m, other, window, at);
    if other in m {
      OldKeyBump(m, other, window, at);
    } else {
      NewKeyBump(m, other, window, at);
    }
    if |bumped| <= MAX_BUDGET_ENTRIES {
      NothingEvicted(bumped, after);
      assert false;
    }
    OneEvicted(bumped, after, key);
    assert other in after;
    forall k | k in m
      ensures m[key].windowStart <= m[k].windowStart
    {
      if k != key {
        assert k in after;
      }
    }
  }

  /** It does so for certain exactly when everything else is newer. */
  lemma MustForgetIff(m: Budget, key: string, other: string, window: nat, at: nat)
    requires |m| <= MAX_BUDGET_ENTRIES && key in m && key != other
    ensures (forall after | Evicted(Bump(m, other, window, at), after) :: key !in after) <==>
              AllNewer(m, key, other, at)
  {
    var bumped := Bump(m, other, window, at);
    if AllNewer(m, key, other, at) {
      NewKeyBump(m, other, window, at);
      forall after | Evicted(bumped, after)
        ensures key !in after
      {
        NewerKeepsNothingOlder(bumped, after, key);
      }
    } else {
      var after := KeepsKey(m, key, other, window, at);
      assert Evicted(bumped, after) && key in after;
    }
  }

  lemma NewerKeepsNothingOlder(m: Budget, after: Budget, key: string)
    requires Evicted(m, after) && |m| == MAX_BUDGET_ENTRIES + 1 && key in m
    requires forall k | k in m && k != key :: m[key].windowStart < m[k].windowStart
    ensures key !in after
  {
    if m.Keys <= after.Keys {
      SmallerSize(m.Keys, after.Keys);
      assert false;
    }
    var gone :| gone in m && gone !in after;
  }

  /** An oldest entry of a map. */
  lemma {:induction false} Oldest(m: Budget, keys: set<string>) returns (key: string)
    requires keys != {} && forall k | k in keys :: k in m
    ensures key in keys && forall k | k in keys :: m[key].windowStart <= m[k].windowStart
    decreases |keys|
  {
    var some :| some in keys;
    key := some;
    if keys - {some} != {} {
      var other := Oldest(m, keys - {some});
      if m[other].windowStart < m[some].windowStart {
        key := other;
      }
    }
  }

  lemma KeepsKey(m: Budget, key: string, other: string, window: nat, at: nat) returns (after: Budget)
    requires |m| <= MAX_BUDGET_ENTRIES && key in m && key != other && !AllNewer(m, key, other, at)
    ensures Evicted(Bump(m, other, window, at), after) && key in after
  {
    var bumped := Bump(m, other, window, at);
    if other in m || |m| < MAX_BUDGET_ENTRIES {
      if other in m {
        OldKeyBump(m, other, window, at);
      } else {
        NewKeyBump(m, other, window, at);
      }
      after := bumped;
    } else {
      NewKeyBump(m, other, window, at);
      var gone := Oldest(bumped, bumped.Keys);
      if gone == key {
        if m[key].windowStart >= at {
          gone := other;
        } else {
          var tied :| tied in m && tied != key && m[tied].windowStart <= m[key].windowStart;
          gone := tied;
        }
      }
      EvictKey(bumped, gone);
      after := bumped - {gone};
    }
  }

  // ----- A spent key forgotten inside its window ------------------------

  /** Different names for the other keys. */
  function OtherKey(i: nat): (name: string)
    ensures |name| == i + 1
  {
    seq(i + 1, _ => 'x')
  }

  /** The budget with the spent key and the first `n` others. */
  function Crowded(limit: nat, n: nat): Budget
    decreases n
  {
    if n == 0 then map["" := Entry(limit, 0)] else Crowded(limit, n - 1)[OtherKey(n - 1) := Entry(1, 1)]
  }

  lemma {:induction false} CrowdedEntry(limit: nat, n: nat, k: string)
    ensures k == "" ==> k in Crowded(limit, n) && Crowded(limit, n)[k] == Entry(limit, 0)
    ensures k != "" && k in Crowded(limit, n) ==> Crowded(limit, n)[k] == Entry(1, 1) && |k| <= n
    decreases n
  {
    if n > 0 {
      CrowdedEntry(limit, n - 1, k);
    }
  }

  lemma {:induction false} CrowdedSize(limit: nat, n: nat)
    ensures |Crowded(limit, n)| == n + 1
    decreases n
  {
    if n > 0 {
      CrowdedSize(limit, n - 1);
      CrowdedEntry(limit, n - 1, OtherKey(n - 1));
      AddOne(Crowded(limit, n - 1), OtherKey(n - 1), Entry(1, 1));
    }
  }

  lemma AddOne(m: Budget, key: string, e: Entry)
    requires key !in m
    ensures |m[key := e]| == |m| + 1
  {
    assert m[key := e].Keys == m.Keys + {key};
  }

  function CrowdState(limit: nat, i: nat): Budget {
    if i == 0 then map[]
    else if i <= limit then map["" := Entry(i, 0)]
    else if i - limit < MAX_BUDGET_ENTRIES then Crowded(limit, i - limit)
    else Crowded(limit, i - limit) - {""}
  }

  function CrowdFailure(limit: nat, i: nat): Failure {
    if i < limit then Failure("", 0) else Failure(OtherKey(i - limit), 1)
  }

  lemma CrowdBump(limit: nat, window: nat, n: nat)
    requires window >= 2
    ensures Bump(Crowded(limit, n), OtherKey(n), window, 1) == Crowded(limit, n + 1)
  {
    CrowdedEntry(limit, n, OtherKey(n));
  }

  lemma CrowdEvicts(limit: nat, n: nat)
    requires n <= MAX_BUDGET_ENTRIES
    ensures Evicted(Crowded(limit, n), if n < MAX_BUDGET_ENTRIES then Crowded(limit, n) else Crowded(limit, n) - {""})
  {
    CrowdedSize(limit, n);
    if n == MAX_BUDGET_ENTRIES {
      forall k | k in Crowded(limit, n)
        ensures Crowded(limit, n)[k].windowStart >= 0
      {
        CrowdedEntry(limit, n, k);
      }
      CrowdedEntry(limit, n, "");
      EvictKey(Crowded(limit, n), "");
    }
  }

  lemma SpendStep(limit: nat, window: nat, i: nat)
    requires 1 <= limit <= U32_MAX && 2 <= window && i < limit
    ensures Evicted(Bump(CrowdState(limit, i), "", window, 0), CrowdState(limit, i + 1))
  {
    assert Bump(CrowdState(limit, i), "", window, 0) == CrowdState(limit, i + 1);
  }

  lemma CrowdStep(limit: nat, window: nat, i: nat)
    requires 1 <= limit <= U32_MAX && 2 <= window && i < limit + MAX_BUDGET_ENTRIES
    ensures Evicted(Bump(CrowdState(limit, i), CrowdFailure(limit, i).key, window, CrowdFailure(limit, i).time),
                    CrowdState(limit, i + 1))
  {
    if i < limit {
      SpendStep(limit, window, i);
    } else {
      CrowdBump(limit, window, i - limit);
      CrowdEvicts(limit, i - limit + 1);
    }
  }

  function CrowdStates(limit: nat): (states: seq<Budget>)
    ensures |states| == limit + MAX_BUDGET_ENTRIES + 1
    ensures forall i | 0 <= i < |states| :: states[i] == CrowdState(limit, i)
  {
    seq(limit + MAX_BUDGET_ENTRIES + 1, i requires 0 <= i => CrowdState(limit, i))
  }

  function CrowdLog(limit: nat): (log: seq<Failure>)
    ensures |log| == limit + MAX_BUDGET_ENTRIES
    ensures forall i | 0 <= i < |log| :: log[i] == CrowdFailure(limit, i)
  {
    seq(limit + MAX_BUDGET_ENTRIES, i requires 0 <= i => CrowdFailure(limit, i))
  }

  lemma CrowdRecorded(limit: nat, window: nat, i: nat)
    requires 1 <= limit <= U32_MAX && 2 <= window && i < limit + MAX_BUDGET_ENTRIES
    ensures RecordedAt(CrowdStates(limit), CrowdLog(limit), window, i)
  {
    CrowdStep(limit, window, i);
  }

  lemma CrowdIsRun(limit: nat, window: nat)
    requires 1 <= limit <= U32_MAX && 2 <= window
    ensures IsRun(CrowdStates(limit), CrowdLog(limit), window)
  {
    forall i | 0 <= i < |CrowdLog(limit)|
      ensures RecordedAt(CrowdStates(limit), CrowdLog(limit), window, i)
    {
      CrowdRecorded(limit, window, i);
    }
  }

  lemma CrowdForgets(limit: nat, window: nat)
    requires limit >= 1 && window >= 2
    ensures IsExhausted(CrowdState(limit, limit), "", limit, window, 1)
    ensures !IsExhausted(CrowdState(limit, limit + MAX_BUDGET_ENTRIES), "", limit, window, 1)
  {
  }

  /** For every limit and window: a key spends its limit at second 0, 1024 other
      keys fail at second 1, and within the window the key is not exhausted. */
  lemma SpentKeyIsForgotten(limit: nat, window: nat) returns (states: seq<Budget>, log: seq<Failure>)
    requires 1 <= limit <= U32_MAX && 2 <= window
    ensures IsRun(states, log, window) && |log| == limit + MAX_BUDGET_ENTRIES
    ensures Times(log, |log|, "") == seq(limit, _ => 0)
    ensures IsExhausted(states[limit], "", limit, window, 1) && !IsExhausted(states[|log|], "", limit, window, 1)
  {
    states, log := CrowdStates(limit), CrowdLog(limit);
    CrowdIsRun(limit, window);
    CrowdForgets(limit, window);
    CrowdTimes(log, limit, |log|);
  }

  lemma {:induction false} CrowdTimes(log: seq<Failure>, limit: nat, n: nat)
    requires n <= |log| && forall i | 0 <= i < |log| :: log[i] == CrowdFailure(limit, i)
    ensures Times(log, n, "") == seq(Min(n, limit), _ => 0)
  {
    if n > 0 {
      CrowdTimes(log, limit, n - 1);
    }
  }

  // ----- And when it is remembered --------------------------------------

  /** The other keys that failed at or after a time. */
  function OthersSince(log: seq<Failure>, n: nat, key: string, since: nat): set<string>
    requires n <= |log|
  {
    if n == 0 then {}
    else OthersSince(log, n - 1, key, since) +
         (if log[n - 1].key != key && log[n - 1].time >= since then {log[n - 1].key} else {})
  }

  /** Every window was opened by a failure of its key. */
  ghost predicate Opened(m: Budget, log: seq<Failure>, n: nat, key: string, since: nat)
    requires n <= |log|
  {
    forall k | k in m && k != key && m[k].windowStart >= since :: k in OthersSince(log, n, key, since)
  }

  lemma {:induction false} RunOpened(states: seq<Budget>, log: seq<Failure>, window: nat, n: nat, key: string,
                                     since: nat)
    requires IsRun(states, log, window) && n <= |log|
    ensures Opened(states[n], log, n, key, since)
  {
    if n > 0 {
      RunOpened(states, log, window, n - 1, key, since);
      assert RecordedAt(states, log, window, n - 1);
    }
  }

  lemma {:induction false} MoreOthers(log: seq<Failure>, n: nat, m: nat, key: string, since: nat)
    requires n <= m <= |log|
    ensures OthersSince(log, n, key, since) <= OthersSince(log, m, key, since)
  {
    if n < m {
      MoreOthers(log, n, m - 1, key, since);
    }
  }

  lemma CrowdNeeded(states: seq<Budget>, log: seq<Failure>, window: nat, n: nat, key: string)
    requires IsRun(states, log, window) && n < |log| && key in states[n] && log[n].key != key
    requires key !in states[n + 1]
    ensures |OthersSince(log, n + 1, key, states[n][key].windowStart)| >= MAX_BUDGET_ENTRIES
  {
    var m, since := states[n], states[n][key].windowStart;
    RunIsBounded(states, log, window, n);
    assert RecordedAt(states, log, window, n);
    ForgottenIsOldest(m, states[n + 1], key, log[n].key, window, log[n].time);
    RunOpened(states, log, window, n, key, since);
    var crowd := m.Keys - {key} + {log[n].key};
    assert |crowd| == MAX_BUDGET_ENTRIES;
    SmallerSize(crowd, OthersSince(log, n + 1, key, since));
  }

  /** A key that records no failure of its own is remembered as it is, unless
      1024 other keys have failed since its window opened. */
  lemma {:induction false} RememberedUnlessCrowded(states: seq<Budget>, log: seq<Failure>, window: nat, i: nat, n: nat,
                                                   key: string)
    requires IsRun(states, log, window) && i <= n <= |log| && key in states[i]
    requires forall j | i <= j < n :: log[j].key != key
    requires |OthersSince(log, n, key, states[i][key].windowStart)| < MAX_BUDGET_ENTRIES
    ensures key in states[n] && states[n][key] == states[i][key]
    decreases n
  {
    if i < n {
      var since := states[i][key].windowStart;
      MoreOthers(log, n - 1, n, key, since);
      SmallerSize(OthersSince(log, n - 1, key, since), OthersSince(log, n, key, since));
      RememberedUnlessCrowded(states, log, window, i, n - 1, key);
      assert RecordedAt(states, log, window, n - 1);
      if key !in states[n] {
        CrowdNeeded(states, log, window, n - 1, key);
        assert false;
      }
    }
  }

  // ----- The client bound among many keys -------------------------------

  /** While the key's window is open, fewer than 1024 others have failed in it. */
  ghost predicate UncrowdedAt(log: seq<Failure>, n: nat, key: string, window: nat)
    requires 0 < n <= |log|
  {
    var ts := Times(log, n, key);
    ts != [] && log[n - 1].time < SaturatingAdd(EntryOf(ts, window).windowStart, window) ==>
      |OthersSince(log, n, key, EntryOf(ts, window).windowStart)| < 1024
  }

  /** What the budget knows of a key at a time: nothing wrong, and everything
      while the key's window is open. */
  ghost predicate Knows(m: Budget, ts: seq<nat>, window: nat, key: string, at: nat) {
    && (ts == [] ==> key !in m)
    && (ts != [] && key in m ==> m[key] == EntryOf(ts, window))
    && (ts != [] && at < SaturatingAdd(EntryOf(ts, window).windowStart, window) ==> key in m)
  }

  lemma KnowsExhausted(m: Budget, ts: seq<nat>, limit: nat, window: nat, key: string, at: nat, now: nat)
    requires Knows(m, ts, window, key, at) && at <= now && limit <= U32_MAX
    ensures IsExhausted(m, key, limit, window, now) <==> Spent(ts, limit, window, now)
  {
  }

  lemma KnownBump(m: Budget, ts: seq<nat>, window: nat, key: string, at: nat, t: nat)
    requires Knows(m, ts, window, key, at) && at <= t
    ensures Bumped(m, key, window, t) == EntryOf(ts + [t], window)
  {
    if ts != [] && key !in m {
      var w := WindowOf(ts, window, |ts| - 1);
      WindowOfPrefix(ts, t, window, |ts| - 1);
      assert (ts + [t])[w] == ts[w];
    } else {
      BumpTracksKey(m, ts, window, key, t);
    }
  }

  /** A key evicted by its own failure is no newer than 1024 others. */
  lemma OwnCrowd(states: seq<Budget>, log: seq<Failure>, window: nat, n: nat)
    requires IsRun(states, log, window) && n < |log| && log[n].key !in states[n + 1]
    ensures |OthersSince(log, n + 1, log[n].key, Bumped(states[n], log[n].key, window, log[n].time).windowStart)|
         >= 1024
  {
    var m, key, t := states[n], log[n].key, log[n].time;
    var bumped, since := Bump(m, key, window, t), Bumped(m, key, window, t).windowStart;
    RunIsBounded(states, log, window, n);
    assert RecordedAt(states, log, window, n);
    if key in m {
      OldKeyBump(m, key, window, t);
      NothingEvicted(bumped, states[n + 1]);
      assert false;
    }
    assert |bumped| == |m| + 1 by {
      assert bumped.Keys == m.Keys + {key};
    }
    if |m| < MAX_BUDGET_ENTRIES {
      NothingEvicted(bumped, states[n + 1]);
      assert false;
    }
    OneEvicted(bumped, states[n + 1], key);
    RunOpened(states, log, window, n, key, since);
    forall k | k in m
      ensures k in OthersSince(log, n + 1, key, since)
    {
      assert k in states[n + 1];
    }
    SmallerSize(m.Keys, OthersSince(log, n + 1, key, since));
  }

  function TimeBefore(log: seq<Failure>, n: nat): nat
    requires n <= |log|
  {
    if n == 0 then 0 else log[n - 1].time
  }

  lemma KnowsOwn(states: seq<Budget>, log: seq<Failure>, window: nat, n: nat, key: string)
    requires IsRun(states, log, window) && InOrder(log) && n < |log| && log[n].key == key
    requires Knows(states[n], Times(log, n, key), window, key, TimeBefore(log, n))
    requires UncrowdedAt(log, n + 1, key, window)
    ensures Knows(states[n + 1], Times(log, n + 1, key), window, key, log[n].time)
  {
    KnownBump(states[n], Times(log, n, key), window, key, TimeBefore(log, n), log[n].time);
    assert RecordedAt(states, log, window, n);
    if key !in states[n + 1] {
      OwnCrowd(states, log, window, n);
    }
  }

  lemma KnowsOther(states: seq<Budget>, log: seq<Failure>, window: nat, n: nat, key: string)
    requires IsRun(states, log, window) && InOrder(log) && n < |log| && log[n].key != key
    requires Knows(states[n], Times(log, n, key), window, key, TimeBefore(log, n))
    requires UncrowdedAt(log, n + 1, key, window)
    ensures Knows(states[n + 1], Times(log, n + 1, key), window, key, log[n].time)
  {
    assert Times(log, n + 1, key) == Times(log, n, key);
    assert RecordedAt(states, log, window, n);
    if key in states[n] && key !in states[n + 1] {
      CrowdNeeded(states, log, window, n, key);
    }
  }

  ghost predicate Uncrowded(log: seq<Failure>, key: string, window: nat) {
    forall n | 0 < n <= |log| :: UncrowdedAt(log, n, key, window)
  }

  lemma {:induction false} RunKnows(states: seq<Budget>, log: seq<Failure>, window: nat, n: nat, key: string)
    requires IsRun(states, log, window) && InOrder(log) && n <= |log| && Uncrowded(log, key, window)
    ensures Knows(states[n], Times(log, n, key), window, key, TimeBefore(log, n))
  {
    if n > 0 {
      RunKnows(states, log, window, n - 1, key);
      assert UncrowdedAt(log, n, key, window);
      if log[n - 1].key == key {
        KnowsOwn(states, log, window, n - 1, key);
      } else {
        KnowsOther(states, log, window, n - 1, key);
      }
    }
  }

  /** Before each failure of the key its client asked and was not refused; other
      keys may do as they like. */
  ghost predicate AskedAt(states: seq<Budget>, log: seq<Failure>, checks: seq<nat>, limit: nat, window: nat,
                          key: string, i: nat)
    requires i < |log| == |checks| < |states|
  {
    log[i].key == key ==>
      TimeBefore(log, i) <= checks[i] <= log[i].time && !IsExhausted(states[i], key, limit, window, checks[i])
  }

  ghost predicate AlwaysAsked(states: seq<Budget>, log: seq<Failure>, checks: seq<nat>, limit: nat, window: nat,
                              key: string) {
    && IsRun(states, log, window) && InOrder(log) && |checks| == |log| && 1 <= limit <= U32_MAX
    && forall i | 0 <= i < |log| :: AskedAt(states, log, checks, limit, window, key, i)
  }

  lemma {:induction false} AskedWithinLimit(states: seq<Budget>, log: seq<Failure>, checks: seq<nat>, limit: nat,
                                            window: nat, key: string, n: nat)
    requires AlwaysAsked(states, log, checks, limit, window, key) && Uncrowded(log, key, window) && n <= |log|
    ensures WithinLimit(Times(log, n, key), limit, window)
  {
    if n > 0 {
      var i := n - 1;
      AskedWithinLimit(states, log, checks, limit, window, key, i);
      if log[i].key == key {
        assert AskedAt(states, log, checks, limit, window, key, i);
        RunKnows(states, log, window, i, key);
        KnowsExhausted(states[i], Times(log, i, key), limit, window, key, TimeBefore(log, i), checks[i]);
        WithinLimitSnoc(Times(log, i, key), log[i].time, checks[i], limit, window);
      } else {
        assert Times(log, n, key) == Times(log, i, key);
      }
    }
  }

  /** With any number of keys, a client that always asks stays within the bound
      before the last second, as long as fewer than 1024 other keys fail in each
      of its windows. */
  lemma ClientIsThrottledAmongMany(states: seq<Budget>, log: seq<Failure>, checks: seq<nat>, limit: nat, window: nat,
                                   key: string, from: nat)
    requires AlwaysAsked(states, log, checks, limit, window, key) && Uncrowded(log, key, window)
    requires forall i | 0 <= i < |log| && log[i].key == key :: log[i].time < U64_MAX
    ensures CountIn(Times(log, |log|, key), from, window) <= 2 * limit - 1
  {
    AskedWithinLimit(states, log, checks, limit, window, key, |log|);
    TimesOrdered(log, |log|, key);
    CountIsBounded(Times(log, |log|, key), limit, window, from);
  }

  lemma {:induction false} OthersAreKeys(log: seq<Failure>, n: nat, key: string, since: nat)
    requires n <= |log|
    ensures OthersSince(log, n, key, since) <= KeysOf(log, n) - {key}
  {
    if n > 0 {
      OthersAreKeys(log, n - 1, key, since);
    }
  }

  /** In particular at most 1024 keys never crowd one out. */
  lemma FewKeysNeverCrowd(log: seq<Failure>, key: string, window: nat)
    requires |KeysOf(log, |log|)| <= 1024
    ensures Uncrowded(log, key, window)
  {
    forall n | 0 < n <= |log|
      ensures UncrowdedAt(log, n, key, window)
    {
      var ts := Times(log, n, key);
      if ts != [] {
        FailedKeys(log, n, key);
        FewerKeys(log, n, |log|);
        OthersAreKeys(log, n, key, EntryOf(ts, window).windowStart);
        SmallerSize(OthersSince(log, n, key, EntryOf(ts, window).windowStart), KeysOf(log, n) - {key});
      }
    }
  }
}
