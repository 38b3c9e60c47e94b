/** The failure budget seen as a function of the failures recorded. */
module FailureLog {
  import opened Numbers
  import opened Throttle

  datatype Failure = Failure(key: string, time: nat)

  // ----- One key --------------------------------------------------------

  /** The failure that opened the window which failure `k` fell into. */
  function WindowOf(ts: seq<nat>, window: nat, k: nat): (w: nat)
    requires k < |ts|
    ensures w <= k
  {
    if k == 0 then 0
    else
      var w := WindowOf(ts, window, k - 1);
      if ts[k] >= SaturatingAdd(ts[w], window) then k else w
  }

  /** The latest window is open at `now` and holds `limit` failures. */
  predicate Spent(ts: seq<nat>, limit: nat, window: nat, now: nat) {
    ts != [] &&
    var w := WindowOf(ts, window, |ts| - 1);
    now < SaturatingAdd(ts[w], window) && |ts| - w >= limit
  }

  function EntryOf(ts: seq<nat>, window: nat): Entry
    requires ts != []
  {
    var w := WindowOf(ts, window, |ts| - 1);
    Entry(Min(|ts| - w, U32_MAX), ts[w])
  }

  lemma {:induction false} WindowOfPrefix(ts: seq<nat>, t: nat, window: nat, k: nat)
    requires k < |ts|
    ensures WindowOf(ts + [t], window, k) == WindowOf(ts, window, k)
  {
    if k > 0 {
      WindowOfPrefix(ts, t, window, k - 1);
    }
  }

  // ----- The log --------------------------------------------------------

  /** When a key failed, among the first `n` failures. */
  function Times(log: seq<Failure>, n: nat, key: string): (ts: seq<nat>)
    requires n <= |log|
  {
    if n == 0 then []
    else Times(log, n - 1, key) + (if log[n - 1].key == key then [log[n - 1].time] else [])
  }

  function KeysOf(log: seq<Failure>, n: nat): set<string>
    requires n <= |log|
  {
    if n == 0 then {} else KeysOf(log, n - 1) + {log[n - 1].key}
  }

  ghost predicate RecordedAt(states: seq<Budget>, log: seq<Failure>, window: nat, i: nat)
    requires i < |log| < |states|
  {
    Evicted(Bump(states[i], log[i].key, window, log[i].time), states[i + 1])
  }

  /** The states a new budget goes through as the log is recorded. */
  ghost predicate IsRun(states: seq<Budget>, log: seq<Failure>, window: nat) {
    && |states| == |log| + 1 && states[0] == map[]
    && forall i | 0 <= i < |log| :: RecordedAt(states, log, window, i)
  }

  /** The budget holds, for each key that failed, what its failures amount to. */
  ghost predicate Tracks(m: Budget, log: seq<Failure>, n: nat, window: nat)
    requires n <= |log|
  {
    forall key :: TracksKey(m, Times(log, n, key), window, key)
  }

  ghost predicate TracksKey(m: Budget, ts: seq<nat>, window: nat, key: string) {
    (key in m <==> ts != []) && (key in m ==> m[key] == EntryOf(ts, window))
  }

  lemma BumpTracksKey(m: Budget, ts: seq<nat>, window: nat, key: string, now: nat)
    requires TracksKey(m, ts, window, key)
    ensures TracksKey(Bump(m, key, window, now), ts + [now], window, key)
  {
    var longer := ts + [now];
    if ts != [] {
      WindowOfPrefix(ts, now, window, |ts| - 1);
    }
    assert longer[|ts|] == now;
  }

  lemma BumpTracks(m: Budget, log: seq<Failure>, n: nat, window: nat)
    requires n < |log| && Tracks(m, log, n, window)
    ensures Tracks(Bump(m, log[n].key, window, log[n].time), log, n + 1, window)
  {
    var bumped, next := Bump(m, log[n].key, window, log[n].time), n + 1;
    forall key
      ensures TracksKey(bumped, Times(log, next, key), window, key)
    {
      assert TracksKey(m, Times(log, n, key), window, key);
      if key == log[n].key {
        BumpTracksKey(m, Times(log, n, key), window, key, log[n].time);
      } else {
        assert Times(log, n + 1, key) == Times(log, n, key);
      }
    }
  }

  lemma {:induction false} FailedKeys(log: seq<Failure>, n: nat, key: string)
    requires n <= |log|
    ensures Times(log, n, key) != [] <==> key in KeysOf(log, n)
  {
    if n > 0 {
      FailedKeys(log, n - 1, key);
    }
  }

  /** Within the bound nothing is evicted. */
  lemma NothingEvicted(m: Budget, after: Budget)
    requires Evicted(m, after) && |m| <= MAX_BUDGET_ENTRIES
    ensures after == m
  {
    assert after.Keys <= m.Keys;
    SameSize(after.Keys, m.Keys);
  }

  lemma SameSize(a: set<string>, b: set<string>)
    requires a <= b && |a| == |b|
    ensures a == b
  {
    assert |b - a| == |b| - |a|;
  }

  lemma SmallerSize(a: set<string>, b: set<string>)
    requires a <= b
    ensures |a| <= |b|
  {
    assert |b - a| == |b| - |a|;
  }

  lemma TrackedSize(m: Budget, log: seq<Failure>, n: nat, window: nat)
    requires n <= |log| && Tracks(m, log, n, window)
    ensures |m| <= |KeysOf(log, n)|
  {
    forall key | key in m
      ensures key in KeysOf(log, n)
    {
      assert TracksKey(m, Times(log, n, key), window, key);
      FailedKeys(log, n, key);
    }
    SmallerSize(m.Keys, KeysOf(log, n));
  }

  lemma {:induction false} RunTracks(states: seq<Budget>, log: seq<Failure>, window: nat, n: nat)
    requires IsRun(states, log, window) && n <= |log| && |KeysOf(log, n)| <= MAX_BUDGET_ENTRIES
    ensures Tracks(states[n], log, n, window)
  {
    if n > 0 {
      SmallerSize(KeysOf(log, n - 1), KeysOf(log, n));
      RunTracks(states, log, window, n - 1);
      assert RecordedAt(states, log, window, n - 1);
      BumpTracks(states[n - 1], log, n - 1, window);
      var bumped := Bump(states[n - 1], log[n - 1].key, window, log[n - 1].time);
      TrackedSize(bumped, log, n, window);
      NothingEvicted(bumped, states[n]);
    }
  }

  /** With at most 1024 keys, `exhausted` is a function of the failure log: the
      window opened by the last opening failure is open and full. */
  lemma ExhaustedIsOfLog(states: seq<Budget>, log: seq<Failure>, window: nat, n: nat, key: string, limit: nat, now: nat)
    requires IsRun(states, log, window) && n <= |log| && |KeysOf(log, n)| <= 1024
    requires limit <= U32_MAX
    ensures IsExhausted(states[n], key, limit, window, now) <==> Spent(Times(log, n, key), limit, window, now)
  {
    RunTracks(states, log, window, n);
    assert TracksKey(states[n], Times(log, n, key), window, key);
  }

  /** With any number of keys the budget stays within its bound. */
  lemma {:induction false} RunIsBounded(states: seq<Budget>, log: seq<Failure>, window: nat, n: nat)
    requires IsRun(states, log, window) && n <= |log|
    ensures |states[n]| <= 1024
  {
    if n > 0 {
      assert RecordedAt(states, log, window, n - 1);
    }
  }

  // ----- A client that checks before each attempt -----------------------

  /** How many failures fall into the `length` seconds from `from`. */
  function CountIn(ts: seq<nat>, from: nat, length: nat): nat {
    if ts == [] then 0
    else
      var last := ts[|ts| - 1];
      CountIn(ts[..|ts| - 1], from, length) + (if from <= last < from + length then 1 else 0)
  }

  ghost predicate Ordered(ts: seq<nat>) {
    forall i, k | 0 <= i <= k < |ts| :: ts[i] <= ts[k]
  }

  /** No window holds more than `limit` failures. */
  ghost predicate WithinLimit(ts: seq<nat>, limit: nat, window: nat) {
    forall k | 0 <= k < |ts| :: k - WindowOf(ts, window, k) < limit
  }

  lemma {:induction false} WindowOpens(ts: seq<nat>, window: nat, k: nat)
    requires k < |ts|
    ensures var w := WindowOf(ts, window, k);
            w > 0 ==> ts[w] >= SaturatingAdd(ts[WindowOf(ts, window, w - 1)], window)
  {
    if k > 0 {
      WindowOpens(ts, window, k - 1);
    }
  }

  lemma OrderedAt(ts: seq<nat>, i: nat, k: nat)
    requires Ordered(ts) && i < |ts| && k < |ts|
    ensures i <= k ==> ts[i] <= ts[k]
  {
  }

  /** Failures less than a window apart are at most twice the limit less one. */
  lemma CloseFailures(ts: seq<nat>, limit: nat, window: nat, i: nat, j: nat)
    requires Ordered(ts) && WithinLimit(ts, limit, window) && i <= j < |ts|
    requires ts[j] < U64_MAX && ts[j] < ts[i] + window
    ensures j - i + 1 <= 2 * limit - 1
  {
    var w := WindowOf(ts, window, j);
    assert j - w < limit;
    if w > i {
      WindowOpens(ts, window, j);
      var v := WindowOf(ts, window, w - 1);
      assert (w - 1) - v < limit;
      OrderedAt(ts, w, j);
      OrderedAt(ts, i, v);
    }
  }

  lemma {:induction false} CountedSpan(ts: seq<nat>, from: nat, length: nat) returns (i: nat, j: nat)
    requires CountIn(ts, from, length) > 0
    ensures i <= j < |ts| && CountIn(ts, from, length) <= j - i + 1
    ensures from <= ts[i] < from + length && from <= ts[j] < from + length
  {
    var n := |ts| - 1;
    var last := ts[n];
    if CountIn(ts[..n], from, length) == 0 {
      i, j := n, n;
    } else {
      i, j := CountedSpan(ts[..n], from, length);
      if from <= last < from + length {
        j := n;
      }
    }
  }

  lemma CountIsBounded(ts: seq<nat>, limit: nat, window: nat, from: nat)
    requires Ordered(ts) && WithinLimit(ts, limit, window) && limit >= 1
    requires forall k | 0 <= k < |ts| :: ts[k] < U64_MAX
    ensures CountIn(ts, from, window) <= 2 * limit - 1
  {
    if CountIn(ts, from, window) > 0 {
      var i, j := CountedSpan(ts, from, window);
      CloseFailures(ts, limit, window, i, j);
    }
  }

  lemma WithinLimitSnoc(ts: seq<nat>, t: nat, check: nat, limit: nat, window: nat)
    requires WithinLimit(ts, limit, window) && limit >= 1
    requires check <= t && !Spent(ts, limit, window, check)
    ensures WithinLimit(ts + [t], limit, window)
  {
    var longer := ts + [t];
    forall k | 0 <= k < |longer|
      ensures k - WindowOf(longer, window, k) < limit
    {
      if k < |ts| {
        WindowOfPrefix(ts, t, window, k);
      } else if k > 0 {
        WindowOfPrefix(ts, t, window, k - 1);
      }
    }
  }

  /** Before each failure the client asked and the budget was not exhausted. */
  ghost predicate CheckedAt(states: seq<Budget>, log: seq<Failure>, checks: seq<nat>, limit: nat, window: nat, i: nat)
    requires i < |log| == |checks| < |states|
  {
    && checks[i] <= log[i].time && (i > 0 ==> log[i - 1].time <= checks[i])
    && !IsExhausted(states[i], log[i].key, limit, window, checks[i])
  }

  ghost predicate IsCheckedRun(states: seq<Budget>, log: seq<Failure>, checks: seq<nat>, limit: nat, window: nat) {
    && IsRun(states, log, window) && |checks| == |log| && 1 <= limit <= U32_MAX
    && |KeysOf(log, |log|)| <= 1024
    && forall i | 0 <= i < |log| :: CheckedAt(states, log, checks, limit, window, i)
  }

  lemma {:induction false} FewerKeys(log: seq<Failure>, n: nat, m: nat)
    requires n <= m <= |log|
    ensures |KeysOf(log, n)| <= |KeysOf(log, m)|
  {
    if n < m {
      FewerKeys(log, n, m - 1);
      SmallerSize(KeysOf(log, m - 1), KeysOf(log, m));
    }
  }

  lemma {:induction false} CheckedWithinLimit(states: seq<Budget>, log: seq<Failure>, checks: seq<nat>, limit: nat,
                                              window: nat, n: nat, key: string)
    requires IsCheckedRun(states, log, checks, limit, window) && n <= |log|
    ensures WithinLimit(Times(log, n, key), limit, window)
  {
    if n > 0 {
      CheckedWithinLimit(states, log, checks, limit, window, n - 1, key);
      assert CheckedAt(states, log, checks, limit, window, n - 1);
      FewerKeys(log, n - 1, |log|);
      if log[n - 1].key == key {
        ExhaustedIsOfLog(states, log, window, n - 1, key, limit, checks[n - 1]);
        WithinLimitSnoc(Times(log, n - 1, key), log[n - 1].time, checks[n - 1], limit, window);
      } else {
        assert Times(log, n, key) == Times(log, n - 1, key);
      }
    }
  }

  ghost predicate InOrder(log: seq<Failure>) {
    forall i, k | 0 <= i <= k < |log| :: log[i].time <= log[k].time
  }

  lemma {:induction false} CheckedInOrder(states: seq<Budget>, log: seq<Failure>, checks: seq<nat>, limit: nat,
                                          window: nat, i: nat, k: nat)
    requires IsCheckedRun(states, log, checks, limit, window) && i <= k < |log|
    ensures log[i].time <= log[k].time
    decreases k
  {
    if i < k {
      CheckedInOrder(states, log, checks, limit, window, i, k - 1);
      assert CheckedAt(states, log, checks, limit, window, k);
    }
  }

  /** A key's failure times are those of its failures, in order. */
  lemma {:induction false} TimesOrdered(log: seq<Failure>, n: nat, key: string)
    requires InOrder(log) && n <= |log|
    ensures Ordered(Times(log, n, key))
    ensures forall k | 0 <= k < |Times(log, n, key)| ::
              exists i :: 0 <= i < n && log[i] == Failure(key, Times(log, n, key)[k])
  {
    if n > 0 {
      TimesOrdered(log, n - 1, key);
      var last := log[n - 1];
      assert last.key == key ==> last == Failure(key, last.time);
    }
  }

  /** A sequential client that checks before each attempt records at most
      `2 * limit - 1` failures of a key in any `window` seconds, as long as the
      clock has not reached the last representable second. */
  lemma ClientIsThrottled(states: seq<Budget>, log: seq<Failure>, checks: seq<nat>, limit: nat, window: nat,
                          key: string, from: nat)
    requires IsCheckedRun(states, log, checks, limit, window)
    requires forall i | 0 <= i < |log| :: log[i].time < U64_MAX
    ensures CountIn(Times(log, |log|, key), from, window) <= 2 * limit - 1
  {
    CheckedWithinLimit(states, log, checks, limit, window, |log|, key);
    forall i, k | 0 <= i <= k < |log|
      ensures log[i].time <= log[k].time
    {
      CheckedInOrder(states, log, checks, limit, window, i, k);
    }
    TimesOrdered(log, |log|, key);
    CountIsBounded(Times(log, |log|, key), limit, window, from);
  }

  // ----- The bound is reached -------------------------------------------

  /** A log of one key's failures. */
  function LogOf(key: string, ts: seq<nat>): (log: seq<Failure>)
    ensures |log| == |ts| && forall i | 0 <= i < |ts| :: log[i] == Failure(key, ts[i])
  {
    seq(|ts|, i requires 0 <= i < |ts| => Failure(key, ts[i]))
  }

  lemma {:induction false} TimesOfLog(key: string, ts: seq<nat>, n: nat)
    requires n <= |ts|
    ensures Times(LogOf(key, ts), n, key) == ts[..n]
    ensures KeysOf(LogOf(key, ts), n) <= {key}
  {
    if n > 0 {
      TimesOfLog(key, ts, n - 1);
      assert ts[..n - 1] + [ts[n - 1]] == ts[..n];
    }
  }

  lemma FewKeys(key: string, ts: seq<nat>)
    ensures |KeysOf(LogOf(key, ts), |ts|)| <= MAX_BUDGET_ENTRIES
    ensures Times(LogOf(key, ts), |ts|, key) == ts
  {
    TimesOfLog(key, ts, |ts|);
    assert ts[..|ts|] == ts;
    SmallerSize(KeysOf(LogOf(key, ts), |ts|), {key});
  }

  /** One unexhausted check and failure of a key at one time. */
  ghost predicate StepOk(before: Budget, after: Budget, key: string, t: nat, limit: nat, window: nat) {
    Evicted(Bump(before, key, window, t), after) && !IsExhausted(before, key, limit, window, t)
  }

  ghost predicate StepOkAt(states: seq<Budget>, ts: seq<nat>, key: string, limit: nat, window: nat, i: nat)
    requires i < |ts| < |states|
  {
    StepOk(states[i], states[i + 1], key, ts[i], limit, window)
  }

  lemma OneKeyRun(states: seq<Budget>, ts: seq<nat>, key: string, limit: nat, window: nat)
    requires |states| == |ts| + 1 && states[0] == map[] && 1 <= limit <= U32_MAX && Ordered(ts)
    requires forall i | 0 <= i < |ts| :: StepOkAt(states, ts, key, limit, window, i)
    ensures IsCheckedRun(states, LogOf(key, ts), ts, limit, window)
    ensures Times(LogOf(key, ts), |ts|, key) == ts
  {
    var log := LogOf(key, ts);
    forall i | 0 <= i < |log|
      ensures RecordedAt(states, log, window, i) && CheckedAt(states, log, ts, limit, window, i)
    {
      assert StepOkAt(states, ts, key, limit, window, i);
    }
    FewKeys(key, ts);
  }

  lemma {:induction false} CountSkipsFirst(ts: seq<nat>, from: nat, length: nat, n: nat)
    requires n < |ts| && !(from <= ts[0] < from + length)
    requires forall i | 0 < i < |ts| :: from <= ts[i] < from + length
    ensures CountIn(ts[..n + 1], from, length) == n
  {
    if n > 0 {
      CountSkipsFirst(ts, from, length, n - 1);
      assert ts[..n + 1][..n] == ts[..n];
    } else {
      assert ts[..1] == [ts[0]] && ts[..1][..0] == [];
    }
  }

  /** One failure, the rest of the limit just before the window ends, and a
      whole limit as it ends. */
  function BurstTime(limit: nat, window: nat, i: nat): nat
    requires window > 0
  {
    if i == 0 then 0 else if i < limit then window - 1 else window
  }

  function BurstState(key: string, limit: nat, window: nat, i: nat): Budget {
    if i == 0 then map[]
    else if i <= limit then map[key := Entry(i, 0)]
    else map[key := Entry(i - limit, window)]
  }

  lemma BurstStep(key: string, limit: nat, window: nat, i: nat)
    requires 1 <= limit <= U32_MAX && 2 <= window < U64_MAX && i < 2 * limit
    ensures Evicted(Bump(BurstState(key, limit, window, i), key, window, BurstTime(limit, window, i)),
                    BurstState(key, limit, window, i + 1))
    ensures !IsExhausted(BurstState(key, limit, window, i), key, limit, window, BurstTime(limit, window, i))
  {
    assert Bump(BurstState(key, limit, window, i), key, window, BurstTime(limit, window, i))
        == BurstState(key, limit, window, i + 1);
  }

  function BurstTimes(limit: nat, window: nat): (ts: seq<nat>)
    requires window > 0
    ensures |ts| == 2 * limit && forall i | 0 <= i < |ts| :: ts[i] == BurstTime(limit, window, i)
  {
    seq(2 * limit, i requires 0 <= i => BurstTime(limit, window, i))
  }

  function BurstStates(key: string, limit: nat, window: nat): (states: seq<Budget>)
    ensures |states| == 2 * limit + 1 && forall i | 0 <= i < |states| :: states[i] == BurstState(key, limit, window, i)
  {
    seq(2 * limit + 1, i requires 0 <= i => BurstState(key, limit, window, i))
  }

  lemma BurstCount(limit: nat, window: nat)
    requires limit >= 1 && window >= 2
    ensures CountIn(BurstTimes(limit, window), window - 1, window) == 2 * limit - 1
  {
    var ts := BurstTimes(limit, window);
    CountSkipsFirst(ts, window - 1, window, 2 * limit - 1);
    assert ts[..2 * limit] == ts;
  }

  lemma BurstSteps(key: string, limit: nat, window: nat, i: nat)
    requires 1 <= limit <= U32_MAX && 2 <= window < U64_MAX && i < 2 * limit
    ensures StepOkAt(BurstStates(key, limit, window), BurstTimes(limit, window), key, limit, window, i)
  {
    BurstStep(key, limit, window, i);
  }

  /** Some client that always checks does record `2 * limit - 1` failures within
      one window's length. */
  lemma BoundIsReached(key: string, limit: nat, window: nat)
    returns (states: seq<Budget>, log: seq<Failure>, checks: seq<nat>)
    requires 1 <= limit <= U32_MAX && 2 <= window < U64_MAX
    ensures IsCheckedRun(states, log, checks, limit, window)
    ensures forall i | 0 <= i < |log| :: log[i].time < U64_MAX
    ensures CountIn(Times(log, |log|, key), window - 1, window) == 2 * limit - 1
  {
    checks, states := BurstTimes(limit, window), BurstStates(key, limit, window);
    log := LogOf(key, checks);
    forall i | 0 <= i < |checks|
      ensures StepOkAt(states, checks, key, limit, window, i)
    {
      BurstSteps(key, limit, window, i);
    }
    OneKeyRun(states, checks, key, limit, window);
    BurstCount(limit, window);
  }

  // ----- The last representable second ----------------------------------

  /** At the last second the budget is never exhausted, whatever it holds. */
  lemma NeverExhaustedAtTheEnd(m: Budget, key: string, limit: nat, window: nat)
    ensures !IsExhausted(m, key, limit, window, U64_MAX)
  {
  }

  /** A check right after a failure says what recording it returned, unless the
      failure's own entry was evicted, the window is empty, or it is the last
      second. */
  lemma SpentMeansExhausted(m: Budget, after: Budget, key: string, limit: nat, window: nat, now: nat)
    requires Evicted(Bump(m, key, window, now), after) && (key in m ==> m[key].windowStart <= now)
    ensures IsExhausted(after, key, limit, window, now) <==>
              Bumped(m, key, window, now).count >= limit && key in after && window > 0 && now < U64_MAX
  {
  }

  lemma {:induction false} CountAll(n: nat, t: nat, length: nat)
    requires length > 0
    ensures CountIn(seq(n, _ => t), t, length) == n
  {
    if n > 0 {
      CountAll(n - 1, t, length);
      assert seq(n, _ => t)[..n - 1] == seq(n - 1, _ => t);
    }
  }

  function EndState(key: string, i: nat): Budget {
    if i == 0 then map[] else map[key := Entry(1, U64_MAX)]
  }

  /** So there a client that always checks records any number of failures. */
  lemma UnboundedAtTheEnd(key: string, limit: nat, window: nat, n: nat)
    returns (states: seq<Budget>, log: seq<Failure>, checks: seq<nat>)
    requires 1 <= limit <= U32_MAX && window > 0
    ensures IsCheckedRun(states, log, checks, limit, window)
    ensures forall i | 0 <= i < |log| :: log[i].time == U64_MAX
    ensures CountIn(Times(log, |log|, key), U64_MAX, window) == n
  {
    checks := seq(n, _ => U64_MAX);
    states := seq(n + 1, i requires 0 <= i => EndState(key, i));
    log := LogOf(key, checks);
    forall i | 0 <= i < |checks|
      ensures StepOkAt(states, checks, key, limit, window, i)
    {
      assert Bump(EndState(key, i), key, window, U64_MAX) == EndState(key, i + 1);
      NeverExhaustedAtTheEnd(EndState(key, i), key, limit, window);
    }
    OneKeyRun(states, checks, key, limit, window);
    CountAll(n, U64_MAX, window);
  }

  ghost predicate EndsBy(log: seq<Failure>, latest: nat) {
    forall i | 0 <= i < |log| :: log[i].time <= latest
  }

  /** Every client that always checks, on a run that ends by `latest`, stays
      within the bound. */
  ghost predicate AllThrottled(limit: nat, window: nat, latest: nat) {
    forall states, log, checks, key, from |
      IsCheckedRun(states, log, checks, limit, window) && EndsBy(log, latest) ::
      CountIn(Times(log, |log|, key), from, window) <= 2 * limit - 1
  }

  /** The bound holds up to a time exactly when that is not the last second. */
  lemma ThrottledIff(limit: nat, window: nat, latest: nat)
    requires 1 <= limit <= U32_MAX && window > 0 && latest <= U64_MAX
    ensures AllThrottled(limit, window, latest) <==> latest < U64_MAX
  {
    if latest < U64_MAX {
      forall states, log, checks, key, from |
        IsCheckedRun(states, log, checks, limit, window) && EndsBy(log, latest)
        ensures CountIn(Times(log, |log|, key), from, window) <= 2 * limit - 1
      {
        ClientIsThrottled(states, log, checks, limit, window, key, from);
      }
    } else {
      var states, log, checks := UnboundedAtTheEnd("", limit, window, 2 * limit);
      assert CountIn(Times(log, |log|, ""), U64_MAX, window) == 2 * limit;
    }
  }
}
