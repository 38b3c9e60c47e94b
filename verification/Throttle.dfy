/** A budget of failures per key within a fixed window. */
module Throttle {
  import opened Numbers

  const MAX_BUDGET_ENTRIES: nat := 1024

  datatype Entry = Entry(count: nat, windowStart: nat)

  type Budget = map<string, Entry>

  // ----- What the operations do -----------------------------------------

  predicate IsExhausted(m: Budget, key: string, limit: nat, window: nat, now: nat) {
    key in m && now < SaturatingAdd(m[key].windowStart, window) && m[key].count >= limit
  }

  /** The entry of a key once a failure at `now` is counted. */
  function Bumped(m: Budget, key: string, window: nat, now: nat): Entry {
    var entry := if key in m then m[key] else Entry(0, now);
    var current := if now >= SaturatingAdd(entry.windowStart, window) then Entry(0, now) else entry;
    current.(count := Min(current.count + 1, U32_MAX))
  }

  function Bump(m: Budget, key: string, window: nat, now: nat): Budget {
    m[key := Bumped(m, key, window, now)]
  }

  /** Only the excess over the bound is removed, and nothing removed is newer
      than anything kept. */
  ghost predicate Evicted(before: Budget, after: Budget) {
    && (forall key | key in after :: key in before && after[key] == before[key])
    && |after| == Min(|before|, MAX_BUDGET_ENTRIES)
    && forall removed, kept | removed in before && removed !in after && kept in after ::
         before[removed].windowStart <= before[kept].windowStart
  }

  // ----- The implementation ---------------------------------------------

  ghost predicate SortedKeys(keys: seq<string>, m: Budget) {
    && (forall k | 0 <= k < |keys| :: keys[k] in m)
    && (forall i, k | 0 <= i < k < |keys| :: keys[i] != keys[k])
    && (forall i, k | 0 <= i < k < |keys| :: m[keys[i]].windowStart <= m[keys[k]].windowStart)
  }

  /** Where a key goes in keys sorted by window start. */
  method FindPlace(keys: seq<string>, m: Budget, key: string) returns (p: nat)
    requires SortedKeys(keys, m) && key in m
    ensures p <= |keys|
    ensures forall k | 0 <= k < p :: m[keys[k]].windowStart <= m[key].windowStart
    ensures forall k | p <= k < |keys| :: m[key].windowStart <= m[keys[k]].windowStart
  {
    p := |keys|;
    while p > 0 && m[keys[p - 1]].windowStart > m[key].windowStart
      invariant p <= |keys|
      invariant forall k | p <= k < |keys| :: m[key].windowStart <= m[keys[k]].windowStart
    {
      p := p - 1;
    }
  }

  /** Puts a key into keys sorted by window start. */
  method InsertKey(keys: seq<string>, m: Budget, key: string) returns (longer: seq<string>)
    requires SortedKeys(keys, m) && key in m && key !in keys
    ensures SortedKeys(longer, m) && |longer| == |keys| + 1
    ensures forall k :: k in longer <==> k in keys || k == key
  {
    var p := FindPlace(keys, m, key);
    longer := keys[..p] + [key] + keys[p..];
    InsertedKeys(keys, p, key, longer);
    InsertedSorted(keys, m, key, p, longer);
  }

  lemma InsertedSorted(keys: seq<string>, m: Budget, key: string, p: nat, longer: seq<string>)
    requires SortedKeys(keys, m) && key in m && key !in keys && p <= |keys|
    requires longer == keys[..p] + [key] + keys[p..]
    requires forall k | 0 <= k < p :: m[keys[k]].windowStart <= m[key].windowStart
    requires forall k | p <= k < |keys| :: m[key].windowStart <= m[keys[k]].windowStart
    ensures SortedKeys(longer, m)
  {
    forall i, k | 0 <= i < k < |longer|
      ensures longer[i] in m && longer[k] in m && longer[i] != longer[k]
      ensures m[longer[i]].windowStart <= m[longer[k]].windowStart
    {
      var a := if i <= p then i else i - 1;
      var b := if k < p then k else k - 1;
      assert i != p ==> longer[i] == keys[a];
      assert k != p ==> longer[k] == keys[b];
      assert longer[p] == key;
    }
    assert |longer| == 1 ==> longer[0] == key;
  }

  lemma InsertedKeys(keys: seq<string>, p: nat, key: string, longer: seq<string>)
    requires p <= |keys| && longer == keys[..p] + [key] + keys[p..]
    ensures forall k :: k in longer <==> k in keys || k == key
  {
    assert keys == keys[..p] + keys[p..];
    assert longer[p] == key;
  }

  /** All keys, oldest window first; ties in any order. */
  method SortByStart(m: Budget) returns (keys: seq<string>)
    ensures SortedKeys(keys, m) && |keys| == |m|
    ensures forall key | key in m :: key in keys
  {
    keys := [];
    var rest := m.Keys;
    while rest != {}
      invariant SortedKeys(keys, m) && rest <= m.Keys
      invariant forall key | key in m :: key in keys || key in rest
      invariant forall key | key in keys :: key !in rest
      invariant |keys| + |rest| == |m|
      decreases |rest|
    {
      var key :| key in rest;
      keys := InsertKey(keys, m, key);
      rest := rest - {key};
    }
  }

  lemma FirstRemoved(m: Budget, r: Budget, oldest: seq<string>, excess: nat)
    requires SortedKeys(oldest, m) && excess <= |oldest|
    requires forall key | key in m :: key in oldest
    requires forall key | key in r :: key in m
    requires forall k | 0 <= k < |oldest| :: oldest[k] in r <==> k >= excess
    ensures forall removed, kept | removed in m && removed !in r && kept in r ::
              m[removed].windowStart <= m[kept].windowStart
  {
    forall removed, kept | removed in m && removed !in r && kept in r
      ensures m[removed].windowStart <= m[kept].windowStart
    {
      assert removed in oldest && kept in oldest;
      var i :| 0 <= i < |oldest| && oldest[i] == removed;
      var k :| 0 <= k < |oldest| && oldest[k] == kept;
      assert i < excess <= k;
    }
  }

  lemma RemoveOne(m: Budget, key: string)
    requires key in m
    ensures |m - {key}| == |m| - 1
  {
    assert (m - {key}).Keys == m.Keys - {key};
  }

  /** Removes the first `excess` keys. */
  method RemoveFirst(m: Budget, oldest: seq<string>, excess: nat) returns (r: Budget)
    requires SortedKeys(oldest, m) && excess <= |oldest|
    ensures |r| == |m| - excess
    ensures forall key | key in r :: key in m && r[key] == m[key]
    ensures forall k | 0 <= k < |oldest| :: oldest[k] in r <==> k >= excess
  {
    r := m;
    for i := 0 to excess
      invariant |r| == |m| - i
      invariant forall key | key in r :: key in m && r[key] == m[key]
      invariant forall k | 0 <= k < |oldest| :: oldest[k] in r <==> k >= i
    {
      RemoveOne(r, oldest[i]);
      r := r - {oldest[i]};
    }
  }

  method EvictOldest(m: Budget) returns (r: Budget)
    ensures Evicted(m, r)
  {
    r := m;
    if |m| > MAX_BUDGET_ENTRIES {
      var excess := |m| - MAX_BUDGET_ENTRIES;
      var oldest := SortByStart(m);
      r := RemoveFirst(m, oldest, excess);
      FirstRemoved(m, r, oldest, excess);
    }
  }

  class FailureBudget {
    var entries: Budget

    constructor ()
      ensures entries == map[]
    {
      entries := map[];
    }

    method Exhausted(key: string, limit: nat, window: nat, now: nat) returns (r: bool)
      ensures r == IsExhausted(entries, key, limit, window, now)
    {
      if key in entries && now < SaturatingAdd(entries[key].windowStart, window) {
        return entries[key].count >= limit;
      }
      return false;
    }

    method RecordFailure(key: string, limit: nat, window: nat, now: nat) returns (spent: bool)
      modifies this
      ensures Evicted(Bump(old(entries), key, window, now), entries)
      ensures |entries| <= MAX_BUDGET_ENTRIES
      ensures spent == (Bumped(old(entries), key, window, now).count >= limit)
    {
      var entry := if key in entries then entries[key] else Entry(0, now);
      if now >= SaturatingAdd(entry.windowStart, window) {
        entry := Entry(0, now);
      }
      entry := entry.(count := Min(entry.count + 1, U32_MAX));
      spent := entry.count >= limit;
      entries := EvictOldest(entries[key := entry]);
    }
  }
}
