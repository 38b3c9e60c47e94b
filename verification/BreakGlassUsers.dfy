/** Break-glass users over whole runs of syncs. */
module BreakGlassUsers {
  import opened Wrappers
  import opened Directory
  import opened LdapSync
  import opened SyncTheorems
  import opened Lifecycle

  /** Marking sets the attribute and its source and nothing else. */
  lemma MarkedIsBreakGlass(u: User)
    ensures IsBreakGlass(MarkBreakGlass(u))
    ensures Attribute(MarkBreakGlass(u), Other("break_glass_source")) == Some(Str(BREAK_GLASS_SCHEMA))
    ensures MarkBreakGlass(u) == u.(enterprise := MarkBreakGlass(u).enterprise)
    ensures forall key | key !in {BreakGlass, Other("break_glass_source")} ::
              Attribute(MarkBreakGlass(u), key) == Attribute(u, key)
  {
  }

  /** No accepted call from `m` on lists the user's DN as disabled. */
  ghost predicate NeverListedDisabled(states: seq<Store>, calls: seq<Call>, m: nat, n: nat, u: User)
    requires |states| == |calls| + 1 && m <= n <= |calls|
  {
    forall i, k | m <= i < n && Accepts(states[i], calls[i].snap) && Owned(u, calls[i].snap)
                  && 0 <= k < |calls[i].snap.entries| && u.externalId == Some(calls[i].snap.entries[k].dn) ::
      calls[i].snap.entries[k].enabled
  }

  lemma BreakGlassKept(u: User, snap: Snapshot)
    requires IsBreakGlass(u)
    ensures IsBreakGlass(Reconcile(u, snap)) && SameKey(Reconcile(u, snap), u)
    ensures Listed(u, snap) || Reconcile(u, snap) == u
  {
    ReconcileKeepsKey(u, snap);
    if Listed(u, snap) {
      var e := EntryFor(snap.entries, u.externalId.value).value;
      ApplyLdapEntryProjects(u, snap.provider, e, snap.syncedAt);
      assert Attribute(Reconcile(u, snap), BreakGlass) == ProjectedAttribute(u, e, snap.syncedAt, BreakGlass);
    }
  }

  lemma CallKeepsBreakGlass(s: Store, t: Store, c: Call, id: string)
    requires CallStep(s, t, c) && id in s && IsBreakGlass(s[id]) && s[id].active
    requires Accepts(s, c.snap) && Owned(s[id], c.snap) ==>
               forall k | 0 <= k < |c.snap.entries| && s[id].externalId == Some(c.snap.entries[k].dn) ::
                 c.snap.entries[k].enabled
    ensures id in t && IsBreakGlass(t[id]) && t[id].active && SameKey(t[id], s[id])
  {
    if Accepts(s, c.snap) {
      assert t[id] == Reconcile(s[id], c.snap);
      BreakGlassKept(s[id], c.snap);
      if Listed(s[id], c.snap) {
        var e := EntryFor(c.snap.entries, s[id].externalId.value).value;
        var k :| 0 <= k < |c.snap.entries| && c.snap.entries[k] == e;
        ApplyLdapEntryProjects(s[id], c.snap.provider, e, c.snap.syncedAt);
      }
    }
  }

  /** A marked active user stays active and marked through every run of syncs
      that never lists it as disabled, however many leave it out. */
  lemma {:induction false} BreakGlassSurvives(states: seq<Store>, calls: seq<Call>, m: nat, n: nat, id: string, u: User)
    requires IsRun(states, calls) && m <= n <= |calls| && u.active
    requires id in states[m] && states[m][id] == MarkBreakGlass(u)
    requires NeverListedDisabled(states, calls, m, n, u)
    ensures id in states[n] && states[n][id].active && IsBreakGlass(states[n][id]) && SameKey(states[n][id], u)
    decreases n
  {
    if m < n {
      BreakGlassSurvives(states, calls, m, n - 1, id, u);
      assert StepAt(states, calls, n - 1);
      var (s, c) := (states[n - 1], calls[n - 1]);
      assert Owned(s[id], c.snap) == Owned(u, c.snap);
      CallKeepsBreakGlass(s, states[n], c, id);
    }
  }
}
