/** Sessions on several instances over one shared cache: every interleaving of
    the shared and local halves of put, delete and get. */
module SharedSessions {
  import opened Wrappers
  import opened Caches
  import opened Numbers

  type Instance = nat

  /** The half of a call that is still to come. */
  datatype Pending =
    | LocalPut(inst: Instance, id: string, value: Bytes, ttl: nat)
    | LocalDelete(inst: Instance, id: string)
    | SharedGet(inst: Instance, id: string)

  /** What can be observed. `Served` records the live shared value beside the
      value that was returned. */
  datatype Observation =
    | WroteLocal(inst: Instance, id: string, value: Bytes, at: nat)
    | DroppedLocal(inst: Instance, id: string)
    | Served(inst: Instance, id: string, value: Bytes, at: nat, shared: Option<Bytes>)

  datatype State = State(
    clock: nat,
    shared: map<string, Entry>,
    local: map<Instance, map<string, Entry>>,
    pending: multiset<Pending>,
    log: seq<Observation>)

  datatype Step =
    | Tick(seconds: nat)
    | BeginPut(inst: Instance, id: string, value: Bytes, ttl: nat)
    | EndPut(call: Pending)
    | BeginDelete(inst: Instance, id: string)
    | EndDelete(call: Pending)
    | GetLocal(inst: Instance, id: string)
    | EndGet(call: Pending)
    | Evict(inst: Instance, id: string)

  function Table(s: State, inst: Instance): map<string, Entry> {
    if inst in s.local then s.local[inst] else map[]
  }

  predicate SubTable(a: map<string, Entry>, b: map<string, Entry>) {
    forall k | k in a :: k in b && a[k] == b[k]
  }

  predicate Initial(s: State) {
    s.shared == map[] && s.local == map[] && s.pending == multiset{} && s.log == []
  }

  /** `t` may follow `s`. A put into a local table may push other entries out. */
  ghost predicate Next(s: State, t: State, step: Step) {
    match step
    case Tick(d) => t == s.(clock := s.clock + d)
    case BeginPut(inst, id, value, ttl) =>
      t == s.(shared := s.shared[id := Entry(value, s.clock + ttl)],
              pending := s.pending + multiset{LocalPut(inst, id, value, ttl)})
    case EndPut(call) =>
      && call in s.pending && call.LocalPut?
      && var e := Entry(call.value, s.clock + Min(call.ttl, SESSION_L1_TTL_SECONDS));
         && t == s.(pending := s.pending - multiset{call}, local := t.local,
                    log := s.log + [WroteLocal(call.inst, call.id, call.value, s.clock)])
         && (forall i | i != call.inst :: Table(t, i) == Table(s, i))
         && SubTable(Table(t, call.inst), Table(s, call.inst)[call.id := e])
    case BeginDelete(inst, id) =>
      t == s.(shared := s.shared - {id}, pending := s.pending + multiset{LocalDelete(inst, id)})
    case EndDelete(call) =>
      && call in s.pending && call.LocalDelete?
      && t == s.(pending := s.pending - multiset{call},
                 local := s.local[call.inst := Table(s, call.inst) - {call.id}],
                 log := s.log + [DroppedLocal(call.inst, call.id)])
    case GetLocal(inst, id) =>
      (match Live(Table(s, inst), id, s.clock)
       case Some(v) => t == s.(log := s.log + [Served(inst, id, v, s.clock, Live(s.shared, id, s.clock))])
       case None => t == s.(local := s.local[inst := Table(s, inst) - {id}],
                            pending := s.pending + multiset{SharedGet(inst, id)}))
    case EndGet(call) =>
      && call in s.pending && call.SharedGet?
      && var u := s.(pending := s.pending - multiset{call});
         (match Live(s.shared, call.id, s.clock)
          case Some(v) => t == u.(log := s.log + [Served(call.inst, call.id, v, s.clock, Some(v))])
          case None => t == u.(shared := s.shared - {call.id}))
    case Evict(inst, id) => t == s.(local := s.local[inst := Table(s, inst) - {id}])
  }

  ghost predicate StepAt(states: seq<State>, steps: seq<Step>, i: nat)
    requires |states| == |steps| + 1 && i < |steps|
  {
    Next(states[i], states[i + 1], steps[i])
  }

  ghost predicate IsRun(states: seq<State>, steps: seq<Step>) {
    && |states| == |steps| + 1 && Initial(states[0])
    && forall i {:trigger StepAt(states, steps, i)} | 0 <= i < |steps| :: StepAt(states, steps, i)
  }

  // ----- The staleness bound --------------------------------------------

  predicate TouchesLocal(o: Observation, inst: Instance, id: string) {
    (o.WroteLocal? || o.DroppedLocal?) && o.inst == inst && o.id == id
  }

  /** Observation `j` is this instance's last local write of the session before
      `k`, and it wrote this value. */
  ghost predicate LastWrite(log: seq<Observation>, j: nat, k: nat, inst: Instance, id: string, value: Bytes, at: nat) {
    && j < k <= |log| && log[j] == WroteLocal(inst, id, value, at)
    && forall m | j < m < k :: !TouchesLocal(log[m], inst, id)
  }

  /** A value that is not the live shared one is served only by the instance
      that wrote it to its own local level, as its latest local change to that
      session, and less than 30 seconds later. */
  ghost predicate Excused(log: seq<Observation>, k: nat)
    requires k < |log| && log[k].Served?
  {
    log[k].shared == Some(log[k].value) ||
    exists j: nat, at: nat :: LastWrite(log, j, k, log[k].inst, log[k].id, log[k].value, at)
                    && at <= log[k].at < at + 30
  }

  ghost predicate AllExcused(log: seq<Observation>) {
    forall k | 0 <= k < |log| && log[k].Served? :: Excused(log, k)
  }

  /** A local entry stems from the latest local write, and expires in time. */
  ghost predicate Backed(s: State, inst: Instance, id: string, e: Entry) {
    exists j: nat, at: nat :: LastWrite(s.log, j, |s.log|, inst, id, e.value, at)
                    && at <= s.clock && e.expiresAt <= at + SESSION_L1_TTL_SECONDS
  }

  ghost predicate Inv(s: State) {
    && AllExcused(s.log)
    && forall inst, id | id in Table(s, inst) :: Backed(s, inst, id, Table(s, inst)[id])
  }

  lemma BackedGrows(s: State, t: State, inst: Instance, id: string, e: Entry)
    requires Backed(s, inst, id, e) && s.clock <= t.clock
    requires t.log == s.log ||
             (|t.log| == |s.log| + 1 && t.log[..|s.log|] == s.log && !TouchesLocal(t.log[|s.log|], inst, id))
    ensures Backed(t, inst, id, e)
  {
    var j: nat, at: nat :| LastWrite(s.log, j, |s.log|, inst, id, e.value, at)
                 && at <= s.clock && e.expiresAt <= at + SESSION_L1_TTL_SECONDS;
    forall m | j < m < |t.log| ensures !TouchesLocal(t.log[m], inst, id) {
      if m < |s.log| {
        assert t.log[m] == s.log[m];
      }
    }
    assert t.log[j] == s.log[j];
    assert LastWrite(t.log, j, |t.log|, inst, id, e.value, at);
  }

  lemma ExcusedGrows(log: seq<Observation>, o: Observation, k: nat)
    requires k < |log| && log[k].Served? && Excused(log, k)
    ensures Excused(log + [o], k)
  {
    var longer := log + [o];
    assert longer[k] == log[k];
    if log[k].shared != Some(log[k].value) {
      var j: nat, at: nat :| LastWrite(log, j, k, log[k].inst, log[k].id, log[k].value, at)
                   && at <= log[k].at < at + 30;
      assert forall m | j <= m < k :: longer[m] == log[m];
      assert LastWrite(longer, j, k, log[k].inst, log[k].id, log[k].value, at);
    }
  }

  lemma AllExcusedGrows(log: seq<Observation>, o: Observation)
    requires AllExcused(log) && (o.Served? ==> Excused(log + [o], |log|))
    ensures AllExcused(log + [o])
  {
    forall k | 0 <= k < |log + [o]| && (log + [o])[k].Served? ensures Excused(log + [o], k) {
      if k < |log| {
        ExcusedGrows(log, o, k);
      }
    }
  }

  lemma LocalServeExcused(s: State, inst: Instance, id: string)
    requires Inv(s) && Live(Table(s, inst), id, s.clock).Some?
    ensures var v := Live(Table(s, inst), id, s.clock).value;
            Excused(s.log + [Served(inst, id, v, s.clock, Live(s.shared, id, s.clock))], |s.log|)
  {
    var e := Table(s, inst)[id];
    var o := Served(inst, id, e.value, s.clock, Live(s.shared, id, s.clock));
    var longer := s.log + [o];
    assert Backed(s, inst, id, e);
    var j: nat, at: nat :| LastWrite(s.log, j, |s.log|, inst, id, e.value, at)
                 && at <= s.clock && e.expiresAt <= at + SESSION_L1_TTL_SECONDS;
    assert forall m | 0 <= m < |s.log| :: longer[m] == s.log[m];
    assert LastWrite(longer, j, |s.log|, inst, id, e.value, at);
  }

  lemma InvKeeps(s: State, t: State)
    requires Inv(s) && s.clock <= t.clock && t.log == s.log
    requires forall inst :: SubTable(Table(t, inst), Table(s, inst))
    ensures Inv(t)
  {
    forall inst, id | id in Table(t, inst) ensures Backed(t, inst, id, Table(t, inst)[id]) {
      assert SubTable(Table(t, inst), Table(s, inst));
      BackedGrows(s, t, inst, id, Table(t, inst)[id]);
    }
  }

  lemma InvServe(s: State, t: State, o: Observation)
    requires Inv(s) && t.clock == s.clock && t.log == s.log + [o] && o.Served? && Excused(t.log, |s.log|)
    requires forall inst :: SubTable(Table(t, inst), Table(s, inst))
    ensures Inv(t)
  {
    AllExcusedGrows(s.log, o);
    forall inst, id | id in Table(t, inst) ensures Backed(t, inst, id, Table(t, inst)[id]) {
      assert SubTable(Table(t, inst), Table(s, inst));
      BackedGrows(s, t, inst, id, Table(t, inst)[id]);
    }
  }

  lemma InvEndPut(s: State, t: State, call: Pending)
    requires Inv(s) && Next(s, t, EndPut(call))
    ensures Inv(t)
  {
    var o := WroteLocal(call.inst, call.id, call.value, s.clock);
    AllExcusedGrows(s.log, o);
    forall inst, id | id in Table(t, inst) ensures Backed(t, inst, id, Table(t, inst)[id]) {
      if inst == call.inst && id == call.id {
        assert LastWrite(t.log, |s.log|, |t.log|, inst, id, call.value, s.clock);
      } else {
        BackedGrows(s, t, inst, id, Table(t, inst)[id]);
      }
    }
  }

  lemma LocalShrinks(s: State, t: State, inst: Instance, id: string)
    requires t.local == s.local || t.local == s.local[inst := Table(s, inst) - {id}]
    ensures forall i :: SubTable(Table(t, i), Table(s, i))
    ensures t.local != s.local ==> id !in Table(t, inst)
  {
  }

  lemma InvEndDelete(s: State, t: State, call: Pending)
    requires Inv(s) && Next(s, t, EndDelete(call))
    ensures Inv(t)
  {
    AllExcusedGrows(s.log, DroppedLocal(call.inst, call.id));
    assert t.local == s.local[call.inst := Table(s, call.inst) - {call.id}];
    forall inst, id | id in Table(t, inst) ensures Backed(t, inst, id, Table(t, inst)[id]) {
      assert id in Table(s, inst) && Table(s, inst)[id] == Table(t, inst)[id];
      BackedGrows(s, t, inst, id, Table(t, inst)[id]);
    }
  }

  lemma InvGetLocal(s: State, t: State, inst: Instance, id: string)
    requires Inv(s) && Next(s, t, GetLocal(inst, id))
    ensures Inv(t)
  {
    var v := Live(Table(s, inst), id, s.clock);
    LocalShrinks(s, t, inst, id);
    if v.Some? {
      LocalServeExcused(s, inst, id);
      InvServe(s, t, Served(inst, id, v.value, s.clock, Live(s.shared, id, s.clock)));
    } else {
      InvKeeps(s, t);
    }
  }

  lemma InvEndGet(s: State, t: State, call: Pending)
    requires Inv(s) && Next(s, t, EndGet(call))
    ensures Inv(t)
  {
    var v := Live(s.shared, call.id, s.clock);
    LocalShrinks(s, t, call.inst, call.id);
    if v.Some? {
      InvServe(s, t, Served(call.inst, call.id, v.value, s.clock, v));
    } else {
      InvKeeps(s, t);
    }
  }

  lemma NextKeepsInv(s: State, t: State, step: Step)
    requires Inv(s) && Next(s, t, step)
    ensures Inv(t)
  {
    match step
    case EndPut(call) => InvEndPut(s, t, call);
    case EndDelete(call) => InvEndDelete(s, t, call);
    case GetLocal(inst, id) => InvGetLocal(s, t, inst, id);
    case EndGet(call) => InvEndGet(s, t, call);
    case Evict(inst, id) => LocalShrinks(s, t, inst, id); InvKeeps(s, t);
    case _ => LocalShrinks(s, t, 0, ""); InvKeeps(s, t);
  }

  lemma {:induction false} InvHolds(states: seq<State>, steps: seq<Step>, n: nat)
    requires IsRun(states, steps) && n <= |steps|
    ensures Inv(states[n])
  {
    if n > 0 {
      InvHolds(states, steps, n - 1);
      assert StepAt(states, steps, n - 1);
      NextKeepsInv(states[n - 1], states[n], steps[n - 1]);
    }
  }

  /** In every run of any number of instances, every value served is the live
      shared one or is excused as above. */
  lemma StalenessIsBounded(states: seq<State>, steps: seq<Step>, n: nat, k: nat)
    requires IsRun(states, steps) && n <= |steps|
    requires k < |states[n].log| && states[n].log[k].Served?
    ensures Excused(states[n].log, k)
  {
    InvHolds(states, steps, n);
  }
}
