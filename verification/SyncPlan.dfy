/** Carrying out a reconciliation plan one DN at a time. A plan says, for a
    table of records, what each owned record becomes and which records are
    created; the order in which DNs are handled does not matter. */
module SyncPlan {

  /** `dnOf` gives the DN of each owned record, `after` what every record
      becomes, and `created` the id and record of each new DN. */
  datatype Plan<U> = Plan(
    before: map<string, U>,
    after: map<string, U>,
    dnOf: map<string, string>,
    created: map<string, (string, U)>)

  predicate Sound<U>(p: Plan<U>) {
    && p.after.Keys == p.before.Keys
    && p.dnOf.Keys <= p.before.Keys
    && (forall i, j | i in p.dnOf && j in p.dnOf && p.dnOf[i] == p.dnOf[j] :: i == j)
    && (forall i, dn | i in p.dnOf && dn in p.created :: p.dnOf[i] != dn)
    && (forall dn | dn in p.created :: p.created[dn].0 !in p.before)
    && forall d, e | d in p.created && e in p.created && p.created[d].0 == p.created[e].0 :: d == e
  }

  predicate Handled<U>(p: Plan<U>, done: set<string>, id: string) {
    id in p.dnOf && p.dnOf[id] in done
  }

  /** `t` is the table once the DNs in `done` are handled. */
  ghost predicate Staged<U>(p: Plan<U>, t: map<string, U>, done: set<string>)
    requires Sound(p)
  {
    && (forall id | id in p.before :: id in t && t[id] == if Handled(p, done, id) then p.after[id] else p.before[id])
    && (forall dn | dn in p.created && dn in done :: p.created[dn].0 in t && t[p.created[dn].0] == p.created[dn].1)
    && forall id | id in t && id !in p.before :: exists dn :: dn in p.created && dn in done && id == p.created[dn].0
  }

  lemma StepOwned<U>(p: Plan<U>, t: map<string, U>, done: set<string>, id: string)
    requires Sound(p) && Staged(p, t, done) && id in p.dnOf && p.dnOf[id] !in done
    ensures id in t && t[id] == p.before[id]
    ensures Staged(p, t[id := p.after[id]], done + {p.dnOf[id]})
  {
    assert !Handled(p, done, id);
    forall k | k in p.before && k != id
      ensures Handled(p, done + {p.dnOf[id]}, k) == Handled(p, done, k)
    {
    }
  }

  lemma StepNew<U>(p: Plan<U>, t: map<string, U>, done: set<string>, dn: string)
    requires Sound(p) && Staged(p, t, done) && dn in p.created && dn !in done
    ensures p.created[dn].0 !in t
    ensures Staged(p, t[p.created[dn].0 := p.created[dn].1], done + {dn})
  {
    forall k | k in p.before ensures Handled(p, done + {dn}, k) == Handled(p, done, k) {
    }
  }

  // ----- The report -----------------------------------------------------

  /** The three lists a run over entries reports. */
  datatype Report = Report(created: seq<string>, updated: seq<string>, same: seq<string>)

  ghost predicate Reported<U>(p: Plan<U>, done: set<string>, r: Report)
    requires Sound(p)
  {
    && (forall id :: id in r.created <==> exists dn :: dn in p.created && dn in done && id == p.created[dn].0)
    && (forall id :: id in r.updated <==> Handled(p, done, id) && p.after[id] != p.before[id])
    && (forall id :: id in r.same <==> Handled(p, done, id) && p.after[id] == p.before[id])
  }

  lemma ReportOwned<U>(p: Plan<U>, done: set<string>, r: Report, id: string)
    requires Sound(p) && Reported(p, done, r) && id in p.dnOf
    ensures p.after[id] != p.before[id] ==>
              Reported(p, done + {p.dnOf[id]}, r.(updated := r.updated + [id]))
    ensures p.after[id] == p.before[id] ==>
              Reported(p, done + {p.dnOf[id]}, r.(same := r.same + [id]))
  {
    var done' := done + {p.dnOf[id]};
    assert forall k :: Handled(p, done', k) <==> Handled(p, done, k) || k == id;
    assert forall dn | dn in p.created :: dn in done' <==> dn in done;
  }

  lemma ReportNew<U>(p: Plan<U>, done: set<string>, r: Report, dn: string)
    requires Sound(p) && Reported(p, done, r) && dn in p.created
    ensures Reported(p, done + {dn}, r.(created := r.created + [p.created[dn].0]))
  {
    assert forall k :: Handled(p, done + {dn}, k) <==> Handled(p, done, k);
  }
}
