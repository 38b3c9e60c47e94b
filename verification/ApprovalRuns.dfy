/** Concurrent mutation requests over one store of one-use approvals. */
module ApprovalRuns {
  import opened Wrappers
  import opened AdminAuthz

  /** How far a request has got, with the approval it read, if any. */
  datatype Phase =
    | Started
    | Checked(stored: Option<Approval>)
    | Authorized(stored: Option<Approval>, admin: Admin, elevation: Elevation)
    | Bound(stored: Option<Approval>, admin: Admin)
    | Cleared(stored: Option<Approval>, admin: Admin)
    | Accepted(stored: Option<Approval>, admin: Admin)
    | Denied(why: Denial)

  datatype Job = Job(request: Request, phase: Phase)

  datatype State = State(approvals: Approvals, jobs: map<nat, Job>)

  /** One atomic step; requests interleave in any order. */
  datatype Step =
    | Arrive(i: nat, request: Request)
    | Check(i: nat, now: nat)
    | Authorize(i: nat, who: Option<(Admin, Elevation)>, realmTenant: Option<string>, now: nat)
    | Bind(i: nat, realmTenant: Option<string>)
    | Consume(i: nat, saved: bool)
    | Finish(i: nat)
    | StoreApproval(approval: Approval)

  function Goto(s: State, i: nat, phase: Phase): State
    requires i in s.jobs
  {
    s.(jobs := s.jobs[i := Job(s.jobs[i].request, phase)])
  }

  function AfterCheck(s: State, i: nat, now: nat, security: Security): Phase
    requires i in s.jobs
  {
    var q := s.jobs[i].request;
    var stored := Lookup(s.approvals, q.approvalId);
    match CheckApproval(q, security, stored, now)
    case Some(why) => Denied(why)
    case None => Checked(stored)
  }

  function AfterAuthorize(job: Job, who: Option<(Admin, Elevation)>, realmTenant: Option<string>, now: nat,
                          security: Security): Phase
    requires job.phase.Checked?
  {
    match AuthorizeAdmin(job.request, security, who, realmTenant, now)
    case Some(why) => Denied(why)
    case None => Authorized(job.phase.stored, who.value.0, who.value.1)
  }

  /** Without an approval there is nothing to bind or consume. */
  function AfterBind(job: Job, realmTenant: Option<string>): Phase
    requires job.phase.Authorized?
  {
    var p := job.phase;
    if p.stored.None? then Cleared(None, p.admin)
    else
      match BindApproval(job.request, p.stored.value, p.admin, p.elevation, realmTenant)
      case Some(why) => Denied(why)
      case None => Bound(p.stored, p.admin)
  }

  function AfterConsume(p: Phase, approvals: Approvals, saved: bool): Phase
    requires p.Bound? && p.stored.Some?
  {
    if !Consumable(approvals, p.stored.value.id) then Denied(AlreadyConsumed)
    else if !saved then Denied(StoreFailed)
    else Cleared(p.stored, p.admin)
  }

  function AfterFinish(job: Job): Phase
    requires job.phase.Cleared?
  {
    match PathBinding(job.request, job.phase.admin)
    case Some(why) => Denied(why)
    case None => Accepted(job.phase.stored, job.phase.admin)
  }

  /** A step that does not apply changes nothing. */
  function Next(s: State, step: Step, security: Security): State {
    match step
    case Arrive(i, request) => if i in s.jobs then s else s.(jobs := s.jobs[i := Job(request, Started)])
    case Check(i, now) =>
      if i in s.jobs && s.jobs[i].phase.Started? then Goto(s, i, AfterCheck(s, i, now, security)) else s
    case Authorize(i, who, realmTenant, now) =>
      if i in s.jobs && s.jobs[i].phase.Checked?
      then Goto(s, i, AfterAuthorize(s.jobs[i], who, realmTenant, now, security)) else s
    case Bind(i, realmTenant) =>
      if i in s.jobs && s.jobs[i].phase.Authorized? then Goto(s, i, AfterBind(s.jobs[i], realmTenant)) else s
    case Consume(i, saved) =>
      if i in s.jobs && s.jobs[i].phase.Bound? && s.jobs[i].phase.stored.Some? then
        var t := s.(approvals := Consumed(s.approvals, s.jobs[i].phase.stored.value.id));
        Goto(t, i, AfterConsume(s.jobs[i].phase, s.approvals, saved))
      else s
    case Finish(i) =>
      if i in s.jobs && s.jobs[i].phase.Cleared? then Goto(s, i, AfterFinish(s.jobs[i])) else s
    case StoreApproval(a) => s.(approvals := Stored(s.approvals, a))
  }

  // ----- The invariant --------------------------------------------------

  function Backing(p: Phase): Option<Approval> {
    match p
    case Started => None
    case Denied(_) => None
    case Checked(stored) => stored
    case Authorized(stored, _, _) => stored
    case Bound(stored, _) => stored
    case Cleared(stored, _) => stored
    case Accepted(stored, _) => stored
  }

  /** The request holds a consumed approval. */
  predicate Claims(p: Phase) {
    (p.Cleared? || p.Accepted?) && p.stored.Some?
  }

  /** Only the flag of a stored approval ever changes. */
  predicate SameGrant(a: Approval, b: Approval) {
    a.(consumed := true) == b.(consumed := true)
  }

  /** What the phase of one request says about its approval. */
  predicate JobOk(job: Job, approvals: Approvals, security: Security) {
    var p := job.phase;
    && (Backing(p).Some? ==>
          var a := Backing(p).value;
          !a.consumed && a.id in approvals && SameGrant(approvals[a.id], a))
    && (!p.Started? && !p.Denied? && Backing(p).None? ==> !security.requireApproval)
    && (p.Bound? ==> p.stored.Some?)
    && ((p.Bound? || Claims(p)) ==> p.stored.value.target == p.admin.id && p.stored.value.tenant == p.admin.tenant)
    && (Claims(p) ==> approvals[p.stored.value.id].consumed)
  }

  ghost predicate Keyed(approvals: Approvals) {
    forall id | id in approvals :: approvals[id].id == id
  }

  ghost predicate JobsOk(s: State, security: Security) {
    forall i | i in s.jobs :: JobOk(s.jobs[i], s.approvals, security)
  }

  ghost predicate ClaimsDiffer(jobs: map<nat, Job>) {
    forall i, k | i in jobs && k in jobs && i != k && Claims(jobs[i].phase) && Claims(jobs[k].phase) ::
      jobs[i].phase.stored.value.id != jobs[k].phase.stored.value.id
  }

  ghost predicate Inv(s: State, security: Security) {
    Keyed(s.approvals) && JobsOk(s, security) && ClaimsDiffer(s.jobs)
  }

  /** Approvals only appear and become consumed. */
  ghost predicate Grows(before: Approvals, after: Approvals) {
    forall id | id in before ::
      id in after && SameGrant(after[id], before[id]) && (before[id].consumed ==> after[id].consumed)
  }

  lemma GrowthKeepsJob(job: Job, before: Approvals, after: Approvals, security: Security)
    requires Grows(before, after) && JobOk(job, before, security)
    ensures JobOk(job, after, security)
  {
  }

  /** Moving one request on keeps the invariant if its new phase is right and
      claims nothing that is already claimed. */
  lemma MoveKeepsInv(s: State, approvals: Approvals, i: nat, job: Job, security: Security)
    requires Inv(s, security) && Keyed(approvals) && Grows(s.approvals, approvals)
    requires JobOk(job, approvals, security)
    requires Claims(job.phase) ==>
               forall k | k in s.jobs && k != i && Claims(s.jobs[k].phase) ::
                 s.jobs[k].phase.stored.value.id != job.phase.stored.value.id
    ensures Inv(State(approvals, s.jobs[i := job]), security)
  {
    var t := State(approvals, s.jobs[i := job]);
    forall k | k in t.jobs
      ensures JobOk(t.jobs[k], t.approvals, security)
    {
      if k != i {
        GrowthKeepsJob(s.jobs[k], s.approvals, approvals, security);
      }
    }
  }

  lemma NothingGrows(approvals: Approvals)
    ensures Grows(approvals, approvals)
  {
  }

  lemma CheckKeepsInv(s: State, i: nat, now: nat, security: Security)
    requires Inv(s, security)
    ensures Inv(Next(s, Check(i, now), security), security)
  {
    if i in s.jobs && s.jobs[i].phase.Started? {
      NothingGrows(s.approvals);
      MoveKeepsInv(s, s.approvals, i, Job(s.jobs[i].request, AfterCheck(s, i, now, security)), security);
    }
  }

  lemma AuthorizeKeepsInv(s: State, i: nat, who: Option<(Admin, Elevation)>, realmTenant: Option<string>, now: nat,
                          security: Security)
    requires Inv(s, security)
    ensures Inv(Next(s, Authorize(i, who, realmTenant, now), security), security)
  {
    if i in s.jobs && s.jobs[i].phase.Checked? {
      NothingGrows(s.approvals);
      var phase := AfterAuthorize(s.jobs[i], who, realmTenant, now, security);
      MoveKeepsInv(s, s.approvals, i, Job(s.jobs[i].request, phase), security);
    }
  }

  lemma BindKeepsInv(s: State, i: nat, realmTenant: Option<string>, security: Security)
    requires Inv(s, security)
    ensures Inv(Next(s, Bind(i, realmTenant), security), security)
  {
    if i in s.jobs && s.jobs[i].phase.Authorized? {
      NothingGrows(s.approvals);
      MoveKeepsInv(s, s.approvals, i, Job(s.jobs[i].request, AfterBind(s.jobs[i], realmTenant)), security);
    }
  }

  lemma ConsumeKeepsInv(s: State, i: nat, saved: bool, security: Security)
    requires Inv(s, security)
    ensures Inv(Next(s, Consume(i, saved), security), security)
  {
    if i in s.jobs && s.jobs[i].phase.Bound? {
      var id := s.jobs[i].phase.stored.value.id;
      var phase := AfterConsume(s.jobs[i].phase, s.approvals, saved);
      MoveKeepsInv(s, Consumed(s.approvals, id), i, Job(s.jobs[i].request, phase), security);
    }
  }

  lemma FinishKeepsInv(s: State, i: nat, security: Security)
    requires Inv(s, security)
    ensures Inv(Next(s, Finish(i), security), security)
  {
    if i in s.jobs && s.jobs[i].phase.Cleared? {
      NothingGrows(s.approvals);
      MoveKeepsInv(s, s.approvals, i, Job(s.jobs[i].request, AfterFinish(s.jobs[i])), security);
    }
  }

  lemma StepKeepsInv(s: State, step: Step, security: Security)
    requires Inv(s, security)
    ensures Inv(Next(s, step, security), security)
  {
    match step
    case Arrive(i, request) =>
    case Check(i, now) => CheckKeepsInv(s, i, now, security);
    case Authorize(i, who, realmTenant, now) => AuthorizeKeepsInv(s, i, who, realmTenant, now, security);
    case Bind(i, realmTenant) => BindKeepsInv(s, i, realmTenant, security);
    case Consume(i, saved) => ConsumeKeepsInv(s, i, saved, security);
    case Finish(i) => FinishKeepsInv(s, i, security);
    case StoreApproval(a) =>
      forall k | k in s.jobs
        ensures JobOk(s.jobs[k], Stored(s.approvals, a), security)
      {
        GrowthKeepsJob(s.jobs[k], s.approvals, Stored(s.approvals, a), security);
      }
  }

  // ----- Runs -----------------------------------------------------------

  ghost predicate StepAt(states: seq<State>, steps: seq<Step>, security: Security, n: nat)
    requires n < |steps| < |states|
  {
    states[n + 1] == Next(states[n], steps[n], security)
  }

  /** A run from a store with any approvals and no request yet. */
  ghost predicate IsRun(states: seq<State>, steps: seq<Step>, security: Security) {
    && |states| == |steps| + 1 && states[0].jobs == map[] && Keyed(states[0].approvals)
    && forall n | 0 <= n < |steps| :: StepAt(states, steps, security, n)
  }

  lemma {:induction false} RunKeepsInv(states: seq<State>, steps: seq<Step>, security: Security, n: nat)
    requires IsRun(states, steps, security) && n < |states|
    ensures Inv(states[n], security)
  {
    if n > 0 {
      RunKeepsInv(states, steps, security, n - 1);
      assert StepAt(states, steps, security, n - 1);
      StepKeepsInv(states[n - 1], steps[n - 1], security);
    }
  }

  predicate IsAccepted(s: State, i: nat) {
    i in s.jobs && s.jobs[i].phase.Accepted?
  }

  /** Each approval backs at most one accepted mutation, in every interleaving. */
  lemma OneMutationPerApproval(states: seq<State>, steps: seq<Step>, security: Security, n: nat, i: nat, k: nat)
    requires IsRun(states, steps, security) && n < |states| && i != k
    requires IsAccepted(states[n], i) && states[n].jobs[i].phase.stored.Some?
    requires IsAccepted(states[n], k) && states[n].jobs[k].phase.stored.Some?
    ensures states[n].jobs[i].phase.stored.value.id != states[n].jobs[k].phase.stored.value.id
  {
    RunKeepsInv(states, steps, security, n);
  }

  /** At step `m` request `i` read the approval, unconsumed and unexpired. */
  predicate CheckedAt(s: State, step: Step, i: nat, a: Approval) {
    && step.Check? && step.i == i && a.id in s.approvals && s.approvals[a.id] == a
    && !a.consumed && step.now < a.expiresAt
  }

  lemma BackingComesFromCheck(s: State, step: Step, security: Security, i: nat)
    requires Keyed(s.approvals)
    requires i in Next(s, step, security).jobs && Backing(Next(s, step, security).jobs[i].phase).Some?
    ensures var a := Backing(Next(s, step, security).jobs[i].phase).value;
            CheckedAt(s, step, i, a) || (i in s.jobs && Backing(s.jobs[i].phase) == Some(a))
  {
  }

  /** The approval a request holds was read unconsumed and unexpired. */
  lemma {:induction false} BackingWasChecked(states: seq<State>, steps: seq<Step>, security: Security, n: nat, i: nat)
    returns (m: nat)
    requires IsRun(states, steps, security) && n < |states|
    requires i in states[n].jobs && Backing(states[n].jobs[i].phase).Some?
    ensures m < n && CheckedAt(states[m], steps[m], i, Backing(states[n].jobs[i].phase).value)
  {
    if n > 0 {
      assert StepAt(states, steps, security, n - 1);
      RunKeepsInv(states, steps, security, n - 1);
      BackingComesFromCheck(states[n - 1], steps[n - 1], security, i);
      if CheckedAt(states[n - 1], steps[n - 1], i, Backing(states[n].jobs[i].phase).value) {
        m := n - 1;
      } else {
        m := BackingWasChecked(states, steps, security, n - 1, i);
      }
    }
  }

  /** When approval is required, an accepted mutation is backed by an approval
      for that administrator and tenant, unexpired when it was checked. */
  lemma AcceptedIsApproved(states: seq<State>, steps: seq<Step>, security: Security, n: nat, i: nat)
    returns (a: Approval, m: nat)
    requires IsRun(states, steps, security) && n < |states| && IsAccepted(states[n], i) && security.requireApproval
    ensures states[n].jobs[i].phase.stored == Some(a)
    ensures a.target == states[n].jobs[i].phase.admin.id && a.tenant == states[n].jobs[i].phase.admin.tenant
    ensures m < n && CheckedAt(states[m], steps[m], i, a)
    ensures a.id in states[n].approvals && states[n].approvals[a.id] == a.(consumed := true)
  {
    RunKeepsInv(states, steps, security, n);
    assert JobOk(states[n].jobs[i], states[n].approvals, security);
    a := states[n].jobs[i].phase.stored.value;
    m := BackingWasChecked(states, steps, security, n, i);
  }

  // ----- Authorization --------------------------------------------------

  function AdminOf(p: Phase): Option<Admin> {
    match p
    case Authorized(_, admin, _) => Some(admin)
    case Bound(_, admin) => Some(admin)
    case Cleared(_, admin) => Some(admin)
    case Accepted(_, admin) => Some(admin)
    case _ => None
  }

  /** At this step request `i` was found authorized as `admin`. */
  predicate AuthorizedAt(step: Step, i: nat, q: Request, admin: Admin, security: Security) {
    && step.Authorize? && step.i == i && step.who.Some? && step.who.value.0 == admin
    && AuthorizeAdmin(q, security, step.who, step.realmTenant, step.now).None?
  }

  lemma AdminComesFromAuthorize(s: State, step: Step, security: Security, i: nat)
    requires i in Next(s, step, security).jobs && AdminOf(Next(s, step, security).jobs[i].phase).Some?
    ensures var job := Next(s, step, security).jobs[i];
            && i in s.jobs && s.jobs[i].request == job.request
            && (AuthorizedAt(step, i, job.request, AdminOf(job.phase).value, security) ||
                AdminOf(s.jobs[i].phase) == AdminOf(job.phase))
  {
  }

  /** Every accepted mutation was authorized on the way, with a role that allows
      it; for break-glass that is the break-glass role, while enabled. */
  lemma {:induction false} AcceptedWasAuthorized(states: seq<State>, steps: seq<Step>, security: Security, n: nat,
                                                 i: nat)
    returns (m: nat)
    requires IsRun(states, steps, security) && n < |states|
    requires i in states[n].jobs && AdminOf(states[n].jobs[i].phase).Some?
    ensures m < n
    ensures AuthorizedAt(steps[m], i, states[n].jobs[i].request, AdminOf(states[n].jobs[i].phase).value, security)
    ensures HasRole(AdminOf(states[n].jobs[i].phase).value, states[n].jobs[i].request.Needs(), security)
    ensures states[n].jobs[i].request.breakGlass ==>
              security.breakglassEnabled && "breakglass" in AdminOf(states[n].jobs[i].phase).value.roles
  {
    if n > 0 {
      assert StepAt(states, steps, security, n - 1);
      AdminComesFromAuthorize(states[n - 1], steps[n - 1], security, i);
      var job := states[n].jobs[i];
      if AuthorizedAt(steps[n - 1], i, job.request, AdminOf(job.phase).value, security) {
        m := n - 1;
        BreakGlassRole(AdminOf(job.phase).value, security);
      } else {
        m := AcceptedWasAuthorized(states, steps, security, n - 1, i);
      }
    }
  }

  lemma BreakGlassRole(admin: Admin, security: Security)
    ensures HasRole(admin, BreakGlass, security) <==> security.breakglassEnabled && "breakglass" in admin.roles
  {
    if HasRole(admin, BreakGlass, security) {
      var i :| 0 <= i < |admin.roles| && RoleAllows(BreakGlass, admin.roles[i], security);
      BreakGlassNeedsItsRole(admin.roles[i], security);
    }
    if security.breakglassEnabled && "breakglass" in admin.roles {
      var i :| 0 <= i < |admin.roles| && admin.roles[i] == "breakglass";
      BreakGlassNeedsItsRole("breakglass", security);
    }
  }

  /** An accepted mutation's administrator holds a role that carries what the
      mutation needs, or the enabled break-glass role. */
  lemma AcceptedHoldsAGrant(states: seq<State>, steps: seq<Step>, security: Security, n: nat, i: nat)
    returns (role: string)
    requires IsRun(states, steps, security) && n < |states| && IsAccepted(states[n], i)
    ensures role in states[n].jobs[i].phase.admin.roles
    ensures states[n].jobs[i].request.Needs() in Grants(role) || (security.breakglassEnabled && role == "breakglass")
  {
    var m := AcceptedWasAuthorized(states, steps, security, n, i);
    var admin := states[n].jobs[i].phase.admin;
    HasRoleIff(admin, states[n].jobs[i].request.Needs(), security);
    var k :| 0 <= k < |admin.roles| &&
             (states[n].jobs[i].request.Needs() in Grants(admin.roles[k]) ||
              (security.breakglassEnabled && admin.roles[k] == "breakglass"));
    role := admin.roles[k];
  }

  // ----- Counting -------------------------------------------------------

  function AcceptedJobs(s: State): set<nat> {
    set i | i in s.jobs && s.jobs[i].phase.Accepted?
  }

  function ConsumedIds(approvals: Approvals): set<string> {
    set id | id in approvals && approvals[id].consumed
  }

  /** An injective choice of names gives at least as many names. */
  lemma {:induction false} InjectionSize(jobs: set<nat>, ids: set<string>, name: map<nat, string>)
    requires forall i | i in jobs :: i in name && name[i] in ids
    requires forall i, k | i in jobs && k in jobs && i != k :: name[i] != name[k]
    ensures |jobs| <= |ids|
    decreases |jobs|
  {
    if jobs != {} {
      var i :| i in jobs;
      InjectionSize(jobs - {i}, ids - {name[i]}, name);
    }
  }

  function BackingIds(s: State): map<nat, string> {
    map i | i in s.jobs && s.jobs[i].phase.Accepted? && s.jobs[i].phase.stored.Some? :: s.jobs[i].phase.stored.value.id
  }

  /** When approval is required there are never more accepted mutations than
      consumed approvals. */
  lemma AcceptedAtMostConsumed(states: seq<State>, steps: seq<Step>, security: Security, n: nat)
    requires IsRun(states, steps, security) && n < |states| && security.requireApproval
    ensures |AcceptedJobs(states[n])| <= |ConsumedIds(states[n].approvals)|
  {
    var s := states[n];
    forall i | i in AcceptedJobs(s)
      ensures i in BackingIds(s) && BackingIds(s)[i] in ConsumedIds(s.approvals)
    {
      var a, m := AcceptedIsApproved(states, steps, security, n, i);
    }
    forall i, k | i in AcceptedJobs(s) && k in AcceptedJobs(s) && i != k
      ensures BackingIds(s)[i] != BackingIds(s)[k]
    {
      OneMutationPerApproval(states, steps, security, n, i, k);
    }
    InjectionSize(AcceptedJobs(s), ConsumedIds(s.approvals), BackingIds(s));
  }

  // ----- Undisturbed requests -------------------------------------------

  /** The first steps of a request with nothing in between. */
  function AloneStart(s: State, i: nat, q: Request, security: Security, who: Option<(Admin, Elevation)>,
                      realmTenant: Option<string>, checked: nat, now: nat): State {
    var arrived := Next(s, Arrive(i, q), security);
    Next(Next(arrived, Check(i, checked), security), Authorize(i, who, realmTenant, now), security)
  }

  function AloneRest(s: State, i: nat, security: Security, realmTenant: Option<string>, saved: bool): State {
    var bound := Next(s, Bind(i, realmTenant), security);
    Next(Next(bound, Consume(i, saved), security), Finish(i), security)
  }

  lemma AloneStarts(s: State, i: nat, q: Request, security: Security, who: Option<(Admin, Elevation)>,
                    realmTenant: Option<string>, checked: nat, now: nat)
    requires i !in s.jobs
    ensures var t := AloneStart(s, i, q, security, who, realmTenant, checked, now);
            var stored := Lookup(s.approvals, q.approvalId);
            var check := CheckApproval(q, security, stored, checked);
            var authorize := AuthorizeAdmin(q, security, who, realmTenant, now);
            && t.approvals == s.approvals && i in t.jobs && t.jobs[i].request == q
            && t.jobs[i].phase == if check.Some? then Denied(check.value)
                                  else if authorize.Some? then Denied(authorize.value)
                                  else Authorized(stored, who.value.0, who.value.1)
  {
  }

  lemma AloneEnds(s: State, i: nat, security: Security, realmTenant: Option<string>, saved: bool)
    requires i in s.jobs && (s.jobs[i].phase.Authorized? || s.jobs[i].phase.Denied?)
    ensures var t := AloneRest(s, i, security, realmTenant, saved);
            var (q, p) := (s.jobs[i].request, s.jobs[i].phase);
            && i in t.jobs
            && t.jobs[i].phase ==
               if p.Denied? then p
               else
                 var bind := if p.stored.None? then None
                             else BindApproval(q, p.stored.value, p.admin, p.elevation, realmTenant);
                 if bind.Some? then Denied(bind.value)
                 else if p.stored.Some? && !Consumable(s.approvals, p.stored.value.id) then Denied(AlreadyConsumed)
                 else if p.stored.Some? && !saved then Denied(StoreFailed)
                 else if PathBinding(q, p.admin).Some? then Denied(PathBinding(q, p.admin).value)
                 else Accepted(p.stored, p.admin)
  {
  }

  /** Steps taken together decide as the whole request does. */
  lemma AloneMatchesVerdict(s: State, i: nat, q: Request, security: Security, who: Option<(Admin, Elevation)>,
                            realmTenant: Option<string>, checked: nat, now: nat, saved: bool)
    requires i !in s.jobs
    ensures var begun := AloneStart(s, i, q, security, who, realmTenant, checked, now);
            var t := AloneRest(begun, i, security, realmTenant, saved);
            i in t.jobs &&
            match Verdict(s.approvals, q, security, who, realmTenant, checked, now, saved)
            case Ok(admin) => t.jobs[i].phase == Accepted(Lookup(s.approvals, q.approvalId), admin)
            case Err(why) => t.jobs[i].phase == Denied(why)
  {
    AloneStarts(s, i, q, security, who, realmTenant, checked, now);
    AloneEnds(AloneStart(s, i, q, security, who, realmTenant, checked, now), i, security, realmTenant, saved);
  }
}
