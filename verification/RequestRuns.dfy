/** Whole runs of a request desk: at most one approval per opening, and assignments that stay put. */
module RequestRuns {
  import opened Wrappers
  import opened Assignments
  import opened RequestAllocation
  import opened Approvals
  import opened ApprovalProofs

  /** Whatever happens to the assignment table in between, each approval meets some table. */
  datatype DeskStep =
    | ApproveStep(rows: Table, given: seq<CreditRequest>, approval: Approval)
    | ExpireStep(assignment: nat)
    | ReverseStep(assignment: nat)
    | ReuseStep(request: nat)
    | CancelStep(request: nat)
    | DeclineStep(request: nat)

  predicate IsReusable(state: RequestState) {
    state.RequestCancelled? || state.RequestExpired? || state.RequestReversed?
  }

  /** A learner asks again: the old request is opened anew, without its assignment. */
  function Reopened(requests: map<nat, RequestRow>, u: nat): map<nat, RequestRow>
    requires u in requests
  {
    requests[u := RequestRow(requests[u].course, Requested, None, None, None)]
  }

  ghost function Apply(d: Desk, s: DeskStep): Desk {
    match s
    case ApproveStep(t, given, a) => AfterApproval(d, t, given, a).0
    case ExpireStep(i) => d.(requests := LinkedTo(d.requests, i, RequestExpired))
    case ReverseStep(i) =>
      Desk(LinkedTo(d.requests, i, RequestReversed), d.actions + multiset(ReversalActions(d.requests, i)))
    case ReuseStep(u) =>
      if u in d.requests && IsReusable(d.requests[u].state)
      then Desk(Reopened(d.requests, u), d.actions + multiset{OtherAction(u, Requested)})
      else d
    case CancelStep(u) =>
      if u in d.requests && d.requests[u].assignment.Some? then Moved(d, u, RequestCancelled) else d
    case DeclineStep(u) =>
      if u in d.requests && d.requests[u].state.Requested? then Moved(d, u, RequestDeclined) else d
  }

  /** A request moves into a state, with an audit action. */
  function Moved(d: Desk, u: nat, state: RequestState): Desk
    requires u in d.requests
  {
    Desk(d.requests[u := d.requests[u].(state := state)], d.actions + multiset{OtherAction(u, state)})
  }

  ghost function Run(d: Desk, steps: seq<DeskStep>): Desk {
    if steps == [] then d else Apply(Run(d, steps[..|steps| - 1]), steps[|steps| - 1])
  }

  /** can_approve calls valid only requests that it was given. */
  ghost predicate Honest(d: Desk, s: DeskStep) {
    s.ApproveStep? ==>
      forall q :: q in s.approval.validation.valid ==> q.uuid in Uuids(ToProcess(d.requests, s.given))
  }

  ghost predicate HonestRun(d: Desk, steps: seq<DeskStep>) {
    forall k :: 0 <= k < |steps| ==> Honest(Run(d, steps[..k]), steps[k])
  }

  /** An open request can still be approved once. */
  function Openings(d: Desk, u: nat): nat {
    if u in d.requests && IsOpen(d.requests[u].state) then 1 else 0
  }

  function SuccessCount(d: Desk, u: nat): nat {
    d.actions[AuditAction(u, true)]
  }

  function Reuses(steps: seq<DeskStep>, u: nat): nat {
    if steps == [] then 0
    else Reuses(steps[..|steps| - 1], u) + if steps[|steps| - 1] == ReuseStep(u) then 1 else 0
  }

  // ---------- one step ----------

  lemma {:induction false} ToProcessIsOpen(requests: map<nat, RequestRow>, given: seq<CreditRequest>, u: nat)
    requires u in Uuids(ToProcess(requests, given))
    ensures u in requests && IsOpen(requests[u].state)
  {
    var n := |given| - 1;
    var processed := ToProcess(requests, given);
    var k :| 0 <= k < |processed| && Uuids(processed)[k] == u;
    if Processable(requests, given[n]) && k == |processed| - 1 {
    } else {
      assert Uuids(ToProcess(requests, given[..n]))[k] == u;
      ToProcessIsOpen(requests, given[..n], u);
    }
  }

  /** Only open requests are approved. */
  lemma ApprovedWereOpen(d: Desk, s: DeskStep, u: nat)
    requires s.ApproveStep? && Honest(d, s)
    requires ViaPolicy(s.rows, s.approval).1.Answered? && u in ViaPolicy(s.rows, s.approval).1.approved
    ensures u in d.requests && IsOpen(d.requests[u].state)
  {
    ApprovedAreTheValid(s.rows, s.approval);
    var valid := s.approval.validation.valid;
    var k :| 0 <= k < |valid| && Uuids(valid)[k] == u;
    assert valid[k] in valid;
    ToProcessIsOpen(d.requests, s.given, u);
  }

  lemma SuccessesInActions(processed: seq<CreditRequest>, answer: PolicyAnswer, u: nat)
    ensures ActionsOf(processed, answer)[AuditAction(u, true)]
         == if processed != [] && answer.Answered? && u in answer.approved then 1 else 0
  {
    CountsAreMultiplicities(processed, u);
    if answer.Answered? {
      CountsAreMultiplicities(answer.failed, u);
      assert AuditAction(u, true) in SuccessActions(answer.approved.Keys) <==> u in answer.approved;
    }
  }

  lemma StepSpendsOpenings(d: Desk, s: DeskStep, u: nat)
    requires Honest(d, s)
    ensures SuccessCount(Apply(d, s), u) + Openings(Apply(d, s), u)
         <= SuccessCount(d, u) + Openings(d, u) + if s == ReuseStep(u) then 1 else 0
  {
    match s {
      case ApproveStep(t, given, a) =>
        var processed := ToProcess(d.requests, given);
        var answer := if processed == [] then Refused else ViaPolicy(t, a).1;
        SuccessesInActions(processed, answer, u);
        if answer.Answered? && u in answer.approved {
          ApprovedWereOpen(d, s, u);
        }
      case ReverseStep(i) =>
        assert AuditAction(u, true) !in ReversalActions(d.requests, i);
      case _ =>
    }
  }

  /** A closed request is not opened, and keeps its assignment, unless the learner asks again. */
  lemma ClosedRequestsStayPut(d: Desk, s: DeskStep, u: nat)
    requires Honest(d, s) && s != ReuseStep(u) && u in d.requests && !IsOpen(d.requests[u].state)
    ensures u in Apply(d, s).requests && !IsOpen(Apply(d, s).requests[u].state)
    ensures Apply(d, s).requests[u].assignment == d.requests[u].assignment
  {
    if s.ApproveStep? {
      var answer := ViaPolicy(s.rows, s.approval).1;
      if answer.Answered? && u in answer.approved {
        ApprovedWereOpen(d, s, u);
      }
    }
  }

  lemma StepKeepsLinksUnique(d: Desk, s: DeskStep)
    requires LinksUnique(d.requests)
    ensures LinksUnique(Apply(d, s).requests)
  {
    if s.ApproveStep? && ViaPolicy(s.rows, s.approval).1.Answered? {
      var answer := ViaPolicy(s.rows, s.approval).1;
      if answer.approved == map[] {
        assert ApprovedRequests(d.requests, answer.approved, s.approval) == d.requests;
      }
    }
  }

  // ---------- runs ----------

  lemma HonestPrefix(d: Desk, steps: seq<DeskStep>)
    requires HonestRun(d, steps) && steps != []
    ensures HonestRun(d, steps[..|steps| - 1]) && Honest(Run(d, steps[..|steps| - 1]), steps[|steps| - 1])
  {
    var n := |steps| - 1;
    forall k | 0 <= k < n
      ensures Honest(Run(d, steps[..n][..k]), steps[..n][k])
    {
      assert steps[..n][..k] == steps[..k];
    }
  }

  /** Over every run a request is approved at most once each time it is opened. */
  lemma {:induction false} ApprovedAtMostOncePerOpening(d: Desk, steps: seq<DeskStep>, u: nat)
    requires HonestRun(d, steps)
    ensures SuccessCount(Run(d, steps), u) + Openings(Run(d, steps), u)
         <= SuccessCount(d, u) + Openings(d, u) + Reuses(steps, u)
  {
    if steps != [] {
      var n := |steps| - 1;
      HonestPrefix(d, steps);
      ApprovedAtMostOncePerOpening(d, steps[..n], u);
      StepSpendsOpenings(Run(d, steps[..n]), steps[n], u);
    }
  }

  /** Once closed, and until its learner asks again, a request keeps its assignment through every run. */
  lemma {:induction false} ApprovedRequestsKeepTheirAssignment(d: Desk, steps: seq<DeskStep>, u: nat)
    requires HonestRun(d, steps) && u in d.requests && !IsOpen(d.requests[u].state)
    requires forall s :: s in steps ==> s != ReuseStep(u)
    ensures u in Run(d, steps).requests && !IsOpen(Run(d, steps).requests[u].state)
    ensures Run(d, steps).requests[u].assignment == d.requests[u].assignment
  {
    if steps != [] {
      var n := |steps| - 1;
      HonestPrefix(d, steps);
      assert steps[n] in steps && forall s :: s in steps[..n] ==> s in steps;
      ApprovedRequestsKeepTheirAssignment(d, steps[..n], u);
      ClosedRequestsStayPut(Run(d, steps[..n]), steps[n], u);
    }
  }

  /** Over every run no two requests are linked to one assignment. */
  lemma {:induction false} RunsKeepLinksUnique(d: Desk, steps: seq<DeskStep>)
    requires LinksUnique(d.requests)
    ensures LinksUnique(Run(d, steps).requests)
  {
    if steps != [] {
      RunsKeepLinksUnique(d, steps[..|steps| - 1]);
      StepKeepsLinksUnique(Run(d, steps[..|steps| - 1]), steps[|steps| - 1]);
    }
  }
}
