/** Runs of the assignment table and the request desk together: linked rows stay rows of the request's course. */
module JointRuns {
  import opened Wrappers
  import opened Assignments
  import opened Allocation
  import opened AllocationOrders
  import opened AssignmentLifecycle
  import opened Expiry
  import opened RequestAllocation
  import opened BatchSuccess
  import opened BatchApprovalProofs
  import opened Approvals
  import opened ApprovalProofs
  import AssignmentRuns
  import RequestRuns

  datatype World = World(rows: Table, desk: Desk)

  datatype Move =
    | TableMove(step: AssignmentRuns.Step)
    | ApproveMove(given: seq<CreditRequest>, approval: Approval)
    | ExpireMove(row: nat, subsidyExpiration: Option<int>, metadata: Option<ContentMetadata>, decidedAt: int, now: int)
    | ReverseMove(row: nat, now: int)
    | CancelMove(request: nat)
    | DeclineMove(request: nat)
    | ReuseMove(request: nat)

  /** The assignment whose cancellation goes through together with its request. */
  function CancelledWith(w: World, u: nat): Option<nat> {
    if u in w.desk.requests && w.desk.requests[u].assignment.Some? then
      var i := w.desk.requests[u].assignment.value;
      if i < |w.rows| && (Cancelable(w.rows[i].state) || w.rows[i].state.Cancelled?) then Some(i) else None
    else None
  }

  /** What a move does to the table, as a step of the table's own runs. */
  ghost function TableStep(w: World, m: Move): Option<AssignmentRuns.Step> {
    match m
    case TableMove(s) => Some(s)
    case ApproveMove(given, a) =>
      if ToProcess(w.desk.requests, given) == [] || ViaPolicy(w.rows, a).0 == w.rows then None
      else Some(AssignmentRuns.ApproveStep(ValidBatch(a)))
    case ExpireMove(i, subsidyExpiration, metadata, decidedAt, now) =>
      var x := ExpiryContext(IsLinked(w.desk.requests, i), subsidyExpiration, metadata);
      Some(AssignmentRuns.ExpireStep(i, x, decidedAt, now))
    case ReverseMove(i, now) => Some(AssignmentRuns.ReverseStep(i, now))
    case CancelMove(u) =>
      if CancelledWith(w, u).Some? then Some(AssignmentRuns.CancelStep({CancelledWith(w, u).value})) else None
    case DeclineMove(_) => None
    case ReuseMove(_) => None
  }

  ghost function RowsAfter(w: World, m: Move): Table {
    if TableStep(w, m).Some? then AssignmentRuns.Apply(w.rows, TableStep(w, m).value) else w.rows
  }

  /** What a move does to the desk, as a step of the desk's own runs. */
  ghost function DeskStep(w: World, m: Move): Option<RequestRuns.DeskStep> {
    match m
    case TableMove(_) => None
    case ApproveMove(given, a) => Some(RequestRuns.ApproveStep(w.rows, given, a))
    case ExpireMove(i, subsidyExpiration, metadata, decidedAt, now) =>
      var x := ExpiryContext(IsLinked(w.desk.requests, i), subsidyExpiration, metadata);
      if i < |w.rows| && RowExpiryReason(w.rows[i], x, decidedAt, now).Some? then Some(RequestRuns.ExpireStep(i))
      else None
    case ReverseMove(i, _) =>
      if i < |w.rows| && w.rows[i].state.Accepted? then Some(RequestRuns.ReverseStep(i)) else None
    case CancelMove(u) => if CancelledWith(w, u).Some? then Some(RequestRuns.CancelStep(u)) else None
    case DeclineMove(u) => Some(RequestRuns.DeclineStep(u))
    case ReuseMove(u) => Some(RequestRuns.ReuseStep(u))
  }

  ghost function Apply(w: World, m: Move): World {
    World(RowsAfter(w, m), if DeskStep(w, m).Some? then RequestRuns.Apply(w.desk, DeskStep(w, m).value) else w.desk)
  }

  ghost function Run(w: World, moves: seq<Move>): World {
    if moves == [] then w else Apply(Run(w, moves[..|moves| - 1]), moves[|moves| - 1])
  }

  // ---------- the invariant ----------

  /** Every linked assignment exists and is for the course of its request. */
  ghost predicate OnOwnCourse(w: World) {
    forall u :: u in w.desk.requests && w.desk.requests[u].assignment.Some? ==>
      && w.desk.requests[u].assignment.value < |w.rows|
      && w.rows[w.desk.requests[u].assignment.value].content == w.desk.requests[u].course
  }

  ghost predicate Inv(w: World) {
    AssignmentRuns.Inv(w.rows) && LinksUnique(w.desk.requests) && OnOwnCourse(w)
  }

  /** The requests an approval calls valid are stored ones, described by their own course. */
  ghost predicate Describes(w: World, m: Move) {
    m.ApproveMove? ==>
      && UuidsDistinct(m.approval.validation.valid)
      && forall q :: q in m.approval.validation.valid ==>
           q.uuid in w.desk.requests && w.desk.requests[q.uuid].course == q.course
  }

  // ---------- the table ----------

  /** No row disappears or changes its course. */
  ghost predicate KeepsCourses(t: Table, u: Table) {
    |t| <= |u| && forall i :: 0 <= i < |t| ==> u[i].content == t[i].content
  }

  lemma TableStepsKeepCourses(t: Table, s: AssignmentRuns.Step)
    ensures KeepsCourses(t, AssignmentRuns.Apply(t, s))
  {
    match s {
      case AllocateStep(c) =>
        forall i | 0 <= i < |t|
          ensures Settled(t[i], OrderOf(c)).content == t[i].content
        {
        }
      case ApproveStep(b) => PlanKeepsIdentities(t, b, b.requests);
      case _ =>
    }
  }

  /** The table of an approval is the table of its batch. */
  lemma ApprovalRows(w: World, m: Move)
    requires m.ApproveMove? && ToProcess(w.desk.requests, m.given) != []
    ensures RowsAfter(w, m) == ViaPolicy(w.rows, m.approval).0
  {
  }

  lemma ApprovedRowsAreOnCourse(w: World, m: Move, u: nat)
    requires m.ApproveMove? && Describes(w, m) && ViaPolicy(w.rows, m.approval).1.Answered?
    requires u in ViaPolicy(w.rows, m.approval).1.approved
    ensures var (rows, answer) := ViaPolicy(w.rows, m.approval);
      && u in w.desk.requests && answer.approved[u] < |rows|
      && rows[answer.approved[u]].content == w.desk.requests[u].course
  {
    var t, a := w.rows, m.approval;
    var b := ValidBatch(a);
    var all := BatchProposal(t, b);
    ApprovedAreTheValid(t, a);
    var k :| 0 <= k < |a.validation.valid| && Uuids(a.validation.valid)[k] == u;
    var q := a.validation.valid[k];
    AnsweredRowsAreTheMapped(t, a, q);
    MapHasEveryRequest(all, AffectedIds(t, b), b.requests);
    LookupFindsAffectedRow(all, AffectedIds(t, b), |all|, q.lms, q.course);
  }

  // ---------- one move ----------

  /** Every desk step but an approval keeps courses and only drops links. */
  lemma OtherStepsKeepLinks(d: Desk, s: RequestRuns.DeskStep, u: nat)
    requires !s.ApproveStep? && u in RequestRuns.Apply(d, s).requests
    ensures u in d.requests && RequestRuns.Apply(d, s).requests[u].course == d.requests[u].course
    ensures RequestRuns.Apply(d, s).requests[u].assignment.Some? ==>
      RequestRuns.Apply(d, s).requests[u].assignment == d.requests[u].assignment
  {
  }

  lemma ApprovalsKeepOnCourse(w: World, m: Move)
    requires Inv(w) && m.ApproveMove? && Describes(w, m)
    ensures OnOwnCourse(Apply(w, m))
  {
    var after := Apply(w, m);
    MovesKeepCourses(w, m);
    forall u | u in after.desk.requests && after.desk.requests[u].assignment.Some?
      ensures after.desk.requests[u].assignment.value < |after.rows|
      ensures after.rows[after.desk.requests[u].assignment.value].content == after.desk.requests[u].course
    {
      if after.desk.requests[u] != w.desk.requests[u] {
        ApprovalRows(w, m);
        ApprovedRowsAreOnCourse(w, m, u);
      }
    }
  }

  lemma MovesKeepCourses(w: World, m: Move)
    ensures KeepsCourses(w.rows, RowsAfter(w, m))
  {
    if TableStep(w, m).Some? {
      TableStepsKeepCourses(w.rows, TableStep(w, m).value);
    }
  }

  lemma MoveKeepsInv(w: World, m: Move)
    requires Inv(w) && Describes(w, m)
    ensures Inv(Apply(w, m))
  {
    if TableStep(w, m).Some? {
      AssignmentRuns.StepKeepsInv(w.rows, TableStep(w, m).value);
    }
    if DeskStep(w, m).Some? {
      RequestRuns.StepKeepsLinksUnique(w.desk, DeskStep(w, m).value);
    }
    if m.ApproveMove? {
      ApprovalsKeepOnCourse(w, m);
    } else {
      OtherMovesKeepOnCourse(w, m);
    }
  }

  lemma OtherMovesKeepOnCourse(w: World, m: Move)
    requires Inv(w) && !m.ApproveMove?
    ensures OnOwnCourse(Apply(w, m))
  {
    var after := Apply(w, m);
    MovesKeepCourses(w, m);
    forall u | u in after.desk.requests && after.desk.requests[u].assignment.Some?
      ensures after.desk.requests[u].assignment.value < |after.rows|
      ensures after.rows[after.desk.requests[u].assignment.value].content == after.desk.requests[u].course
    {
      if DeskStep(w, m).Some? {
        OtherStepsKeepLinks(w.desk, DeskStep(w, m).value, u);
      }
    }
  }

  // ---------- runs ----------

  /**
   Over every joint run both keys of the table stay unique, no assignment is linked to two requests, and every
   linked assignment is for the course of its request.
   */
  lemma {:induction false} RunsKeepRequestsOnTheirCourse(w: World, moves: seq<Move>)
    requires Inv(w) && forall k :: 0 <= k < |moves| ==> Describes(Run(w, moves[..k]), moves[k])
    ensures Inv(Run(w, moves))
  {
    if moves != [] {
      var n := |moves| - 1;
      forall k | 0 <= k < n
        ensures Describes(Run(w, moves[..n][..k]), moves[..n][k])
      {
        assert moves[..n][..k] == moves[..k];
      }
      RunsKeepRequestsOnTheirCourse(w, moves[..n]);
      MoveKeepsInv(Run(w, moves[..n]), moves[n]);
    }
  }
}
