/** Which operation moves an assignment into which state, exactly when it does, and what it writes besides. */
module AssignmentMoves {
  import opened Wrappers
  import opened Emails
  import opened Assignments
  import opened Allocation
  import opened AllocationOrders
  import opened AllocationCalls
  import opened AssignmentLifecycle
  import opened Expiry
  import opened RequestAllocation
  import opened BatchCalls
  import opened AssignmentRuns

  /** The subsidy has expired, the enrollment deadline has come, or ninety days have passed since the allocation. */
  ghost predicate IsDue(row: Assignment, x: ExpiryContext, decidedAt: int, now: int) {
    var s := Subject(row.allocatedAt, row.preferredRun, x.fromCreditRequest, x.subsidyExpiration, x.metadata);
    || (x.subsidyExpiration.Some? && x.subsidyExpiration.value <= now)
    || (exists d :: IsEnrollmentDeadline(s, decidedAt, Some(d)) && d <= now)
    || row.allocatedAt + 7776000 <= now
  }

  /** An allocation, or a batch of credit requests, that goes through and brings the row back. */
  ghost predicate BringsBack(t: Table, s: Step, i: nat)
    requires i < |t|
  {
    match s
    case AllocateStep(c) => Outcome(t, OrderOf(c)).Success? && Answers(t[i], c) && CanReturn(t[i].state)
    case ApproveStep(b) =>
      BatchOutcome(t, b).Success? && exists q :: q in b.requests && Reuses(t, b.config, q, i)
    case _ => false
  }

  /** The operation moves the row into this state. */
  ghost predicate MovesInto(t: Table, s: Step, i: nat, state: AssignmentState)
    requires i < |t|
  {
    match state
    case Allocated => BringsBack(t, s, i)
    case Accepted => s.AcceptStep? && s.row == i && t[i].state == Allocated
    case Cancelled => s.CancelStep? && i in s.ids && (t[i].state == Allocated || t[i].state == Errored)
    case Errored => s.FailStep? && s.row == i
    case Expired =>
      s.ExpireStep? && s.row == i && t[i].state == Allocated && IsDue(t[i], s.context, s.decidedAt, s.now)
    case Reversed => s.ReverseStep? && s.row == i && t[i].state == Accepted
  }

  lemma ExpiryMovesIff(t: Table, s: Step, i: nat)
    requires i < |t| && s.ExpireStep?
    ensures Apply(t, s)[i] == if MovesInto(t, s, i, AssignmentState.Expired)
      then t[i].(state := AssignmentState.Expired, expiredAt := Some(s.now)) else t[i]
  {
    if s.row == i {
      ExpiresIff(SubjectOf(t[i], s.context), s.decidedAt, s.now);
    }
  }

  lemma AllocationMovesIff(t: Table, s: Step, i: nat)
    requires i < |t| && s.AllocateStep?
    ensures i < |Apply(t, s)|
    ensures Apply(t, s)[i].state == if BringsBack(t, s, i) then Allocated else t[i].state
  {
    if Outcome(t, OrderOf(s.call)).Success? {
      CallRewritesRows(t, s.call, i);
    }
  }

  /**
   An operation moves a row into a state exactly under that state's condition: a row that meets it ends there, and
   a row whose state the operation changes has met the condition of the state it ends in.
   */
  lemma StepMovesRowIff(t: Table, s: Step, i: nat)
    requires i < |t|
    ensures i < |Apply(t, s)|
    ensures forall state :: MovesInto(t, s, i, state) ==> Apply(t, s)[i].state == state
    ensures Apply(t, s)[i].state != t[i].state ==> MovesInto(t, s, i, Apply(t, s)[i].state)
  {
    match s {
      case AllocateStep(_) => AllocationMovesIff(t, s, i);
      case ApproveStep(b) => if BatchOutcome(t, b).Success? { BatchRewritesRows(t, b, i); }
      case ExpireStep(_, _, _, _) => ExpiryMovesIff(t, s, i);
      case _ =>
    }
  }

  /**
   Besides the state, a row that is cancelled changes in nothing, one that expires, fails, is reversed or accepted in
   that move's time, and one that is cleared in its email, unless a key forbids it.
   */
  lemma StepWritesOnly(t: Table, s: Step, i: nat)
    requires i < |t| && !s.AllocateStep? && !s.ApproveStep? && !s.LinkStep?
    ensures |Apply(t, s)| == |t|
    ensures var before, after := t[i], Apply(t, s)[i];
      match s
      case CancelStep(_) => after == before.(state := after.state)
      case ExpireStep(_, _, _, now) => after == before || after == before.(state := after.state, expiredAt := Some(now))
      case FailStep(k, now) => after == if k == i then before.(state := Errored, erroredAt := Some(now)) else before
      case ReverseStep(_, now) =>
        after == if after.state == before.state then before else before.(state := after.state, reversedAt := Some(now))
      case AcceptStep(_, now) =>
        after == if after.state == before.state then before else before.(state := after.state, acceptedAt := Some(now))
      case ClearStep(k, retired) =>
        after == if k == i && UniqueKeys(t[i := before.(email := retired)]) then before.(email := retired) else before
      case _ => after == before
  {
    if s.ExpireStep? {
      ExpiryMovesIff(t, s, i);
    }
  }

  // ---------- linking ----------

  predicate LacksId(row: Assignment, email: string) {
    row.lms.None? && Lower(row.email) == Lower(email)
  }

  /** No row for the same content as one that lacks the id carries it already. */
  ghost predicate IsLinkable(t: Table, email: string, id: LmsUserId) {
    forall i, j :: 0 <= i < |t| && 0 <= j < |t| && LacksId(t[i], email) && t[j].lms == Some(id) ==>
      t[i].config != t[j].config || t[i].content != t[j].content
  }

  /**
   Saving a user fills in the missing LMS id of every row with that user's email if and only if no row for the same
   content carries the id under another email; otherwise it changes nothing.
   */
  lemma LinkFillsIff(t: Table, email: string, id: LmsUserId, i: nat)
    requires UniqueKeys(t) && i < |t|
    ensures |Apply(t, LinkStep(email, id))| == |t|
    ensures Apply(t, LinkStep(email, id))[i] ==
      if LacksId(t[i], email) && IsLinkable(t, email, id) then t[i].(lms := Some(id)) else t[i]
  {
    var next := LinkedTable(t, email, id);
    if UniqueKeys(next) {
      forall j, k | 0 <= j < |t| && 0 <= k < |t| && LacksId(t[j], email) && t[k].lms == Some(id)
        ensures t[j].config != t[k].config || t[j].content != t[k].content
      {
        assert !Clash(next[j], next[k]);
      }
    }
    if IsLinkable(t, email, id) {
      forall j, k | 0 <= j < |t| && 0 <= k < |t| && j != k
        ensures !Clash(next[j], next[k])
      {
        assert !Clash(t[j], t[k]);
      }
    }
  }
}
