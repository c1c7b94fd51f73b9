/** Whole runs of assignment operations: what every step keeps and where the money goes. */
module AssignmentRuns {
  import opened Assignments
  import opened Allocation
  import opened AllocationOrders
  import opened AllocationCalls
  import opened AssignmentLifecycle
  import opened RequestAllocation
  import opened BatchApprovalProofs

  datatype Step =
    | AllocateStep(call: Call)
    | ApproveStep(batch: Batch)
    | CancelStep(ids: set<nat>)
    | RemindStep(ids: set<nat>)
    | ExpireStep(row: nat, context: ExpiryContext, decidedAt: int, now: int)
    | FailStep(row: nat, now: int)
    | ReverseStep(row: nat, now: int)
    | AcceptStep(row: nat, now: int)
    | ClearStep(row: nat, retired: string)
    | LinkStep(email: string, id: LmsUserId)

  /** The stored table after one operation; a rejected operation changes nothing. */
  ghost function Apply(t: Table, s: Step): Table {
    match s
    case AllocateStep(c) => if Outcome(t, OrderOf(c)).Success? then Outcome(t, OrderOf(c)).value else t
    case ApproveStep(b) => if BatchOutcome(t, b).Success? then BatchOutcome(t, b).value else t
    case CancelStep(ids) => CancelledTable(t, ids)
    case RemindStep(_) => t
    case ExpireStep(i, x, decidedAt, now) =>
      if i < |t| && RowExpiryReason(t[i], x, decidedAt, now).Some? then t[i := ExpireRow(t[i], now)] else t
    case FailStep(i, now) => if i < |t| then t[i := FailRow(t[i], now)] else t
    case ReverseStep(i, now) => if i < |t| then t[i := ReverseRow(t[i], now)] else t
    case AcceptStep(i, now) => if i < |t| then t[i := AcceptRow(t[i], now)] else t
    case ClearStep(i, retired) => if i < |t| then Guarded(t, t[i := ClearPii(t[i], retired)]) else t
    case LinkStep(email, id) => Guarded(t, LinkedTable(t, email, id))
  }

  ghost function Run(t: Table, steps: seq<Step>): Table {
    if steps == [] then t else Apply(Run(t, steps[..|steps| - 1]), steps[|steps| - 1])
  }

  // ---------- the invariant ----------

  ghost predicate Inv(t: Table) {
    UniqueKeys(t) && NonPositive(t)
  }

  /** Rows keep their position and their keys' scope, and the table never shrinks. */
  ghost predicate SameKeys(t: Table, u: Table) {
    && |t| == |u|
    && forall i :: 0 <= i < |t| ==>
         && u[i].config == t[i].config && u[i].content == t[i].content
         && u[i].email == t[i].email && u[i].lms == t[i].lms
  }

  lemma SameKeysStayUnique(t: Table, u: Table)
    requires UniqueKeys(t) && SameKeys(t, u)
    ensures UniqueKeys(u)
  {
    forall i, j | 0 <= i < |u| && 0 <= j < |u| && i != j
      ensures !Clash(u[i], u[j])
    {
      assert !Clash(t[i], t[j]);
    }
  }

  lemma {:induction false} ValidPlansAreNonPositive(t: Table, b: Batch, requests: seq<CreditRequest>)
    requires PlanFor(t, b, requests).valid
    ensures forall i :: i in PlanFor(t, b, requests).revived ==> PlanFor(t, b, requests).revived[i].quantity <= 0
  {
    if requests != [] {
      ValidPlansAreNonPositive(t, b, requests[..|requests| - 1]);
    }
  }

  lemma AllocationKeepsInv(t: Table, o: Order)
    requires Inv(t) && Outcome(t, o).Success?
    ensures Inv(Outcome(t, o).value)
  {
    var p := Proposal(t, o);
    forall i | 0 <= i < |p|
      ensures p[i].quantity <= 0
    {
      if i < |t| {
        assert Settled(t[i], o).quantity == t[i].quantity || Settled(t[i], o).quantity == o.quantity;
      }
    }
  }

  lemma BatchKeepsInv(t: Table, b: Batch)
    requires Inv(t) && BatchOutcome(t, b).Success?
    ensures Inv(BatchOutcome(t, b).value)
  {
    var p, all := PlanFor(t, b, b.requests), BatchProposal(t, b);
    ValidPlansAreNonPositive(t, b, b.requests);
    forall i | 0 <= i < |all|
      ensures all[i].quantity <= 0
    {
      if |t| <= i {
        assert p.newcomers[i - |t|] in p.newcomers;
      }
    }
  }

  lemma StepKeepsInv(t: Table, s: Step)
    requires Inv(t)
    ensures Inv(Apply(t, s))
  {
    match s {
      case AllocateStep(c) => if Outcome(t, OrderOf(c)).Success? { AllocationKeepsInv(t, OrderOf(c)); }
      case ApproveStep(b) => if BatchOutcome(t, b).Success? { BatchKeepsInv(t, b); }
      case ClearStep(i, retired) =>
      case LinkStep(email, id) =>
      case _ => SameKeysStayUnique(t, Apply(t, s));
    }
  }

  /** After any run from a table with unique keys, keys are unique and no allocated total is positive. */
  lemma {:induction false} RunsKeepKeysUnique(t: Table, steps: seq<Step>)
    requires Inv(t)
    ensures Inv(Run(t, steps))
    ensures forall config: nat :: AllocatedTotal(Run(t, steps), config) <= 0
  {
    if steps != [] {
      RunsKeepKeysUnique(t, steps[..|steps| - 1]);
      StepKeepsInv(Run(t, steps[..|steps| - 1]), steps[|steps| - 1]);
    }
    forall config: nat {
      TotalIsNeverPositive(Run(t, steps), config);
    }
  }

  // ---------- the ledger ----------

  /** Total of the allocated rows among the given positions. */
  ghost function TotalAmong(t: Table, ids: set<nat>, config: nat): int {
    if t == [] then 0
    else
      var n := |t| - 1;
      TotalAmong(t[..n], ids, config) + if n in ids then Weight(t[n], config) else 0
  }

  /** How much one operation is entitled to move a configuration's allocated total. */
  ghost function Delta(t: Table, s: Step, config: nat): int {
    match s
    case AllocateStep(c) => if config == c.config then -(c.price * Placed(t, c)) else 0
    case ApproveStep(b) =>
      if BatchOutcome(t, b).Success? && config == b.config then -Charged(t, b.config, b.requests, {}) else 0
    case CancelStep(ids) => -TotalAmong(t, ids, config)
    case RemindStep(_) => 0
    case ExpireStep(i, x, decidedAt, now) =>
      if i < |t| && RowExpiryReason(t[i], x, decidedAt, now).Some? then -Weight(t[i], config) else 0
    case FailStep(i, _) => if i < |t| then -Weight(t[i], config) else 0
    case ReverseStep(_, _) => 0
    case AcceptStep(i, _) => if i < |t| then -Weight(t[i], config) else 0
    case ClearStep(_, _) => 0
    case LinkStep(_, _) => 0
  }

  ghost function RunDelta(t: Table, steps: seq<Step>, config: nat): int {
    if steps == [] then 0
    else
      var n := |steps| - 1;
      RunDelta(t, steps[..n], config) + Delta(Run(t, steps[..n]), steps[n], config)
  }

  lemma {:induction false} CancelTotal(t: Table, ids: set<nat>, config: nat)
    ensures AllocatedTotal(CancelledTable(t, ids), config) == AllocatedTotal(t, config) - TotalAmong(t, ids, config)
  {
    if t != [] {
      var n := |t| - 1;
      assert CancelledTable(t, ids)[..n] == CancelledTable(t[..n], ids);
      CancelTotal(t[..n], ids, config);
    }
  }

  lemma {:induction false} SameWeightsSameTotal(t: Table, u: Table, config: nat)
    requires |t| == |u| && forall i :: 0 <= i < |t| ==> Weight(t[i], config) == Weight(u[i], config)
    ensures AllocatedTotal(t, config) == AllocatedTotal(u, config)
  {
    if t != [] {
      SameWeightsSameTotal(t[..|t| - 1], u[..|u| - 1], config);
    }
  }

  lemma StepMovesMoney(t: Table, s: Step, config: nat)
    ensures AllocatedTotal(Apply(t, s), config) == AllocatedTotal(t, config) + Delta(t, s, config)
  {
    match s {
      case AllocateStep(c) => AllocationConservesMoney(t, c, config);
      case ApproveStep(b) => if BatchOutcome(t, b).Success? { BatchCostsItsCharge(t, b, config); }
      case CancelStep(ids) => CancelTotal(t, ids, config);
      case ClearStep(i, retired) =>
        if i < |t| { GuardedKeepsTotal(t, t[i := ClearPii(t[i], retired)], config); }
      case LinkStep(email, id) => GuardedKeepsTotal(t, LinkedTable(t, email, id), config);
      case RemindStep(_) =>
      case _ => RowStepMovesMoney(t, s, config);
    }
  }

  predicate IsRowStep(s: Step) {
    s.ExpireStep? || s.FailStep? || s.ReverseStep? || s.AcceptStep?
  }

  lemma RowStepMovesMoney(t: Table, s: Step, config: nat)
    requires IsRowStep(s)
    ensures AllocatedTotal(Apply(t, s), config) == AllocatedTotal(t, config) + Delta(t, s, config)
  {
    var i, u := s.row, Apply(t, s);
    if i < |t| {
      assert u == t[i := u[i]];
      TotalOfUpdate(t, i, u[i], config);
    }
  }

  lemma GuardedKeepsTotal(t: Table, next: Table, config: nat)
    requires |t| == |next| && forall i :: 0 <= i < |t| ==> Weight(t[i], config) == Weight(next[i], config)
    ensures AllocatedTotal(Guarded(t, next), config) == AllocatedTotal(t, config)
  {
    SameWeightsSameTotal(t, next, config);
  }

  /** Over any run the allocated total moves by exactly what the steps are entitled to move it. */
  lemma {:induction false} RunsConserveMoney(t: Table, steps: seq<Step>, config: nat)
    ensures AllocatedTotal(Run(t, steps), config) == AllocatedTotal(t, config) + RunDelta(t, steps, config)
  {
    if steps != [] {
      var n := |steps| - 1;
      RunsConserveMoney(t, steps[..n], config);
      StepMovesMoney(Run(t, steps[..n]), steps[n], config);
    }
  }

  // ---------- accepted rows ----------

  /** The only steps that can take an accepted row out of its state. */
  predicate Undoes(s: Step, i: nat) {
    (s.ReverseStep? && s.row == i) || (s.FailStep? && s.row == i)
  }

  lemma StepKeepsAccepted(t: Table, s: Step, i: nat)
    requires i < |t| && t[i].state.Accepted? && !Undoes(s, i)
    ensures i < |Apply(t, s)| && Apply(t, s)[i].state.Accepted? && Apply(t, s)[i].quantity == t[i].quantity
  {
    match s {
      case AllocateStep(c) => assert Settled(t[i], OrderOf(c)).state.Accepted?;
      case ApproveStep(b) => AcceptedIsNotRevived(t, b, b.requests, i);
      case _ =>
    }
  }

  lemma {:induction false} AcceptedIsNotRevived(t: Table, b: Batch, requests: seq<CreditRequest>, i: nat)
    requires i < |t| && t[i].state.Accepted?
    ensures i !in PlanFor(t, b, requests).revived
  {
    if requests != [] {
      AcceptedIsNotRevived(t, b, requests[..|requests| - 1], i);
      ReusableIsOwned(t, b.config, requests[|requests| - 1]);
    }
  }

  /** A redeemed assignment stays accepted at its price until it is reversed or one of its tasks fails. */
  lemma {:induction false} AcceptedRowsStayAccepted(t: Table, steps: seq<Step>, i: nat)
    requires i < |t| && t[i].state.Accepted? && forall s :: s in steps ==> !Undoes(s, i)
    ensures i < |Run(t, steps)| && Run(t, steps)[i].state.Accepted? && Run(t, steps)[i].quantity == t[i].quantity
  {
    if steps != [] {
      var n := |steps| - 1;
      AcceptedRowsStayAccepted(t, steps[..n], i);
      assert steps[n] in steps;
      StepKeepsAccepted(Run(t, steps[..n]), steps[n], i);
    }
  }
}
