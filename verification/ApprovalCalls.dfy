/** The bulk approval call as a whole: when it returns, what it then leaves behind, and when it raises. */
module ApprovalCalls {
  import opened Wrappers
  import opened Assignments
  import opened RequestAllocation
  import opened BatchSuccess
  import opened BatchApprovalProofs
  import opened Approvals
  import opened ApprovalProofs

  // ---------- when the approved requests can be stored ----------

  /** No two requests are for the same course by the same LMS user, or both by users without an LMS id. */
  ghost predicate IdentitiesDiffer(requests: seq<CreditRequest>) {
    forall i, j :: 0 <= i < j < |requests| ==>
      requests[i].lms != requests[j].lms || requests[i].course != requests[j].course
  }

  /** Two approved requests share a row if and only if they agree on LMS id and course. */
  lemma ApprovedRowsCoincideIff(t: Table, a: Approval, q: CreditRequest, r: CreditRequest)
    requires UuidsDistinct(a.validation.valid) && q in a.validation.valid && r in a.validation.valid
    requires ViaPolicy(t, a).1.Answered?
    ensures var approved := ViaPolicy(t, a).1.approved;
      && q.uuid in approved && r.uuid in approved
      && (approved[q.uuid] == approved[r.uuid] <==> q.lms == r.lms && q.course == r.course)
  {
    var b := ValidBatch(a);
    var all := BatchProposal(t, b);
    AnsweredRowsAreTheMapped(t, a, q);
    AnsweredRowsAreTheMapped(t, a, r);
    MapHasEveryRequest(all, AffectedIds(t, b), b.requests);
    LookupFindsAffectedRow(all, AffectedIds(t, b), |all|, q.lms, q.course);
    LookupFindsAffectedRow(all, AffectedIds(t, b), |all|, r.lms, r.course);
  }

  /** No request outside the approved ones is linked to a row that they were given. */
  ghost predicate RowsAreFree(requests: map<nat, RequestRow>, approved: map<nat, nat>) {
    forall u, v :: u in requests && u !in approved && v in approved ==> requests[u].assignment != Some(approved[v])
  }

  ghost predicate AreStored(requests: map<nat, RequestRow>, valid: seq<CreditRequest>) {
    forall q :: q in valid ==> q.uuid in requests
  }

  lemma RequestOf(t: Table, a: Approval, u: nat) returns (q: CreditRequest)
    requires ViaPolicy(t, a).1.Answered? && u in ViaPolicy(t, a).1.approved
    ensures q in a.validation.valid && q.uuid == u
  {
    ApprovedAreTheValid(t, a);
    var valid := a.validation.valid;
    var k :| 0 <= k < |valid| && Uuids(valid)[k] == u;
    q := valid[k];
  }

  lemma LinksOfDifferentIdentities(t: Table, a: Approval, u: nat, v: nat)
    requires UuidsDistinct(a.validation.valid) && IdentitiesDiffer(a.validation.valid) && ViaPolicy(t, a).1.Answered?
    requires u in ViaPolicy(t, a).1.approved && v in ViaPolicy(t, a).1.approved && u != v
    ensures ViaPolicy(t, a).1.approved[u] != ViaPolicy(t, a).1.approved[v]
  {
    var valid := a.validation.valid;
    var q := RequestOf(t, a, u);
    var r := RequestOf(t, a, v);
    var i :| 0 <= i < |valid| && valid[i] == q;
    var j :| 0 <= j < |valid| && valid[j] == r;
    ApprovedRowsCoincideIff(t, a, q, r);
  }

  lemma UniqueLinksMeanDifferentIdentities(d: Desk, t: Table, a: Approval, i: nat, j: nat)
    requires UuidsDistinct(a.validation.valid) && AreStored(d.requests, a.validation.valid)
    requires ViaPolicy(t, a).1.Answered? && LinksUnique(ApprovedRequests(d.requests, ViaPolicy(t, a).1.approved, a))
    requires i < j < |a.validation.valid|
    ensures a.validation.valid[i].lms != a.validation.valid[j].lms
         || a.validation.valid[i].course != a.validation.valid[j].course
  {
    var q, r := a.validation.valid[i], a.validation.valid[j];
    assert q in a.validation.valid && r in a.validation.valid;
    ApprovedRowsCoincideIff(t, a, q, r);
    var approved := ViaPolicy(t, a).1.approved;
    var next := ApprovedRequests(d.requests, approved, a);
    assert next[q.uuid].assignment == Some(approved[q.uuid]) && next[r.uuid].assignment == Some(approved[r.uuid]);
  }

  lemma UniqueLinksMeanFreeRows(d: Desk, t: Table, a: Approval)
    requires AreStored(d.requests, a.validation.valid) && ViaPolicy(t, a).1.Answered?
    requires LinksUnique(ApprovedRequests(d.requests, ViaPolicy(t, a).1.approved, a))
    ensures RowsAreFree(d.requests, ViaPolicy(t, a).1.approved)
  {
    var approved := ViaPolicy(t, a).1.approved;
    var next := ApprovedRequests(d.requests, approved, a);
    forall u, v | u in d.requests && u !in approved && v in approved
      ensures d.requests[u].assignment != Some(approved[v])
    {
      var q := RequestOf(t, a, v);
      assert u != v && next[u] == d.requests[u] && next[v].assignment == Some(approved[v]);
    }
  }

  /** Setting links that are pairwise different and free keeps the column one-to-one. */
  lemma FreeRowsKeepLinksUnique(requests: map<nat, RequestRow>, approved: map<nat, nat>, a: Approval)
    requires LinksUnique(requests) && RowsAreFree(requests, approved)
    requires forall u, v :: u in approved && v in approved && u != v ==> approved[u] != approved[v]
    ensures LinksUnique(ApprovedRequests(requests, approved, a))
  {
  }

  /**
   The approved requests can be stored if and only if no other request is linked to one of their rows
   and no two of them agree on LMS id and course.
   */
  lemma StorableIff(d: Desk, t: Table, a: Approval)
    requires LinksUnique(d.requests) && UuidsDistinct(a.validation.valid) && AreStored(d.requests, a.validation.valid)
    requires ViaPolicy(t, a).1.Answered?
    ensures Storable(d, ViaPolicy(t, a).1, a) <==>
      RowsAreFree(d.requests, ViaPolicy(t, a).1.approved) && IdentitiesDiffer(a.validation.valid)
  {
    var approved := ViaPolicy(t, a).1.approved;
    if approved == map[] {
      EmptyApprovals(d, t, a);
    }
    if LinksUnique(ApprovedRequests(d.requests, approved, a)) {
      UniqueLinksMeanFreeRows(d, t, a);
      forall i: nat, j: nat | i < j < |a.validation.valid| {
        UniqueLinksMeanDifferentIdentities(d, t, a, i, j);
      }
    }
    if RowsAreFree(d.requests, approved) && IdentitiesDiffer(a.validation.valid) {
      forall u, v | u in approved && v in approved && u != v
        ensures approved[u] != approved[v]
      {
        LinksOfDifferentIdentities(t, a, u, v);
      }
      FreeRowsKeepLinksUnique(d.requests, approved, a);
    }
  }

  lemma EmptyApprovals(d: Desk, t: Table, a: Approval)
    requires LinksUnique(d.requests) && ViaPolicy(t, a).1.Answered? && ViaPolicy(t, a).1.approved == map[]
    ensures LinksUnique(ApprovedRequests(d.requests, ViaPolicy(t, a).1.approved, a))
  {
    assert ApprovedRequests(d.requests, map[], a) == d.requests;
  }

  // ---------- the call ----------

  /** The audit actions of one request that say how its approval went. */
  function ApprovalActions(d: Desk, u: nat): nat {
    d.actions[AuditAction(u, true)] + d.actions[AuditAction(u, false)]
  }

  lemma {:induction false} ProcessedAreStored(requests: map<nat, RequestRow>, given: seq<CreditRequest>)
    ensures forall q :: q in ToProcess(requests, given) ==> q.uuid in requests
  {
    if given != [] {
      ProcessedAreStored(requests, given[..|given| - 1]);
    }
  }

  lemma SplitPartsAreDistinct(processed: seq<CreditRequest>, v: Validation)
    requires Splits(processed, v) && UuidsDistinct(processed)
    ensures UuidsDistinct(v.valid)
    ensures forall q :: q in v.valid ==> q in processed
  {
    var failed := FailedRequests(v.failedByReason);
    SplitIntoValidAndFailed(processed, v);
    assert multiset(v.valid + failed) == multiset(processed);
    forall i, j | 0 <= i < j < |v.valid|
      ensures v.valid[i].uuid != v.valid[j].uuid
    {
      var u := v.valid[i].uuid;
      SameRequestsSameCounts(v.valid + failed, processed, u);
      CountOfConcat(v.valid, failed, u);
      DistinctCountsAtMostOne(processed, u);
      if v.valid[j].uuid == u {
        TwoOccurrencesCount(v.valid, i, j);
      }
    }
    forall q | q in v.valid
      ensures q in processed
    {
      assert q in multiset(v.valid) && q in multiset(processed);
    }
  }

  lemma TwoOccurrencesCount(s: seq<CreditRequest>, i: nat, j: nat)
    requires i < j < |s| && s[i].uuid == s[j].uuid
    ensures 2 <= CountOf(s, s[i].uuid)
  {
    var u := s[i].uuid;
    CountOfConcat(s[..j], s[j..], u);
    assert s == s[..j] + s[j..];
    OccurrenceCounts(s[..j], i);
    OccurrenceCounts(s[j..], 0);
  }

  lemma {:induction false} OccurrenceCounts(s: seq<CreditRequest>, i: nat)
    requires i < |s|
    ensures 1 <= CountOf(s, s[i].uuid)
  {
    if i < |s| - 1 {
      OccurrenceCounts(s[..|s| - 1], i);
    }
  }

  // ---------- what a call writes ----------

  /** A call processes the given requests that are stored as requested or in error, each as often as it was given. */
  lemma {:induction false} OpenRequestsAreProcessed(
      requests: map<nat, RequestRow>, given: seq<CreditRequest>, q: CreditRequest)
    ensures multiset(ToProcess(requests, given))[q] ==
      if q.uuid in requests && (requests[q.uuid].state == Requested || requests[q.uuid].state == InError)
      then multiset(given)[q] else 0
  {
    if given != [] {
      var n := |given| - 1;
      OpenRequestsAreProcessed(requests, given[..n], q);
      assert given == given[..n] + [given[n]];
    }
  }

  /**
   A call that returns approves exactly the rows that the policy hands out: it records the assignment, the reviewer and
   the time. Every other stored request stays as it was; a call that raises changes none.
   */
  lemma CallWritesRequests(d: Desk, t: Table, given: seq<CreditRequest>, a: Approval, u: nat)
    requires u in d.requests
    ensures var (after, report) := AfterApproval(d, t, given, a);
      var answer := ViaPolicy(t, a).1;
      && u in after.requests
      && after.requests[u] ==
           if report.Some? && ToProcess(d.requests, given) != [] && answer.Answered? && u in answer.approved
           then RequestRow(d.requests[u].course, Approved, Some(answer.approved[u]), Some(a.reviewer), Some(a.now))
           else d.requests[u]
  {
  }

  lemma ListedIsCounted(byReason: seq<(string, seq<CreditRequest>)>, k: nat, q: CreditRequest)
    requires k < |byReason| && q in byReason[k].1
    ensures 0 < ListedCount(byReason, q)
  {
    if k == 0 {
      assert q in multiset(byReason[0].1);
    } else {
      ListedIsCounted(byReason[1..], k - 1, q);
    }
  }

  /**
   When a call returns with an answer of the policy, every request listed under any reason is reported as failed and
   gets a failure action: as many are added as it has entries in the failed list.
   */
  lemma EveryFailureIsReported(d: Desk, t: Table, given: seq<CreditRequest>, a: Approval, k: nat, q: CreditRequest)
    requires ToProcess(d.requests, given) != [] && AfterApproval(d, t, given, a).1.Some?
    requires k < |a.validation.failedByReason| && q in a.validation.failedByReason[k].1
    requires ViaPolicy(t, a).1.Answered?
    ensures var (after, report) := AfterApproval(d, t, given, a);
      && q.uuid in report.value.failed
      && after.actions[AuditAction(q.uuid, false)]
         == d.actions[AuditAction(q.uuid, false)] + multiset(report.value.failed)[q.uuid]
      && d.actions[AuditAction(q.uuid, false)] < after.actions[AuditAction(q.uuid, false)]
  {
    var answer := ViaPolicy(t, a).1;
    AnswerFollowsTheValidation(t, a, q);
    ListedIsCounted(a.validation.failedByReason, k, q);
    assert q in multiset(answer.failed) && q in answer.failed;
    UuidIsListed(answer.failed, q);
    CountsAreMultiplicities(answer.failed, q.uuid);
    assert AuditAction(q.uuid, false) !in SuccessActions(answer.approved.Keys);
  }

  lemma ProcessedRequest(requests: map<nat, RequestRow>, given: seq<CreditRequest>) returns (q: CreditRequest)
    requires ToProcess(requests, given) != []
    ensures q in given && q.uuid in requests
    ensures requests[q.uuid].state == Requested || requests[q.uuid].state == InError
  {
    q := ToProcess(requests, given)[0];
    OpenRequestsAreProcessed(requests, given, q);
    assert q in multiset(ToProcess(requests, given));
    assert q in multiset(given);
  }

  /** With no open request among the given ones a call reports all of them as failed and writes nothing. */
  lemma NothingOpenFailsTheGiven(d: Desk, t: Table, given: seq<CreditRequest>, a: Approval)
    requires forall q :: q in given && q.uuid in d.requests ==>
      d.requests[q.uuid].state != Requested && d.requests[q.uuid].state != InError
    ensures AfterApproval(d, t, given, a)
         == (d, Some(ApprovalReport({}, seq(|given|, i requires 0 <= i < |given| => given[i].uuid))))
  {
    if ToProcess(d.requests, given) != [] {
      var q := ProcessedRequest(d.requests, given);
    }
    assert d.actions + multiset{} == d.actions;
    assert Uuids(given) == seq(|given|, i requires 0 <= i < |given| => given[i].uuid);
  }

  /** A refused call reports every processed request as failed, with one failure action for each. */
  lemma RefusalFailsTheProcessed(d: Desk, t: Table, given: seq<CreditRequest>, a: Approval)
    requires ToProcess(d.requests, given) != [] && ViaPolicy(t, a).1.Refused?
    ensures var processed := ToProcess(d.requests, given);
      AfterApproval(d, t, given, a)
      == (d.(actions := d.actions + multiset(seq(|processed|, i requires 0 <= i < |processed| =>
            AuditAction(processed[i].uuid, false)))),
          Some(ApprovalReport({}, seq(|processed|, i requires 0 <= i < |processed| => processed[i].uuid))))
  {
    var processed := ToProcess(d.requests, given);
    assert FailureActions(processed) == seq(|processed|, i requires 0 <= i < |processed| =>
      AuditAction(processed[i].uuid, false));
    assert Uuids(processed) == seq(|processed|, i requires 0 <= i < |processed| => processed[i].uuid);
  }

  /**
   A bulk approval returns if and only if the policy refuses, or no other stored request is linked to a row
   that was given out and no two approved requests agree on LMS id and course. When it returns, every processed
   request ends in exactly one of the two lists, with exactly one new audit action that says the same. When it
   raises, no request ends anywhere: the requests and the audit trail stay as they were, although the
   assignments are written.
   */
  lemma EveryRequestEndsOnceIffTheCallReturns(d: Desk, t: Table, given: seq<CreditRequest>, a: Approval, u: nat)
    requires LinksUnique(d.requests)
    requires var processed := ToProcess(d.requests, given);
      processed != [] && UuidsDistinct(processed) && Splits(processed, a.validation) && u in Uuids(processed)
    ensures var (after, report) := AfterApproval(d, t, given, a);
      var answer := ViaPolicy(t, a).1;
      && (report.Some? <==>
            answer.Refused? || (RowsAreFree(d.requests, answer.approved) && IdentitiesDiffer(a.validation.valid)))
      && (report.Some? ==>
            && (u in report.value.approved) != (u in report.value.failed)
            && multiset(report.value.failed)[u] <= 1
            && ApprovalActions(after, u) == ApprovalActions(d, u) + 1
            && (after.actions[AuditAction(u, true)] == d.actions[AuditAction(u, true)] + 1
                <==> u in report.value.approved))
      && (report.None? ==> after == d)
  {
    var processed := ToProcess(d.requests, given);
    SplitPartsAreDistinct(processed, a.validation);
    ProcessedAreStored(d.requests, given);
    AnswersSplitTheProcessed(t, a, processed, given, u);
    if ViaPolicy(t, a).1.Answered? {
      StorableIff(d, t, a);
    }
  }

  // ---------- what a caller can check ----------

  /** Every valid request will be handed its own row. */
  ghost predicate AllOwnRows(t: Table, a: Approval) {
    forall q :: q in a.validation.valid ==> Linked(t, a.batch.config, q) && IsLastCarrier(t, ValidBatch(a), q)
  }

  /** The gates before the write are passed, and the batch is written. */
  ghost predicate IsWritten(t: Table, a: Approval) {
    && PassesTheGates(a)
    && a.validation.valid != [] && BatchOutcome(t, ValidBatch(a)).Success?
  }

  /** Another stored request is linked to a row that a valid one reuses. */
  ghost predicate IsOccupied(requests: map<nat, RequestRow>, t: Table, a: Approval, q: CreditRequest) {
    && Reusable(t, a.batch.config, q).Some?
    && exists u :: u in requests && u !in Uuids(a.validation.valid)
                   && requests[u].assignment == Reusable(t, a.batch.config, q)
  }

  /** Stored links point into the table. */
  predicate LinksInTable(requests: map<nat, RequestRow>, t: Table) {
    forall u :: u in requests && requests[u].assignment.Some? ==> requests[u].assignment.value < |t|
  }

  lemma OwnRowsAreHandedOut(t: Table, a: Approval)
    requires DistinctRequests(a.validation.valid) && IsWritten(t, a) && AllOwnRows(t, a)
    ensures ViaPolicy(t, a).1.Answered?
    ensures forall q :: q in a.validation.valid ==>
      q.uuid in ViaPolicy(t, a).1.approved && ViaPolicy(t, a).1.approved[q.uuid] == Position(t, ValidBatch(a), q)
  {
    var valid := a.validation.valid;
    forall q | q in valid
      ensures Carried(t, a.batch.config, valid, q)
    {
      CarriesItself(t, a.batch.config, q);
      assert Carries(t, a.batch.config, q, q);
    }
    RefusedAfterWritingIff(t, a);
    forall q | q in valid {
      ApprovedRequestHasItsRowIff(t, a, q);
    }
  }

  lemma OwnRowsMeanDifferentIdentities(t: Table, a: Approval)
    requires DistinctRequests(a.validation.valid) && IsWritten(t, a) && AllOwnRows(t, a)
    ensures IdentitiesDiffer(a.validation.valid)
  {
    var valid := a.validation.valid;
    DistinctRequestsHaveDistinctUuids(valid);
    OwnRowsAreHandedOut(t, a);
    forall i: nat, j: nat | i < j < |valid|
      ensures valid[i].lms != valid[j].lms || valid[i].course != valid[j].course
    {
      assert valid[i] in valid && valid[j] in valid && DistinctPair(valid[i], valid[j]);
      ApprovedRowsCoincideIff(t, a, valid[i], valid[j]);
      DifferentRequestsDiffer(valid, valid[i], valid[j]);
      DifferentPositions(t, ValidBatch(a), valid[i], valid[j]);
    }
  }

  lemma DifferentPositions(t: Table, b: Batch, q: CreditRequest, r: CreditRequest)
    requires DistinctRequests(b.requests) && q in b.requests && r in b.requests && LookupKey(q) != LookupKey(r)
    ensures Position(t, b, q) != Position(t, b, r)
  {
    var i := RowOfRequest(t, b, q);
    var j := RowOfRequest(t, b, r);
  }

  /**
   For a written batch in which every request is handed its own row, the call raises if and only if another
   stored request is linked to a row that is reused. The rows and the debit are written either way.
   */
  lemma WrittenCallRaisesIffOccupied(d: Desk, t: Table, given: seq<CreditRequest>, a: Approval)
    requires LinksUnique(d.requests) && LinksInTable(d.requests, t) && AreStored(d.requests, a.validation.valid)
    requires ToProcess(d.requests, given) != [] && DistinctRequests(a.validation.valid)
    requires IsWritten(t, a) && AllOwnRows(t, a)
    ensures AfterApproval(d, t, given, a).1.None? <==>
      exists q :: q in a.validation.valid && IsOccupied(d.requests, t, a, q)
    ensures AfterApproval(d, t, given, a).1.None? ==> AfterApproval(d, t, given, a).0 == d
    ensures ViaPolicy(t, a).0 == BatchOutcome(t, ValidBatch(a)).value
    ensures AllocatedTotal(ViaPolicy(t, a).0, a.batch.config)
         == AllocatedTotal(t, a.batch.config) - PriceSum(a.validation.valid)
  {
    DistinctRequestsHaveDistinctUuids(a.validation.valid);
    OwnRowsAreHandedOut(t, a);
    OwnRowsMeanDifferentIdentities(t, a);
    RefusedAfterWritingIff(t, a);
    StorableIff(d, t, a);
    RowsAreFreeIffNotOccupied(d.requests, t, a);
  }

  lemma RowsAreFreeIffNotOccupied(requests: map<nat, RequestRow>, t: Table, a: Approval)
    requires LinksInTable(requests, t) && DistinctRequests(a.validation.valid) && IsWritten(t, a) && AllOwnRows(t, a)
    ensures ViaPolicy(t, a).1.Answered?
    ensures RowsAreFree(requests, ViaPolicy(t, a).1.approved) <==>
      !exists q :: q in a.validation.valid && IsOccupied(requests, t, a, q)
  {
    OwnRowsAreHandedOut(t, a);
    ApprovedAreTheValid(t, a);
    var approved := ViaPolicy(t, a).1.approved;
    if q :| q in a.validation.valid && IsOccupied(requests, t, a, q) {
      var u :| u in requests && u !in Uuids(a.validation.valid)
               && requests[u].assignment == Reusable(t, a.batch.config, q);
      assert requests[u].assignment == Some(approved[q.uuid]);
    } else {
      forall u, v | u in requests && u !in approved && v in approved
        ensures requests[u].assignment != Some(approved[v])
      {
        var q := RequestOf(t, a, v);
        assert !IsOccupied(requests, t, a, q);
      }
    }
  }

  /** Such a desk exists: a cancelled row that an old request still points at is reused for a new request. */
  lemma OccupiedRowExample() returns (d: Desk, t: Table, a: Approval, q: CreditRequest)
    ensures UniqueKeys(t) && LinksUnique(d.requests) && a.validation == Validation("", [q], [])
    ensures ToProcess(d.requests, [q]) == [q] && AfterApproval(d, t, [q], a) == (d, None)
    ensures AllocatedTotal(ViaPolicy(t, a).0, a.batch.config) == AllocatedTotal(t, a.batch.config) - 1
  {
    var row := Assignment(0, "a", Some(1), "course", -1, AssignmentState.Cancelled, 0, None, None, false, 0,
                          None, None, None, None, None);
    t := [row];
    q := CreditRequest(2, "a", Some(1), "course", 1);
    d := Desk(map[1 := RequestRow("course", RequestCancelled, Some(0), None, None),
                  2 := RequestRow("course", Requested, None, None, None)], multiset{});
    a := Approval(true, true, Validation("", [q], []), Batch(0, [q], map[], 0, 0), "reviewer", 0);
    ReusedByOne(t, a, q);
    assert [q][..0] == [] && Uuids([q]) == [2];
    assert ToProcess(d.requests, [q]) == [q];
    assert 1 in d.requests && 1 !in Uuids([q]) && d.requests[1].assignment == Reusable(t, 0, q);
    assert IsOccupied(d.requests, t, a, q);
    assert PriceSum([]) == 0 && PriceSum([q]) == 1;
    WrittenCallRaisesIffOccupied(d, t, [q], a);
  }

  lemma ReusedByOne(t: Table, a: Approval, q: CreditRequest)
    requires UniqueKeys(t) && |t| == 1 && a.validation == Validation("", [q], []) && a.policyExists && a.lockFree
    requires t[0].config == a.batch.config && Reallocatable(t[0].state) && FiledUnder(t[0]) == LookupKey(q)
    requires t[0].lms == q.lms && 0 <= q.price
    ensures Reusable(t, a.batch.config, q) == Some(0)
    ensures DistinctRequests([q]) && IsWritten(t, a) && AllOwnRows(t, a)
  {
    BatchSucceedsIffPlaceable(t, ValidBatch(a));
  }
}
