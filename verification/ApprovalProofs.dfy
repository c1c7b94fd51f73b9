/** What the policy answers, what follows for each request, and whose row an approved request points at. */
module ApprovalProofs {
  import opened Wrappers
  import opened Emails
  import opened Assignments
  import opened RequestAllocation
  import opened BatchApprovalProofs
  import opened BatchSuccess
  import opened Approvals

  /** can_approve splits the processed requests into the valid ones and those listed under a reason. */
  ghost predicate Splits(processed: seq<CreditRequest>, v: Validation) {
    forall q: CreditRequest ::
      multiset(v.valid)[q] + ListedCount(v.failedByReason, q) == multiset(processed)[q]
  }

  lemma SplitIntoValidAndFailed(processed: seq<CreditRequest>, v: Validation)
    ensures Splits(processed, v) <==>
      multiset(v.valid) + multiset(FailedRequests(v.failedByReason)) == multiset(processed)
  {
    forall q: CreditRequest
      ensures (multiset(v.valid) + multiset(FailedRequests(v.failedByReason)))[q]
           == multiset(v.valid)[q] + ListedCount(v.failedByReason, q)
    {
      FailedAsOftenAsListed(v.failedByReason, q);
    }
  }

  // ---------- counting ----------

  /** How often a uuid occurs among requests. */
  function CountOf(s: seq<CreditRequest>, u: nat): nat {
    if s == [] then 0
    else
      var n := |s| - 1;
      CountOf(s[..n], u) + if s[n].uuid == u then 1 else 0
  }

  lemma {:induction false} UuidsAreCounted(s: seq<CreditRequest>, u: nat)
    ensures multiset(Uuids(s))[u] == CountOf(s, u)
  {
    if s != [] {
      var n := |s| - 1;
      UuidsAreCounted(s[..n], u);
      assert Uuids(s) == Uuids(s[..n]) + [s[n].uuid];
    }
  }

  lemma {:induction false} FailuresAreCounted(s: seq<CreditRequest>, u: nat)
    ensures multiset(FailureActions(s))[AuditAction(u, false)] == CountOf(s, u)
    ensures multiset(FailureActions(s))[AuditAction(u, true)] == 0
  {
    if s != [] {
      var n := |s| - 1;
      FailuresAreCounted(s[..n], u);
      assert FailureActions(s) == FailureActions(s[..n]) + [AuditAction(s[n].uuid, false)];
    }
  }

  lemma CountsAreMultiplicities(s: seq<CreditRequest>, u: nat)
    ensures multiset(Uuids(s))[u] == CountOf(s, u)
    ensures multiset(FailureActions(s))[AuditAction(u, false)] == CountOf(s, u)
    ensures multiset(FailureActions(s))[AuditAction(u, true)] == 0
  {
    UuidsAreCounted(s, u);
    FailuresAreCounted(s, u);
  }

  lemma {:induction false} CountOfConcat(a: seq<CreditRequest>, b: seq<CreditRequest>, u: nat)
    ensures CountOf(a + b, u) == CountOf(a, u) + CountOf(b, u)
  {
    if b == [] {
      assert a + b == a;
    } else {
      var n := |b| - 1;
      assert (a + b)[..|a + b| - 1] == a + b[..n];
      CountOfConcat(a, b[..n], u);
    }
  }

  lemma {:induction false} SameRequestsSameCounts(a: seq<CreditRequest>, b: seq<CreditRequest>, u: nat)
    requires multiset(a) == multiset(b)
    ensures CountOf(a, u) == CountOf(b, u)
  {
    if a == [] {
      assert |multiset(b)| == 0;
    } else {
      var n := |a| - 1;
      assert a == a[..n] + [a[n]];
      assert a[n] in multiset(b);
      var k :| 0 <= k < |b| && b[k] == a[n];
      var rest := b[..k] + b[k + 1..];
      assert b == b[..k] + [b[k]] + b[k + 1..];
      assert multiset(b) == multiset(b[..k]) + multiset([b[k]]) + multiset(b[k + 1..]);
      assert multiset(a) == multiset(a[..n]) + multiset{a[n]};
      assert multiset(rest) == multiset(b[..k]) + multiset(b[k + 1..]);
      assert multiset(rest) + multiset{a[n]} == multiset(a[..n]) + multiset{a[n]};
      CancelOne(multiset(rest), multiset(a[..n]), a[n]);
      SameRequestsSameCounts(a[..n], rest, u);
      CountOfConcat(b[..k], b[k + 1..], u);
      CountOfConcat(b[..k], [b[k]], u);
      CountOfConcat(b[..k] + [b[k]], b[k + 1..], u);
      assert [b[k]][..0] == [];
    }
  }

  lemma CancelOne(m: multiset<CreditRequest>, n: multiset<CreditRequest>, x: CreditRequest)
    requires m + multiset{x} == n + multiset{x}
    ensures m == n
  {
    assert (m + multiset{x}) - multiset{x} == m;
  }

  lemma {:induction false} DistinctCountsAtMostOne(s: seq<CreditRequest>, u: nat)
    requires UuidsDistinct(s)
    ensures CountOf(s, u) <= 1
    ensures CountOf(s, u) == 1 <==> u in Uuids(s)
  {
    if s != [] {
      var n := |s| - 1;
      DistinctCountsAtMostOne(s[..n], u);
      assert Uuids(s) == Uuids(s[..n]) + [s[n].uuid];
      if s[n].uuid == u {
        assert forall i :: 0 <= i < n ==> Uuids(s[..n])[i] == s[i].uuid != u;
      }
    }
  }

  lemma {:induction false} AssignedAreTheValid(answer: map<nat, Option<nat>>, valid: seq<CreditRequest>)
    ensures match Assigned(answer, valid)
      case None => exists q :: q in valid && (q.uuid !in answer || answer[q.uuid].None?)
      case Some(rows) =>
        rows.Keys == (set u | u in Uuids(valid)) && forall u :: u in rows ==> u in answer && answer[u] == Some(rows[u])
  {
    if valid != [] {
      var n := |valid| - 1;
      AssignedAreTheValid(answer, valid[..n]);
      assert valid == valid[..n] + [valid[n]];
      assert Uuids(valid) == Uuids(valid[..n]) + [valid[n].uuid];
    }
  }

  // ---------- the partition ----------

  /** What was approved is what can_approve called valid. */
  lemma ApprovedAreTheValid(t: Table, a: Approval)
    ensures match ViaPolicy(t, a).1
      case Refused => true
      case Answered(approved, failed) =>
        && approved.Keys == (set u | u in Uuids(a.validation.valid))
        && failed == FailedRequests(a.validation.failedByReason)
  {
    AssignedAreTheValid(BatchMap(t, ValidBatch(a)), a.validation.valid);
  }

  /** An answer approves exactly the valid requests, and fails every request as often as it is listed under a reason. */
  lemma AnswerFollowsTheValidation(t: Table, a: Approval, q: CreditRequest)
    requires ViaPolicy(t, a).1.Answered?
    ensures ViaPolicy(t, a).1.approved.Keys == set u | u in Uuids(a.validation.valid)
    ensures multiset(ViaPolicy(t, a).1.failed)[q] == ListedCount(a.validation.failedByReason, q)
  {
    ApprovedAreTheValid(t, a);
    FailedAsOftenAsListed(a.validation.failedByReason, q);
  }

  /** The policy exists, its lock is free, and the validation reports no error. */
  predicate PassesTheGates(a: Approval) {
    a.policyExists && a.lockFree && a.validation.errorReason == ""
  }

  /** The batch of valid requests is written and hands a row to each of them. */
  ghost predicate IsHandedOut(t: Table, a: Approval) {
    var handedOut := BatchMap(t, ValidBatch(a));
    && BatchOutcome(t, ValidBatch(a)).Success?
    && forall q :: q in a.validation.valid ==> q.uuid in handedOut && handedOut[q.uuid].Some?
  }

  /**
   The policy layer answers if and only if the gates are passed and the batch of valid requests, if there are any, is
   handed out. Only a batch that is written behind the gates changes rows.
   */
  lemma PolicyAnswersIff(t: Table, a: Approval)
    ensures var valid, written := a.validation.valid, BatchOutcome(t, ValidBatch(a));
      && (ViaPolicy(t, a).1.Answered? <==> PassesTheGates(a) && (valid == [] || IsHandedOut(t, a)))
      && ViaPolicy(t, a).0 == if PassesTheGates(a) && valid != [] && written.Success? then written.value else t
  {
    var valid := a.validation.valid;
    AssignedAreTheValid(BatchMap(t, ValidBatch(a)), valid);
    forall q | q in valid {
      UuidIsListed(valid, q);
    }
  }

  /**
   When can_approve splits its input, an answer puts every processed request into exactly one of approved
   and failed, with exactly one audit action, which says the same.
   */
  lemma AnswersSplitTheProcessed(
      t: Table, a: Approval, processed: seq<CreditRequest>, given: seq<CreditRequest>, u: nat)
    requires processed != [] && UuidsDistinct(processed) && Splits(processed, a.validation) && u in Uuids(processed)
    ensures var answer := ViaPolicy(t, a).1;
      var r, actions := ApprovalReportOf(processed, given, answer), ActionsOf(processed, answer);
      && (u in r.approved) != (u in r.failed)
      && multiset(r.failed)[u] <= 1
      && actions[AuditAction(u, true)] + actions[AuditAction(u, false)] == 1
      && (actions[AuditAction(u, true)] == 1 <==> u in r.approved)
  {
    var v := a.validation;
    var answer, failed := ViaPolicy(t, a).1, FailedRequests(v.failedByReason);
    ApprovedAreTheValid(t, a);
    DistinctCountsAtMostOne(processed, u);
    CountsAreMultiplicities(processed, u);
    CountsAreMultiplicities(failed, u);
    CountsAreMultiplicities(v.valid, u);
    SplitIntoValidAndFailed(processed, v);
    assert multiset(v.valid + failed) == multiset(processed);
    SameRequestsSameCounts(v.valid + failed, processed, u);
    CountOfConcat(v.valid, failed, u);
    if answer.Answered? {
      assert u in answer.approved.Keys <==> u in Uuids(v.valid);
      assert AuditAction(u, true) in SuccessActions(answer.approved.Keys) <==> u in answer.approved.Keys;
      assert u in Uuids(failed) <==> CountOf(failed, u) > 0;
    }
  }

  /**
   An approved request points at an allocated row for its learner, course and price if and only if the row it
   reuses carries its LMS id and no later row of the batch carries the same id and course.
   */
  lemma ApprovedRequestHasItsRowIff(t: Table, a: Approval, q: CreditRequest)
    requires DistinctRequests(a.validation.valid) && q in a.validation.valid && ViaPolicy(t, a).1.Answered?
    ensures var (rows, answer) := ViaPolicy(t, a);
      && q.uuid in answer.approved && answer.approved[q.uuid] < |rows|
      && (IsRowFor(rows[answer.approved[q.uuid]], ValidBatch(a), q) <==>
            Linked(t, a.batch.config, q) && IsLastCarrier(t, ValidBatch(a), q))
      && (Linked(t, a.batch.config, q) && IsLastCarrier(t, ValidBatch(a), q) ==>
            answer.approved[q.uuid] == Position(t, ValidBatch(a), q))
  {
    var b := ValidBatch(a);
    AnsweredRowsAreTheMapped(t, a, q);
    RequestGetsItsRowIff(t, b, q);
    EntryIsTheLastCarrier(t, b, q);
    CarriesItself(t, b.config, q);
    var r :| r in b.requests && Carries(t, b.config, r, q) && BatchMap(t, b)[q.uuid] == Some(Position(t, b, r));
    CarrierIsFound(t, b, r, q);
  }

  /** An answer reports the rows that the batch map holds. */
  lemma AnsweredRowsAreTheMapped(t: Table, a: Approval, q: CreditRequest)
    requires ViaPolicy(t, a).1.Answered? && q in a.validation.valid
    ensures var b := ValidBatch(a); var (rows, answer) := ViaPolicy(t, a);
      && rows == BatchProposal(t, b)
      && q.uuid in answer.approved && q.uuid in BatchMap(t, b)
      && BatchMap(t, b)[q.uuid] == Some(answer.approved[q.uuid])
  {
    AssignedAreTheValid(BatchMap(t, ValidBatch(a)), a.validation.valid);
    UuidIsListed(a.validation.valid, q);
  }

  lemma UuidIsListed(s: seq<CreditRequest>, q: CreditRequest)
    requires q in s
    ensures q.uuid in Uuids(s)
  {
    var k :| 0 <= k < |s| && s[k] == q;
    assert Uuids(s)[k] == q.uuid;
  }

  // ---------- ids that do not match ----------

  /**
   When the batch is written, the answer is a refusal if and only if some request's LMS id and course
   are carried by no row of the batch. The rows and the debit are written either way.
   */
  lemma RefusedAfterWritingIff(t: Table, a: Approval)
    requires a.policyExists && a.lockFree && a.validation.errorReason == "" && a.validation.valid != []
    requires DistinctRequests(a.validation.valid) && BatchOutcome(t, ValidBatch(a)).Success?
    ensures ViaPolicy(t, a).1.Refused? <==>
      exists q :: q in a.validation.valid && !Carried(t, a.batch.config, a.validation.valid, q)
    ensures ViaPolicy(t, a).0 == BatchOutcome(t, ValidBatch(a)).value
    ensures AllocatedTotal(ViaPolicy(t, a).0, a.batch.config)
         == AllocatedTotal(t, a.batch.config) - PriceSum(a.validation.valid)
  {
    var b := ValidBatch(a);
    AssignedAreTheValid(BatchMap(t, b), b.requests);
    BatchCostsItsPrices(t, b, b.config);
    forall q | q in b.requests
      ensures q.uuid in BatchMap(t, b)
      ensures BatchMap(t, b)[q.uuid].None? <==> !Carried(t, b.config, b.requests, q)
      ensures Assigned(BatchMap(t, b), b.requests).Some? ==> BatchMap(t, b)[q.uuid].Some?
    {
      EntryIsTheLastCarrier(t, b, q);
      UuidIsListed(b.requests, q);
    }
  }

  /** An approved request that does not point at its own row points at the row of another request. */
  lemma OtherwiseItIsSomeoneElses(t: Table, a: Approval, q: CreditRequest) returns (r: CreditRequest)
    requires DistinctRequests(a.validation.valid) && q in a.validation.valid && ViaPolicy(t, a).1.Answered?
    requires !(Linked(t, a.batch.config, q) && IsLastCarrier(t, ValidBatch(a), q))
    ensures var (rows, answer) := ViaPolicy(t, a);
      && q.uuid in answer.approved && answer.approved[q.uuid] == Position(t, ValidBatch(a), r) < |rows|
      && r in a.validation.valid && r != q && Carries(t, a.batch.config, r, q)
      && FiledUnder(rows[answer.approved[q.uuid]]) == LookupKey(r) != LookupKey(q)
  {
    var b := ValidBatch(a);
    AnsweredRowsAreTheMapped(t, a, q);
    EntryIsTheLastCarrier(t, b, q);
    r :| r in b.requests && Carries(t, b.config, r, q) && BatchMap(t, b)[q.uuid] == Some(Position(t, b, r));
    var i := RowOfRequest(t, b, r);
    if r == q {
      CarriesItself(t, b.config, q);
      assert false;
    }
    DifferentRequestsDiffer(b.requests, q, r);
  }

  /** Two requests whose reusable rows carry each other's LMS ids are both approved, each with the other's row. */
  lemma CrossedRequestsAreApproved(t: Table, a: Approval, q: CreditRequest, r: CreditRequest, i: nat, j: nat)
    requires a.policyExists && a.lockFree && a.validation.errorReason == "" && a.validation.valid == [q, r]
    requires UniqueKeys(t) && DistinctPair(q, r) && q.course == r.course && 0 <= q.price && 0 <= r.price
    requires Reusable(t, a.batch.config, q) == Some(i) && Reusable(t, a.batch.config, r) == Some(j)
    requires i < |t| && j < |t| && q.lms.Some? && r.lms.Some? && t[i].lms == r.lms && t[j].lms == q.lms
    ensures var answer := ViaPolicy(t, a).1;
      && answer.Answered? && q.uuid in answer.approved && r.uuid in answer.approved
      && answer.approved[q.uuid] == j != i && answer.approved[r.uuid] == i
  {
    assert [q, r][0] == q && [q, r][1] == r;
    CrossedRequestsAreAnswered(t, a, q, r);
    CrossedRow(t, a, q, r, i, j);
    CrossedRow(t, a, r, q, j, i);
  }

  /** Two requests that carry each other are not missed. */
  lemma CrossedRequestsAreAnswered(t: Table, a: Approval, q: CreditRequest, r: CreditRequest)
    requires a.policyExists && a.lockFree && a.validation.errorReason == "" && a.validation.valid == [q, r]
    requires UniqueKeys(t) && DistinctPair(q, r) && 0 <= q.price && 0 <= r.price
    requires Reusable(t, a.batch.config, q).Some? && Reusable(t, a.batch.config, r).Some?
    requires Carries(t, a.batch.config, q, r) && Carries(t, a.batch.config, r, q)
    ensures DistinctRequests(a.validation.valid) && ViaPolicy(t, a).1.Answered?
  {
    assert [q, r][0] == q && [q, r][1] == r;
    BatchSucceedsIffPlaceable(t, ValidBatch(a));
    RefusedAfterWritingIff(t, a);
    assert Carried(t, a.batch.config, [q, r], q) && Carried(t, a.batch.config, [q, r], r);
  }

  lemma CrossedRow(t: Table, a: Approval, q: CreditRequest, r: CreditRequest, i: nat, j: nat)
    requires UniqueKeys(t) && DistinctRequests(a.validation.valid) && q in a.validation.valid && r in a.validation.valid
    requires forall s :: s in a.validation.valid ==> s == q || s == r
    requires Reusable(t, a.batch.config, q) == Some(i) && Reusable(t, a.batch.config, r) == Some(j)
    requires i < |t| && j < |t| && q.lms.Some? && t[i].lms != q.lms && ViaPolicy(t, a).1.Answered?
    ensures var answer := ViaPolicy(t, a).1; q.uuid in answer.approved && answer.approved[q.uuid] == j
  {
    var other := OtherwiseItIsSomeoneElses(t, a, q);
    assert other == r;
  }

  /** Such a table exists: two cancelled rows whose LMS ids are swapped. */
  lemma CrossedIdsExample() returns (t: Table, a: Approval, q: CreditRequest, r: CreditRequest)
    ensures |t| == 2 && UniqueKeys(t) && a.validation.valid == [q, r] && ViaPolicy(t, a).1.Answered?
    ensures !Linked(t, a.batch.config, q) && !Linked(t, a.batch.config, r)
    ensures q.uuid in ViaPolicy(t, a).1.approved && ViaPolicy(t, a).1.approved[q.uuid] == 1
    ensures r.uuid in ViaPolicy(t, a).1.approved && ViaPolicy(t, a).1.approved[r.uuid] == 0
    ensures FiledUnder(t[0]) == LookupKey(q) && FiledUnder(t[1]) == LookupKey(r)
  {
    var row := Assignment(0, "a", Some(2), "course", -1, AssignmentState.Cancelled, 0, None, None, false, 0,
                          None, None, None, None, None);
    t := [row, row.(email := "b", lms := Some(1))];
    q := CreditRequest(1, "a", Some(1), "course", 1);
    r := CreditRequest(2, "b", Some(2), "course", 1);
    a := Approval(true, true, Validation("", [q, r], []), Batch(0, [q, r], map[], 0, 0), "reviewer", 0);
    assert Lower("a")[0] == 'a' && Lower("b")[0] == 'b';
    assert t[..1] == [row] && t[..2] == t;
    assert FiledUnder(t[1]) == LookupKey(r) != LookupKey(q);
    assert Reusable(t, 0, r) == Some(1);
    assert Reusable([row], 0, q) == Some(0);
    assert Reusable(t, 0, q) == Some(0);
    CrossedRequestsAreApproved(t, a, q, r, 0, 1);
  }
}
