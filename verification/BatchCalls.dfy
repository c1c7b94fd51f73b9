/** What a batch of credit requests writes, said in terms of the requests and the course metadata. */
module BatchCalls {
  import opened Wrappers
  import opened Emails
  import opened Assignments
  import opened Allocation
  import opened AllocationCalls
  import opened RequestAllocation
  import opened BatchSuccess
  import opened BatchApprovalProofs

  // ---------- the reused row ----------

  /** A row that can return, filed under the request's course and mailbox. */
  predicate CanServe(row: Assignment, config: nat, q: CreditRequest) {
    row.config == config && row.content == q.course && CanReturn(row.state) && Lower(row.email) == Lower(q.email)
  }

  /** The request reuses the last row that can serve it. */
  ghost predicate Reuses(t: Table, config: nat, q: CreditRequest, i: int) {
    0 <= i < |t| && CanServe(t[i], config, q) && forall j :: i < j < |t| ==> !CanServe(t[j], config, q)
  }

  lemma {:induction false} ReusableIsTheLast(t: Table, config: nat, q: CreditRequest)
    ensures match Reusable(t, config, q)
      case Some(i) => Reuses(t, config, q, i)
      case None => forall i :: 0 <= i < |t| ==> !CanServe(t[i], config, q)
  {
    if t != [] {
      var n := |t| - 1;
      ReusableIsTheLast(t[..n], config, q);
      assert CanServe(t[n], config, q)
        <==> t[n].config == config && Reallocatable(t[n].state) && FiledUnder(t[n]) == LookupKey(q);
    }
  }

  lemma ReusesIffReusable(t: Table, config: nat, q: CreditRequest, i: nat)
    ensures Reuses(t, config, q, i) <==> Reusable(t, config, q) == Some(i)
  {
    ReusableIsTheLast(t, config, q);
  }

  // ---------- what is written ----------

  /** Allocated at the request's price under the batch, with the run and parent of its course if those are known. */
  predicate IsAllocatedFor(row: Assignment, b: Batch, q: CreditRequest) {
    && row.config == b.config && row.content == q.course
    && row.state == Allocated && row.quantity == -q.price && row.batch == b.batch && row.allocatedAt == b.now
    && (if q.course in b.metadata then
          row.preferredRun == b.metadata[q.course].runKey && row.parentKey == b.metadata[q.course].parentKey
        else row.preferredRun == None && row.parentKey == None)
    && (row.isRun <==> row.parentKey.Some? && row.parentKey.value != "")
    && row.cancelledAt.None? && row.expiredAt.None? && row.erroredAt.None?
  }

  /** The last of the requests that reuses a row. */
  ghost predicate IsLastReuser(t: Table, config: nat, requests: seq<CreditRequest>, k: int, i: nat) {
    && 0 <= k < |requests| && Reuses(t, config, requests[k], i)
    && forall j :: k < j < |requests| ==> !Reuses(t, config, requests[j], i)
  }

  lemma {:induction false} RevivedIffReused(t: Table, b: Batch, requests: seq<CreditRequest>, i: nat)
    ensures i in PlanFor(t, b, requests).revived <==> exists q :: q in requests && Reuses(t, b.config, q, i)
  {
    if requests != [] {
      var n := |requests| - 1;
      RevivedIffReused(t, b, requests[..n], i);
      ReusableIsOwned(t, b.config, requests[n]);
      ReusesIffReusable(t, b.config, requests[n], i);
      assert requests == requests[..n] + [requests[n]];
    }
  }

  /** What is saved for a reused row is the row revived for the last request that reuses it. */
  lemma {:induction false} RevivedByTheLast(t: Table, b: Batch, requests: seq<CreditRequest>, k: int, i: nat)
    requires IsLastReuser(t, b.config, requests, k, i)
    ensures i in PlanFor(t, b, requests).revived
    ensures Save(t[i], PlanFor(t, b, requests).revived[i]) == Save(t[i], Revive(t[i], b, requests[k]))
  {
    var n := |requests| - 1;
    ReusableIsOwned(t, b.config, requests[n]);
    ReusesIffReusable(t, b.config, requests[n], i);
    if k == n {
      PlanKeepsIdentities(t, b, requests[..n]);
    } else {
      assert IsLastReuser(t, b.config, requests[..n], k, i);
      RevivedByTheLast(t, b, requests[..n], k, i);
    }
  }

  lemma {:induction false} LastReuserExists(t: Table, config: nat, requests: seq<CreditRequest>, i: nat)
    requires exists q :: q in requests && Reuses(t, config, q, i)
    ensures exists k :: IsLastReuser(t, config, requests, k, i)
  {
    var n := |requests| - 1;
    if Reuses(t, config, requests[n], i) {
      assert IsLastReuser(t, config, requests, n, i);
    } else {
      assert requests == requests[..n] + [requests[n]];
      LastReuserExists(t, config, requests[..n], i);
      var k :| IsLastReuser(t, config, requests[..n], k, i);
      assert IsLastReuser(t, config, requests, k, i);
    }
  }

  /** The row is allocated for this request and keeps its email, its LMS id and its acceptance and reversal times. */
  predicate IsRevivedFor(before: Assignment, after: Assignment, b: Batch, q: CreditRequest) {
    && IsAllocatedFor(after, b, q)
    && after.email == before.email && after.lms == before.lms
    && after.acceptedAt == before.acceptedAt && after.reversedAt == before.reversedAt
  }

  lemma RevivedIsSavedFor(row: Assignment, b: Batch, q: CreditRequest)
    requires row.config == b.config && row.content == q.course
    ensures IsRevivedFor(row, Save(row, Revive(row, b, q)), b, q)
  {
  }

  /**
   A batch that goes through leaves a row that no request reuses as it is, and writes a reused row for the last
   request that reuses it.
   */
  lemma BatchRewritesRows(t: Table, b: Batch, i: nat)
    requires i < |t| && BatchOutcome(t, b).Success?
    ensures i < |BatchOutcome(t, b).value|
    ensures if exists q :: q in b.requests && Reuses(t, b.config, q, i)
      then exists k :: IsLastReuser(t, b.config, b.requests, k, i)
                       && IsRevivedFor(t[i], BatchOutcome(t, b).value[i], b, b.requests[k])
      else BatchOutcome(t, b).value[i] == t[i]
  {
    RevivedIffReused(t, b, b.requests, i);
    if exists q :: q in b.requests && Reuses(t, b.config, q, i) {
      LastReuserExists(t, b.config, b.requests, i);
      var k :| IsLastReuser(t, b.config, b.requests, k, i);
      RevivedByTheLast(t, b, b.requests, k, i);
      RevivedIsSavedFor(t[i], b, b.requests[k]);
    }
  }

  /** The row of a request that no row can serve, with the request's email and LMS id. */
  predicate IsCreatedFor(row: Assignment, b: Batch, q: CreditRequest) {
    && IsAllocatedFor(row, b, q) && row.email == q.email && row.lms == q.lms
    && row.acceptedAt.None? && row.reversedAt.None?
  }

  /** Behind the stored rows it adds, in their order, one row for every request that no row can serve, and no other. */
  lemma BatchCreatesRows(t: Table, b: Batch)
    requires BatchOutcome(t, b).Success?
    ensures |BatchOutcome(t, b).value| == |t| + |Unplaced(t, b.config, b.requests)|
    ensures forall k :: 0 <= k < |Unplaced(t, b.config, b.requests)| ==>
      IsCreatedFor(BatchOutcome(t, b).value[|t| + k], b, Unplaced(t, b.config, b.requests)[k])
  {
    NewcomersAreTheUnplaced(t, b, b.requests);
    var unplaced := Unplaced(t, b.config, b.requests);
    forall k | 0 <= k < |unplaced|
      ensures IsCreatedFor(BatchOutcome(t, b).value[|t| + k], b, unplaced[k])
    {
      assert BatchOutcome(t, b).value[|t| + k] == RequestedRow(b, unplaced[k]);
    }
  }

  lemma UnplacedCannotBeServed(t: Table, config: nat, requests: seq<CreditRequest>, q: CreditRequest)
    ensures q in Unplaced(t, config, requests) <==>
      q in requests && forall i :: 0 <= i < |t| ==> !CanServe(t[i], config, q)
  {
    UnplacedHaveNoRowToReuse(t, config, requests);
    ReusableIsTheLast(t, config, q);
  }
}
