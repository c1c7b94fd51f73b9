/** When a batch of requests goes through, what it costs, and when every request gets its own row back. */
module BatchApprovalProofs {
  import opened Wrappers
  import opened Emails
  import opened Assignments
  import opened Allocation
  import opened RequestAllocation
  import opened BatchSuccess

  // ---------- the plan under distinct requests ----------

  /** What the plan holds for a prefix of distinct requests. */
  ghost predicate PlanShape(t: Table, b: Batch, requests: seq<CreditRequest>, p: Plan) {
    && (forall i :: i in p.revived ==> exists q :: q in requests && RevivedFor(t, b, q, p, i))
    && (forall q :: q in requests ==> Planned(t, b, q, p))
    && (forall q :: q in p.newcomers ==> q in requests && Reusable(t, b.config, q).None?)
  }

  ghost predicate Planned(t: Table, b: Batch, q: CreditRequest, p: Plan) {
    match Reusable(t, b.config, q)
    case Some(i) => i in p.revived && i < |t| && p.revived[i] == Revive(t[i], b, q)
    case None => q in p.newcomers
  }

  ghost predicate RevivedFor(t: Table, b: Batch, q: CreditRequest, p: Plan, i: nat) {
    Hits(t, b, q, i) && i in p.revived && i < |t| && p.revived[i] == Revive(t[i], b, q)
  }

  ghost predicate Hits(t: Table, b: Batch, q: CreditRequest, i: nat) {
    Reusable(t, b.config, q) == Some(i)
  }

  lemma DistinctRequestsHitDistinctRows(t: Table, b: Batch, requests: seq<CreditRequest>, q: CreditRequest, i: nat)
    requires requests != [] && DistinctRequests(requests)
    requires q in requests[..|requests| - 1] && Hits(t, b, q, i)
    ensures !Hits(t, b, requests[|requests| - 1], i)
  {
    ReusableIsOwned(t, b.config, q);
    ReusableIsOwned(t, b.config, requests[|requests| - 1]);
    var k :| 0 <= k < |requests| - 1 && requests[k] == q;
    assert DistinctPair(requests[k], requests[|requests| - 1]);
  }

  lemma {:induction false} PlanHasShape(t: Table, b: Batch, requests: seq<CreditRequest>)
    requires DistinctRequests(requests)
    ensures PlanShape(t, b, requests, PlanFor(t, b, requests))
  {
    if requests != [] {
      var n := |requests| - 1;
      var rest, q := requests[..n], requests[n];
      var before := PlanFor(t, b, rest);
      PlanHasShape(t, b, rest);
      forall r, i: nat | r in rest && Hits(t, b, r, i)
        ensures !Hits(t, b, q, i)
      {
        DistinctRequestsHitDistinctRows(t, b, requests, r, i);
      }
      forall i | i in before.revived
        ensures !Hits(t, b, q, i)
      {
        var r :| r in rest && RevivedFor(t, b, r, before, i);
      }
      PlanStep(t, b, requests);
      ShapeGrows(t, b, rest, q, before);
      assert requests == rest + [q];
    }
  }

  /** One more request that hits no row already revived. */
  lemma PlanStep(t: Table, b: Batch, requests: seq<CreditRequest>)
    requires requests != []
    requires var n := |requests| - 1;
      forall i :: i in PlanFor(t, b, requests[..n]).revived ==> !Hits(t, b, requests[n], i)
    ensures var n := |requests| - 1;
      var before, q := PlanFor(t, b, requests[..n]), requests[n];
      && PlanFor(t, b, requests) == Extended(t, b, before, q)
      && (Reusable(t, b.config, q).Some? ==>
            Reusable(t, b.config, q).value < |t| && Reusable(t, b.config, q).value !in before.revived)
  {
    var n := |requests| - 1;
    ReusableIsOwned(t, b.config, requests[n]);
    if Reusable(t, b.config, requests[n]).Some? {
      assert Hits(t, b, requests[n], Reusable(t, b.config, requests[n]).value);
    }
  }

  /** The plan after one more request, which hits no row already revived. */
  ghost function Extended(t: Table, b: Batch, before: Plan, q: CreditRequest): Plan {
    match Reusable(t, b.config, q)
    case None => before.(newcomers := before.newcomers + [q])
    case Some(i) =>
      if i < |t| then before.(revived := before.revived[i := Revive(t[i], b, q)],
                              valid := before.valid && FullClean(t, i, Revive(t[i], b, q)))
      else before
  }

  lemma ShapeGrows(t: Table, b: Batch, rest: seq<CreditRequest>, q: CreditRequest, before: Plan)
    requires PlanShape(t, b, rest, before)
    requires forall r, i: nat :: r in rest && Hits(t, b, r, i) ==> !Hits(t, b, q, i)
    ensures PlanShape(t, b, rest + [q], Extended(t, b, before, q))
  {
    var after := Extended(t, b, before, q);
    ReusableIsOwned(t, b.config, q);
    forall i | i in after.revived
      ensures exists r :: r in rest + [q] && RevivedFor(t, b, r, after, i)
    {
      if Hits(t, b, q, i) {
        assert RevivedFor(t, b, q, after, i);
      } else {
        var r :| r in rest && RevivedFor(t, b, r, before, i);
        assert RevivedFor(t, b, r, after, i);
      }
    }
    forall r | r in rest + [q]
      ensures Planned(t, b, r, after)
    {
      if r in rest {
        assert Planned(t, b, r, before);
        assert Reusable(t, b.config, r).Some? ==> Hits(t, b, r, Reusable(t, b.config, r).value);
      }
    }
  }

  // ---------- the returned map ----------

  /** The entry returned for a request is a row for that learner's email. */
  ghost predicate GetsOwnRow(t: Table, b: Batch, q: CreditRequest) {
    && q.uuid in BatchMap(t, b)
    && match BatchMap(t, b)[q.uuid]
       case None => false
       case Some(i) => i < |BatchProposal(t, b)| && IsRowFor(BatchProposal(t, b)[i], b, q)
  }

  /** An allocated row of the request's configuration, course, learner and price. */
  ghost predicate IsRowFor(row: Assignment, b: Batch, q: CreditRequest) {
    && row.config == b.config && row.content == q.course
    && Lower(row.email) == Lower(q.email) && row.lms == q.lms
    && row.state.Allocated? && row.quantity == -q.price
  }

  /** The row a request would reuse carries the requester's LMS id. */
  ghost predicate Linked(t: Table, config: nat, q: CreditRequest) {
    match Reusable(t, config, q)
    case None => true
    case Some(i) => i < |t| && t[i].lms == q.lms
  }

  lemma {:induction false} LookupFindsAffectedRow(
      t: Table, affected: set<nat>, n: nat, lms: Option<LmsUserId>, course: string)
    requires n <= |t|
    ensures match ByLearnerAndCourse(t, affected, n, lms, course)
      case None => forall i :: 0 <= i < n && i in affected && t[i].lms == lms ==> t[i].content != course
      case Some(i) =>
        && i < n && i in affected && t[i].lms == lms && t[i].content == course
        && forall j :: i < j < n && j in affected && t[j].lms == lms ==> t[j].content != course
  {
    if n != 0 {
      LookupFindsAffectedRow(t, affected, n - 1, lms, course);
    }
  }

  lemma {:induction false} MapKeysAreTheRequests(t: Table, affected: set<nat>, requests: seq<CreditRequest>)
    ensures MapRequests(t, affected, requests).Keys == set q | q in requests :: q.uuid
  {
    if requests != [] {
      MapKeysAreTheRequests(t, affected, requests[..|requests| - 1]);
      assert requests == requests[..|requests| - 1] + [requests[|requests| - 1]];
    }
  }

  lemma {:induction false} MapEntryOfRequest(t: Table, affected: set<nat>, requests: seq<CreditRequest>, k: nat)
    requires UuidsDistinct(requests) && k < |requests|
    ensures var q := requests[k];
      && q.uuid in MapRequests(t, affected, requests)
      && MapRequests(t, affected, requests)[q.uuid] == ByLearnerAndCourse(t, affected, |t|, q.lms, q.course)
  {
    if k < |requests| - 1 {
      MapEntryOfRequest(t, affected, requests[..|requests| - 1], k);
    }
  }

  lemma MapHasEveryRequest(t: Table, affected: set<nat>, requests: seq<CreditRequest>)
    requires UuidsDistinct(requests)
    ensures MapRequests(t, affected, requests).Keys == set q | q in requests :: q.uuid
    ensures forall q :: q in requests ==>
      && q.uuid in MapRequests(t, affected, requests)
      && MapRequests(t, affected, requests)[q.uuid] == ByLearnerAndCourse(t, affected, |t|, q.lms, q.course)
  {
    MapKeysAreTheRequests(t, affected, requests);
    forall k: nat | k < |requests| {
      MapEntryOfRequest(t, affected, requests, k);
    }
  }

  // ---------- where the rows of the requests are ----------

  function IndexOf(s: seq<CreditRequest>, q: CreditRequest): nat {
    if s == [] || s[|s| - 1] == q then |s| - (if s == [] then 0 else 1) else IndexOf(s[..|s| - 1], q)
  }

  lemma {:induction false} IndexOfFinds(s: seq<CreditRequest>, q: CreditRequest)
    requires q in s
    ensures IndexOf(s, q) < |s| && s[IndexOf(s, q)] == q
  {
    if s[|s| - 1] != q {
      assert s == s[..|s| - 1] + [s[|s| - 1]];
      IndexOfFinds(s[..|s| - 1], q);
    }
  }

  /** The row written for a request: the one it reuses, or its place among the new ones. */
  ghost function Position(t: Table, b: Batch, q: CreditRequest): nat {
    match Reusable(t, b.config, q)
    case Some(i) => i
    case None => |t| + IndexOf(Unplaced(t, b.config, b.requests), q)
  }

  lemma RevivedRowIsForIts(row: Assignment, b: Batch, q: CreditRequest)
    requires row.config == b.config && FiledUnder(row) == LookupKey(q)
    ensures var u := Save(row, Revive(row, b, q));
      && u.config == b.config && FiledUnder(u) == LookupKey(q) && u.lms == row.lms
      && (row.lms == q.lms ==> IsRowFor(u, b, q))
  {
  }

  lemma NewRowIsForIts(b: Batch, q: CreditRequest)
    ensures FiledUnder(RequestedRow(b, q)) == LookupKey(q) && IsRowFor(RequestedRow(b, q), b, q)
  {
  }

  lemma RevivedPosition(t: Table, b: Batch, i: nat)
    requires i in PlanFor(t, b, b.requests).revived
    ensures Affected(t, b, i) && i < |t| <= |BatchProposal(t, b)|
    ensures BatchProposal(t, b)[i] == Save(t[i], PlanFor(t, b, b.requests).revived[i])
  {
  }

  lemma NewcomerPosition(t: Table, b: Batch, q: CreditRequest)
    requires q in PlanFor(t, b, b.requests).newcomers
    ensures var i := |t| + IndexOf(Unplaced(t, b.config, b.requests), q);
      i < |BatchProposal(t, b)| && Affected(t, b, i) && BatchProposal(t, b)[i] == RequestedRow(b, q)
  {
    NewcomersAreTheUnplaced(t, b, b.requests);
    IndexOfFinds(PlanFor(t, b, b.requests).newcomers, q);
  }

  lemma PlannedReuse(t: Table, b: Batch, q: CreditRequest, i: nat)
    requires DistinctRequests(b.requests) && q in b.requests && Hits(t, b, q, i)
    ensures i < |t| <= |BatchProposal(t, b)| && Affected(t, b, i)
    ensures BatchProposal(t, b)[i] == Save(t[i], Revive(t[i], b, q))
  {
    RequestIsPlanned(t, b, q);
    RevivedPosition(t, b, i);
  }

  lemma PlannedNewRow(t: Table, b: Batch, q: CreditRequest)
    requires DistinctRequests(b.requests) && q in b.requests && Reusable(t, b.config, q).None?
    ensures var i := Position(t, b, q);
      i < |BatchProposal(t, b)| && Affected(t, b, i) && BatchProposal(t, b)[i] == RequestedRow(b, q)
  {
    RequestIsPlanned(t, b, q);
    NewcomerPosition(t, b, q);
  }

  lemma RequestIsPlanned(t: Table, b: Batch, q: CreditRequest)
    requires DistinctRequests(b.requests) && q in b.requests
    ensures Planned(t, b, q, PlanFor(t, b, b.requests))
  {
    PlanHasShape(t, b, b.requests);
  }

  /** The row written for a request: the revived one or the new one. */
  lemma RowOfRequest(t: Table, b: Batch, q: CreditRequest) returns (i: nat)
    requires DistinctRequests(b.requests) && q in b.requests
    ensures i == Position(t, b, q) < |BatchProposal(t, b)| && Affected(t, b, i)
    ensures Linked(t, b.config, q) ==> IsRowFor(BatchProposal(t, b)[i], b, q)
    ensures BatchProposal(t, b)[i].config == b.config && FiledUnder(BatchProposal(t, b)[i]) == LookupKey(q)
    ensures Reusable(t, b.config, q).Some? ==> i < |t| && BatchProposal(t, b)[i].lms == t[i].lms && Hits(t, b, q, i)
  {
    i := Position(t, b, q);
    ReusableIsOwned(t, b.config, q);
    match Reusable(t, b.config, q) {
      case Some(_) =>
        PlannedReuse(t, b, q, i);
        RevivedRowIsForIts(t[i], b, q);
      case None =>
        PlannedNewRow(t, b, q);
        NewRowIsForIts(b, q);
    }
  }

  // ---------- whose row a request gets ----------

  /** The row of one request carries another's LMS id (or none, if it has none) and course. */
  ghost predicate Carries(t: Table, config: nat, r: CreditRequest, q: CreditRequest) {
    && r.course == q.course
    && match Reusable(t, config, r)
       case None => r.lms == q.lms
       case Some(i) => i < |t| && t[i].lms == q.lms
  }

  ghost predicate Carried(t: Table, config: nat, requests: seq<CreditRequest>, q: CreditRequest) {
    exists r :: r in requests && Carries(t, config, r, q)
  }

  /** No row that carries the request's LMS id and course is written after its own. */
  ghost predicate IsLastCarrier(t: Table, b: Batch, q: CreditRequest) {
    forall r :: r in b.requests && Carries(t, b.config, r, q) ==> Position(t, b, r) <= Position(t, b, q)
  }

  /** Every row the batch writes belongs to one of its requests. */
  lemma WriterOfRow(t: Table, b: Batch, j: nat) returns (r: CreditRequest)
    requires DistinctRequests(b.requests) && j in AffectedIds(t, b)
    ensures r in b.requests && j == Position(t, b, r) && BatchProposal(t, b)[j].content == r.course
    ensures BatchProposal(t, b)[j].config == b.config && FiledUnder(BatchProposal(t, b)[j]) == LookupKey(r)
    ensures forall q: CreditRequest :: q.course == r.course ==>
      (Carries(t, b.config, r, q) <==> BatchProposal(t, b)[j].lms == q.lms)
  {
    var p := PlanFor(t, b, b.requests);
    PlanHasShape(t, b, b.requests);
    if j < |t| {
      r :| r in b.requests && RevivedFor(t, b, r, p, j);
      ReusableIsOwned(t, b.config, r);
      UpdatedKeepsKeys(t, b, j);
    } else {
      r := WriterOfNewRow(t, b, j);
    }
  }

  lemma WriterOfNewRow(t: Table, b: Batch, j: nat) returns (r: CreditRequest)
    requires DistinctRequests(b.requests) && |t| <= j < |BatchProposal(t, b)|
    ensures r in b.requests && Reusable(t, b.config, r).None? && j == Position(t, b, r)
    ensures BatchProposal(t, b)[j] == RequestedRow(b, r)
  {
    var newcomers := Unplaced(t, b.config, b.requests);
    ProposedRow(t, b, j);
    UnplacedHaveNoRowToReuse(t, b.config, b.requests);
    DistinctUnplacedDoNotCompete(t, b.config, b.requests);
    r := newcomers[j - |t|];
    assert r in newcomers;
    IndexOfFinds(newcomers, r);
    assert forall k :: 0 <= k < |newcomers| && newcomers[k] == r ==> !(k < j - |t|) && !(j - |t| < k) by {
      assert Competing(r, r);
    }
  }

  lemma DifferentRequestsDiffer(requests: seq<CreditRequest>, q: CreditRequest, r: CreditRequest)
    requires DistinctRequests(requests) && q in requests && r in requests && q != r
    ensures q.uuid != r.uuid && LookupKey(q) != LookupKey(r)
  {
    var i :| 0 <= i < |requests| && requests[i] == q;
    var j :| 0 <= j < |requests| && requests[j] == r;
    assert i < j ==> DistinctPair(requests[i], requests[j]);
    assert j < i ==> DistinctPair(requests[j], requests[i]);
  }

  lemma DistinctRequestsHaveDistinctUuids(requests: seq<CreditRequest>)
    requires DistinctRequests(requests)
    ensures UuidsDistinct(requests)
  {
    forall i, j | 0 <= i < j < |requests|
      ensures requests[i].uuid != requests[j].uuid
    {
      assert DistinctPair(requests[i], requests[j]);
    }
  }

  /** A request is handed the last row of the batch that carries its LMS id and course, if there is one. */
  lemma EntryIsTheLastCarrier(t: Table, b: Batch, q: CreditRequest)
    requires DistinctRequests(b.requests) && q in b.requests
    ensures q.uuid in BatchMap(t, b)
    ensures match BatchMap(t, b)[q.uuid]
      case None => !Carried(t, b.config, b.requests, q)
      case Some(j) =>
        && (exists r :: r in b.requests && Carries(t, b.config, r, q) && j == Position(t, b, r))
        && forall r :: r in b.requests && Carries(t, b.config, r, q) ==> Position(t, b, r) <= j
  {
    var all, affected := BatchProposal(t, b), AffectedIds(t, b);
    DistinctRequestsHaveDistinctUuids(b.requests);
    MapHasEveryRequest(all, affected, b.requests);
    LookupFindsAffectedRow(all, affected, |all|, q.lms, q.course);
    forall r | r in b.requests && Carries(t, b.config, r, q)
      ensures BatchMap(t, b)[q.uuid].Some? && Position(t, b, r) <= BatchMap(t, b)[q.uuid].value
    {
      CarrierIsFound(t, b, r, q);
    }
    if BatchMap(t, b)[q.uuid].Some? {
      var r := WriterOfRow(t, b, BatchMap(t, b)[q.uuid].value);
      assert Carries(t, b.config, r, q);
    }
  }

  lemma CarrierIsFound(t: Table, b: Batch, r: CreditRequest, q: CreditRequest)
    requires DistinctRequests(b.requests) && r in b.requests && Carries(t, b.config, r, q)
    ensures var i, all := Position(t, b, r), BatchProposal(t, b);
      i in AffectedIds(t, b) && all[i].lms == q.lms && all[i].content == q.course
  {
    var i := RowOfRequest(t, b, r);
  }

  /**
   A request of a batch without repetitions gets its own row back if and only if the row it reuses carries
   its LMS id and no later row of the batch carries the same id and course. The second condition only
   matters for users without an LMS id.
   */
  lemma RequestGetsItsRowIff(t: Table, b: Batch, q: CreditRequest)
    requires DistinctRequests(b.requests) && q in b.requests
    ensures GetsOwnRow(t, b, q) <==> Linked(t, b.config, q) && IsLastCarrier(t, b, q)
  {
    if Linked(t, b.config, q) && IsLastCarrier(t, b, q) {
      LastLinkedRequestGetsItsRow(t, b, q);
    }
    if GetsOwnRow(t, b, q) {
      OwnRowIsLastAndLinked(t, b, q);
    }
  }

  lemma CarriesItself(t: Table, config: nat, q: CreditRequest)
    ensures Carries(t, config, q, q) ==> Linked(t, config, q)
    ensures Linked(t, config, q) ==> Carries(t, config, q, q)
  {
  }

  lemma LastLinkedRequestGetsItsRow(t: Table, b: Batch, q: CreditRequest)
    requires DistinctRequests(b.requests) && q in b.requests && Linked(t, b.config, q) && IsLastCarrier(t, b, q)
    ensures GetsOwnRow(t, b, q)
  {
    EntryIsTheLastCarrier(t, b, q);
    CarriesItself(t, b.config, q);
    assert Carried(t, b.config, b.requests, q);
    var i := RowOfRequest(t, b, q);
  }

  lemma OwnRowIsLastAndLinked(t: Table, b: Batch, q: CreditRequest)
    requires DistinctRequests(b.requests) && q in b.requests && GetsOwnRow(t, b, q)
    ensures Linked(t, b.config, q) && IsLastCarrier(t, b, q)
  {
    EntryIsTheLastCarrier(t, b, q);
    var r :| r in b.requests && Carries(t, b.config, r, q) && BatchMap(t, b)[q.uuid] == Some(Position(t, b, r));
    var j := RowOfRequest(t, b, r);
    if r != q {
      DifferentRequestsDiffer(b.requests, q, r);
      assert false;
    }
    CarriesItself(t, b.config, q);
  }

  lemma RequestsGetTheirRowsIff(t: Table, b: Batch)
    requires DistinctRequests(b.requests)
    ensures BatchMap(t, b).Keys == set q | q in b.requests :: q.uuid
    ensures (forall q :: q in b.requests ==> GetsOwnRow(t, b, q))
       <==> forall q :: q in b.requests ==> Linked(t, b.config, q) && IsLastCarrier(t, b, q)
  {
    DistinctRequestsHaveDistinctUuids(b.requests);
    MapHasEveryRequest(BatchProposal(t, b), AffectedIds(t, b), b.requests);
    forall q | q in b.requests
      ensures GetsOwnRow(t, b, q) <==> Linked(t, b.config, q) && IsLastCarrier(t, b, q)
    {
      RequestGetsItsRowIff(t, b, q);
    }
  }

  /** In a batch that goes through, a linked request with an LMS id has no other carrier. */
  lemma LinkedIdsHaveOneCarrier(t: Table, b: Batch, q: CreditRequest)
    requires DistinctRequests(b.requests) && BatchOutcome(t, b).Success? && q in b.requests && q.lms.Some?
    ensures Linked(t, b.config, q) ==> IsLastCarrier(t, b, q)
  {
    if Linked(t, b.config, q) {
      CarrierIsFound(t, b, q, q);
      var i := RowOfRequest(t, b, q);
      forall r | r in b.requests && Carries(t, b.config, r, q)
        ensures Position(t, b, r) <= Position(t, b, q)
      {
        CarrierIsFound(t, b, r, q);
        var j := RowOfRequest(t, b, r);
        ClashingRowsAreOne(BatchProposal(t, b), i, j);
      }
    }
  }

  /** Two requests never share a row. */
  lemma OwnRowsAreDistinct(t: Table, b: Batch, q: CreditRequest, r: CreditRequest)
    requires DistinctRequests(b.requests) && q in b.requests && r in b.requests && q != r
    requires GetsOwnRow(t, b, q) && GetsOwnRow(t, b, r)
    ensures BatchMap(t, b)[q.uuid] != BatchMap(t, b)[r.uuid]
  {
    var i :| 0 <= i < |b.requests| && b.requests[i] == q;
    var j :| 0 <= j < |b.requests| && b.requests[j] == r;
    assert i < j ==> DistinctPair(b.requests[i], b.requests[j]);
    assert j < i ==> DistinctPair(b.requests[j], b.requests[i]);
  }

  // ---------- money ----------

  ghost function PriceSum(requests: seq<CreditRequest>): int {
    if requests == [] then 0 else PriceSum(requests[..|requests| - 1]) + requests[|requests| - 1].price
  }

  /**
   What a batch charges: every request its price, except one whose row a later request reuses too.
   The taken rows are those already charged for a later request.
   */
  ghost function Charged(t: Table, config: nat, requests: seq<CreditRequest>, taken: set<nat>): int {
    if requests == [] then 0
    else
      var n := |requests| - 1;
      match Reusable(t, config, requests[n])
      case None => Charged(t, config, requests[..n], taken) + requests[n].price
      case Some(i) => Charged(t, config, requests[..n], taken + {i}) + if i in taken then 0 else requests[n].price
  }

  /** Distinct requests are all charged. */
  lemma {:induction false} DistinctRequestsAreAllCharged(
      t: Table, b: Batch, requests: seq<CreditRequest>, taken: set<nat>)
    requires DistinctRequests(requests) && forall q, i :: q in requests && i in taken ==> !Hits(t, b, q, i)
    ensures Charged(t, b.config, requests, taken) == PriceSum(requests)
  {
    if requests != [] {
      var n := |requests| - 1;
      var rest, q := requests[..n], requests[n];
      assert q in requests && forall r :: r in rest ==> r in requests;
      match Reusable(t, b.config, q) {
        case None =>
          DistinctRequestsAreAllCharged(t, b, rest, taken);
        case Some(i) =>
          assert Hits(t, b, q, i);
          forall r, j | r in rest && j in taken + {i}
            ensures !Hits(t, b, r, j)
          {
            if j == i && Hits(t, b, r, i) {
              DistinctRequestsHitDistinctRows(t, b, requests, r, i);
            }
          }
          DistinctRequestsAreAllCharged(t, b, rest, taken + {i});
      }
    }
  }

  lemma NewcomerCostsItsPrice(b: Batch, newcomers: seq<CreditRequest>, q: CreditRequest, config: nat)
    ensures AllocatedTotal(RequestedRows(b, newcomers + [q]), config)
         == AllocatedTotal(RequestedRows(b, newcomers), config) - if config == b.config then q.price else 0
  {
    var rows, row := RequestedRows(b, newcomers), RequestedRow(b, q);
    var all := RequestedRows(b, newcomers + [q]);
    assert all[..|all| - 1] == rows && all[|all| - 1] == row;
  }

  lemma RevivalCostsItsPrice(t: Table, b: Batch, revived: map<nat, Assignment>, i: nat, row: Assignment, config: nat)
    requires i < |t| && i !in revived && t[i].config == b.config && Reallocatable(t[i].state) && row.state.Allocated?
    ensures AllocatedTotal(UpdatedBy(t, revived[i := row]), config)
         == AllocatedTotal(UpdatedBy(t, revived), config) + if config == b.config then row.quantity else 0
  {
    var u := UpdatedBy(t, revived);
    assert UpdatedBy(t, revived[i := row]) == u[i := Save(t[i], row)];
    TotalOfUpdate(u, i, Save(t[i], row), config);
  }

  lemma RevivalCostsUnlessTaken(t: Table, b: Batch, revived: map<nat, Assignment>, taken: set<nat>,
                                i: nat, row: Assignment, config: nat)
    requires i < |t| && t[i].config == b.config && Reallocatable(t[i].state) && row.state.Allocated?
    ensures AllocatedTotal(UpdatedBy(t, revived[i := row] - taken), config)
         == AllocatedTotal(UpdatedBy(t, revived - (taken + {i})), config)
            + if config == b.config && i !in taken then row.quantity else 0
  {
    if i in taken {
      assert taken + {i} == taken;
      assert revived[i := row] - taken == revived - taken;
    } else {
      assert revived[i := row] - taken == (revived - (taken + {i}))[i := row];
      RevivalCostsItsPrice(t, b, revived - (taken + {i}), i, row, config);
    }
  }

  /** One more request adds a new row, or sets the price of the row it reuses. */
  lemma PlanGrows(t: Table, b: Batch, requests: seq<CreditRequest>) returns (row: Assignment)
    requires requests != []
    ensures var n := |requests| - 1;
      var before, after, q := PlanFor(t, b, requests[..n]), PlanFor(t, b, requests), requests[n];
      && row.state.Allocated? && row.quantity == -q.price
      && match Reusable(t, b.config, q)
         case None => after.revived == before.revived && after.newcomers == before.newcomers + [q]
         case Some(i) => (i < |t| && t[i].config == b.config && Reallocatable(t[i].state)
                          && after.revived == before.revived[i := row] && after.newcomers == before.newcomers)
  {
    var n := |requests| - 1;
    var before, q := PlanFor(t, b, requests[..n]), requests[n];
    ReusableIsOwned(t, b.config, q);
    match Reusable(t, b.config, q) {
      case None => row := RequestedRow(b, q);
      case Some(i) => row := Revive(if i in before.revived then before.revived[i] else t[i], b, q);
    }
  }

  lemma {:induction false} PlanCostsItsCharge(
      t: Table, b: Batch, requests: seq<CreditRequest>, taken: set<nat>, config: nat)
    ensures var p := PlanFor(t, b, requests);
      AllocatedTotal(UpdatedBy(t, p.revived - taken), config) + AllocatedTotal(RequestedRows(b, p.newcomers), config)
      == AllocatedTotal(t, config) - if config == b.config then Charged(t, b.config, requests, taken) else 0
  {
    if requests == [] {
      assert UpdatedBy(t, map[] - taken) == t;
    } else {
      var n := |requests| - 1;
      var before, q := PlanFor(t, b, requests[..n]), requests[n];
      var row := PlanGrows(t, b, requests);
      match Reusable(t, b.config, q) {
        case None =>
          PlanCostsItsCharge(t, b, requests[..n], taken, config);
          NewcomerCostsItsPrice(b, before.newcomers, q, config);
        case Some(i) =>
          PlanCostsItsCharge(t, b, requests[..n], taken + {i}, config);
          RevivalCostsUnlessTaken(t, b, before.revived, taken, i, row, config);
      }
    }
  }

  /** A successful batch moves the allocated total by exactly what it charges, each reused row once. */
  lemma BatchCostsItsCharge(t: Table, b: Batch, config: nat)
    requires BatchOutcome(t, b).Success?
    ensures AllocatedTotal(BatchOutcome(t, b).value, config)
         == AllocatedTotal(t, config) - if config == b.config then Charged(t, b.config, b.requests, {}) else 0
  {
    var p := PlanFor(t, b, b.requests);
    PlanCostsItsCharge(t, b, b.requests, {}, config);
    assert p.revived - {} == p.revived;
    TotalOfConcat(UpdatedBy(t, p.revived), RequestedRows(b, p.newcomers), config);
  }

  /** For distinct requests that is the sum of the prices. */
  lemma BatchCostsItsPrices(t: Table, b: Batch, config: nat)
    requires DistinctRequests(b.requests) && BatchOutcome(t, b).Success?
    ensures AllocatedTotal(BatchOutcome(t, b).value, config)
         == AllocatedTotal(t, config) - if config == b.config then PriceSum(b.requests) else 0
  {
    BatchCostsItsCharge(t, b, config);
    DistinctRequestsAreAllCharged(t, b, b.requests, {});
  }
}
