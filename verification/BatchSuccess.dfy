/** When a batch of credit requests goes through: repeated requests and other learners' rows included. */
module BatchSuccess {
  import opened Wrappers
  import opened Emails
  import opened Assignments
  import opened Allocation
  import opened AssignmentLifecycle
  import opened RequestAllocation

  /** No request is repeated: neither its key, nor its email and course, nor its LMS user and course. */
  ghost predicate DistinctRequests(requests: seq<CreditRequest>) {
    forall i, j :: 0 <= i < j < |requests| ==> DistinctPair(requests[i], requests[j])
  }

  ghost predicate DistinctPair(a: CreditRequest, b: CreditRequest) {
    && a.uuid != b.uuid
    && !Competing(a, b)
  }

  ghost predicate UuidsDistinct(s: seq<CreditRequest>) {
    forall i, j :: 0 <= i < j < |s| ==> s[i].uuid != s[j].uuid
  }

  /** Two requests that cannot both get a new row: the same course for the same email or LMS user. */
  predicate Competing(a: CreditRequest, b: CreditRequest) {
    a.course == b.course && (Lower(a.email) == Lower(b.email) || (a.lms.Some? && a.lms == b.lms))
  }

  ghost predicate NoRowFor(t: Table, config: nat, q: CreditRequest) {
    forall i :: 0 <= i < |t| ==> !Matches(t[i], config, q)
  }

  /** A row can be reused, or there is nothing in the way of a new one. */
  ghost predicate Placeable(t: Table, config: nat, q: CreditRequest) {
    0 <= q.price && (Reusable(t, config, q).Some? || NoRowFor(t, config, q))
  }

  /** The requests that have no row to reuse, in order. */
  ghost function Unplaced(t: Table, config: nat, requests: seq<CreditRequest>): seq<CreditRequest> {
    if requests == [] then []
    else
      var n := |requests| - 1;
      if Reusable(t, config, requests[n]).None? then Unplaced(t, config, requests[..n]) + [requests[n]]
      else Unplaced(t, config, requests[..n])
  }

  ghost predicate NoneCompete(requests: seq<CreditRequest>) {
    forall i, j :: 0 <= i < j < |requests| ==> !Competing(requests[i], requests[j])
  }

  // ---------- the plan ----------

  ghost predicate SameIdentity(a: Assignment, b: Assignment) {
    a.config == b.config && a.content == b.content && a.email == b.email && a.lms == b.lms
  }

  lemma {:induction false} PlanKeepsIdentities(t: Table, b: Batch, requests: seq<CreditRequest>)
    ensures forall i :: i in PlanFor(t, b, requests).revived ==>
      SameIdentity(t[i], PlanFor(t, b, requests).revived[i])
  {
    if requests != [] {
      PlanKeepsIdentities(t, b, requests[..|requests| - 1]);
    }
  }

  lemma {:induction false} NewcomersAreTheUnplaced(t: Table, b: Batch, requests: seq<CreditRequest>)
    ensures PlanFor(t, b, requests).newcomers == Unplaced(t, b.config, requests)
  {
    if requests != [] {
      NewcomersAreTheUnplaced(t, b, requests[..|requests| - 1]);
    }
  }

  lemma {:induction false} UnplacedHaveNoRowToReuse(t: Table, config: nat, requests: seq<CreditRequest>)
    ensures forall q :: q in Unplaced(t, config, requests) <==> q in requests && Reusable(t, config, q).None?
  {
    if requests != [] {
      UnplacedHaveNoRowToReuse(t, config, requests[..|requests| - 1]);
      assert requests == requests[..|requests| - 1] + [requests[|requests| - 1]];
    }
  }

  lemma {:induction false} DistinctUnplacedDoNotCompete(t: Table, config: nat, requests: seq<CreditRequest>)
    requires DistinctRequests(requests)
    ensures NoneCompete(Unplaced(t, config, requests))
  {
    if requests != [] {
      var n := |requests| - 1;
      var before, q := Unplaced(t, config, requests[..n]), requests[n];
      DistinctUnplacedDoNotCompete(t, config, requests[..n]);
      UnplacedHaveNoRowToReuse(t, config, requests[..n]);
      forall i | 0 <= i < |before|
        ensures !Competing(before[i], q)
      {
        assert before[i] in requests[..n];
        var k :| 0 <= k < n && requests[k] == before[i];
        assert DistinctPair(requests[k], requests[n]);
      }
    }
  }

  /** Reviving keeps both keys, so validation only looks at the price. */
  lemma ReviveIsCleanIffPriced(t: Table, b: Batch, q: CreditRequest, i: nat, row: Assignment)
    requires UniqueKeys(t) && i < |t| && SameIdentity(t[i], row)
    ensures FullClean(t, i, Revive(row, b, q)) <==> 0 <= q.price
  {
    if 0 <= q.price {
      forall j | 0 <= j < |t| && j != i
        ensures !Clash(t[j], Revive(row, b, q))
      {
        assert !Clash(t[j], t[i]);
      }
    }
  }

  lemma PlanValidity(t: Table, b: Batch, requests: seq<CreditRequest>)
    requires UniqueKeys(t) && requests != []
    ensures var before, q := PlanFor(t, b, requests[..|requests| - 1]), requests[|requests| - 1];
      PlanFor(t, b, requests).valid <==> before.valid && (Reusable(t, b.config, q).Some? ==> 0 <= q.price)
  {
    var before, q := PlanFor(t, b, requests[..|requests| - 1]), requests[|requests| - 1];
    ReusableIsOwned(t, b.config, q);
    if Reusable(t, b.config, q).Some? {
      var i := Reusable(t, b.config, q).value;
      PlanKeepsIdentities(t, b, requests[..|requests| - 1]);
      ReviveIsCleanIffPriced(t, b, q, i, if i in before.revived then before.revived[i] else t[i]);
    }
  }

  lemma {:induction false} PlanIsValidIffPriced(t: Table, b: Batch, requests: seq<CreditRequest>)
    requires UniqueKeys(t)
    ensures PlanFor(t, b, requests).valid <==>
      forall q :: q in requests && Reusable(t, b.config, q).Some? ==> 0 <= q.price
  {
    if requests != [] {
      assert requests == requests[..|requests| - 1] + [requests[|requests| - 1]];
      PlanIsValidIffPriced(t, b, requests[..|requests| - 1]);
      PlanValidity(t, b, requests);
    }
  }

  // ---------- the keys ----------

  lemma UpdatedKeepsKeys(t: Table, b: Batch, i: nat)
    requires i < |t|
    ensures SameIdentity(t[i], UpdatedBy(t, PlanFor(t, b, b.requests).revived)[i])
  {
    PlanKeepsIdentities(t, b, b.requests);
  }

  lemma RequestedRowClashes(row: Assignment, b: Batch, q: CreditRequest)
    ensures Clash(row, RequestedRow(b, q)) <==> Matches(row, b.config, q)
    ensures Clash(RequestedRow(b, q), row) <==> Matches(row, b.config, q)
  {
  }

  lemma RequestedRowsClashIffCompeting(b: Batch, q: CreditRequest, r: CreditRequest)
    ensures Clash(RequestedRow(b, q), RequestedRow(b, r)) <==> Competing(q, r)
    ensures Clash(RequestedRow(b, r), RequestedRow(b, q)) <==> Competing(q, r)
  {
  }

  /** The rows of the proposal: old ones with their keys, then one new row per request without a row to reuse. */
  lemma ProposedRow(t: Table, b: Batch, i: nat)
    requires i < |BatchProposal(t, b)|
    ensures |BatchProposal(t, b)| == |t| + |Unplaced(t, b.config, b.requests)|
    ensures i < |t| ==> SameIdentity(t[i], BatchProposal(t, b)[i])
    ensures |t| <= i ==> BatchProposal(t, b)[i] == RequestedRow(b, Unplaced(t, b.config, b.requests)[i - |t|])
  {
    NewcomersAreTheUnplaced(t, b, b.requests);
    if i < |t| {
      UpdatedKeepsKeys(t, b, i);
    }
  }

  /** The proposal's keys are unique if and only if no new row meets an old one or competes with another. */
  lemma ProposalIsUniqueIff(t: Table, b: Batch)
    requires UniqueKeys(t)
    ensures UniqueKeys(BatchProposal(t, b)) <==>
      && NoneCompete(Unplaced(t, b.config, b.requests))
      && forall q :: q in Unplaced(t, b.config, b.requests) ==> NoRowFor(t, b.config, q)
  {
    var all, newcomers := BatchProposal(t, b), Unplaced(t, b.config, b.requests);
    NewcomersAreTheUnplaced(t, b, b.requests);
    if UniqueKeys(all) {
      forall q | q in newcomers
        ensures NoRowFor(t, b.config, q)
      {
        UniqueProposalMeetsNoRow(t, b, q);
      }
      forall i, j | 0 <= i < j < |newcomers|
        ensures !Competing(newcomers[i], newcomers[j])
      {
        UniqueProposalHasNoCompetition(t, b, i, j);
      }
    }
    if NoneCompete(newcomers) && forall q :: q in newcomers ==> NoRowFor(t, b.config, q) {
      forall i: nat, j: nat | i < j < |all|
        ensures !Clash(all[i], all[j]) && !Clash(all[j], all[i])
      {
        ProposedRowsStayApart(t, b, i, j);
      }
    }
  }

  lemma UniqueProposalMeetsNoRow(t: Table, b: Batch, q: CreditRequest)
    requires UniqueKeys(BatchProposal(t, b)) && q in Unplaced(t, b.config, b.requests)
    ensures NoRowFor(t, b.config, q)
  {
    var all, newcomers := BatchProposal(t, b), Unplaced(t, b.config, b.requests);
    NewcomersAreTheUnplaced(t, b, b.requests);
    var k: nat :| k < |newcomers| && newcomers[k] == q;
    ProposedRow(t, b, |t| + k);
    forall i: nat | i < |t|
      ensures !Matches(t[i], b.config, q)
    {
      ProposedRow(t, b, i);
      assert !Clash(all[i], all[|t| + k]);
      RequestedRowClashes(all[i], b, q);
    }
  }

  lemma UniqueProposalHasNoCompetition(t: Table, b: Batch, i: nat, j: nat)
    requires UniqueKeys(BatchProposal(t, b)) && i < j < |Unplaced(t, b.config, b.requests)|
    ensures !Competing(Unplaced(t, b.config, b.requests)[i], Unplaced(t, b.config, b.requests)[j])
  {
    var newcomers := Unplaced(t, b.config, b.requests);
    NewcomersAreTheUnplaced(t, b, b.requests);
    ProposedRow(t, b, |t| + i);
    ProposedRow(t, b, |t| + j);
    assert !Clash(BatchProposal(t, b)[|t| + i], BatchProposal(t, b)[|t| + j]);
    RequestedRowsClashIffCompeting(b, newcomers[i], newcomers[j]);
  }

  lemma ProposedRowsStayApart(t: Table, b: Batch, i: nat, j: nat)
    requires UniqueKeys(t) && i < j < |BatchProposal(t, b)|
    requires NoneCompete(Unplaced(t, b.config, b.requests))
    requires forall q :: q in Unplaced(t, b.config, b.requests) ==> NoRowFor(t, b.config, q)
    ensures var all := BatchProposal(t, b); !Clash(all[i], all[j]) && !Clash(all[j], all[i])
  {
    var all, newcomers := BatchProposal(t, b), Unplaced(t, b.config, b.requests);
    ProposedRow(t, b, i);
    ProposedRow(t, b, j);
    if j < |t| {
      assert !Clash(t[i], t[j]);
    } else {
      var q := newcomers[j - |t|];
      assert q in newcomers;
      if i < |t| {
        assert !Matches(t[i], b.config, q);
        RequestedRowClashes(all[i], b, q);
      } else {
        RequestedRowsClashIffCompeting(b, newcomers[i - |t|], q);
      }
    }
  }

  // ---------- success ----------

  /**
   A batch goes through if and only if every request can be placed and no two of the requests
   that need a new row are for the same course and the same email or LMS user.
   */
  lemma BatchSucceedsIff(t: Table, b: Batch)
    requires UniqueKeys(t)
    ensures BatchOutcome(t, b).Success? <==>
      && (forall q :: q in b.requests ==> Placeable(t, b.config, q))
      && NoneCompete(Unplaced(t, b.config, b.requests))
  {
    PlanIsValidIffPriced(t, b, b.requests);
    NewcomersAreTheUnplaced(t, b, b.requests);
    UnplacedHaveNoRowToReuse(t, b.config, b.requests);
    ProposalIsUniqueIff(t, b);
  }

  /** A batch is rejected before it is written if and only if some request has a negative price. */
  lemma BatchIsInvalidIff(t: Table, b: Batch)
    requires UniqueKeys(t)
    ensures BatchOutcome(t, b) == Failure(InvalidRow) <==> exists q :: q in b.requests && q.price < 0
  {
    PlanIsValidIffPriced(t, b, b.requests);
    NewcomersAreTheUnplaced(t, b, b.requests);
    UnplacedHaveNoRowToReuse(t, b.config, b.requests);
  }

  /** With distinct requests, the batch goes through if and only if every request can be placed. */
  lemma BatchSucceedsIffPlaceable(t: Table, b: Batch)
    requires UniqueKeys(t) && DistinctRequests(b.requests)
    ensures BatchOutcome(t, b).Success? <==> forall q :: q in b.requests ==> Placeable(t, b.config, q)
  {
    BatchSucceedsIff(t, b);
    DistinctUnplacedDoNotCompete(t, b.config, b.requests);
  }

  // ---------- rows under another email ----------

  /**
   A reallocatable row with the requester's LMS id under another email is fetched but never reused:
   the request can be placed if and only if it has a second row of its own to reuse.
   */
  lemma RenamedRowIsFetchedButInTheWay(t: Table, b: Batch, q: CreditRequest, i: nat)
    requires q in b.requests && i < |t| && t[i].config == b.config && t[i].content == q.course
    requires Reallocatable(t[i].state) && q.lms.Some? && t[i].lms == q.lms && Lower(t[i].email) != Lower(q.email)
    ensures Fetched(t[i], b) && Reusable(t, b.config, q) != Some(i)
    ensures Placeable(t, b.config, q) <==> 0 <= q.price && Reusable(t, b.config, q).Some?
    ensures UniqueKeys(t) && Reusable(t, b.config, q).None? ==> BatchOutcome(t, b).Failure?
  {
    assert Matches(t[i], b.config, q);
    ReusableIsOwned(t, b.config, q);
    if UniqueKeys(t) {
      BatchSucceedsIff(t, b);
    }
  }

  /**
   Clearing the personal data of an expired row turns a batch that would have reused the row
   into one that fails as a whole.
   */
  lemma ClearedRowBlocksTheBatch(t: Table, b: Batch, q: CreditRequest, i: nat, retired: string)
    requires i < |t| && UniqueKeys(t) && UniqueKeys(t[i := ClearPii(t[i], retired)]) && q in b.requests
    requires t[i].config == b.config && t[i].content == q.course && t[i].state.Expired?
    requires q.lms.Some? && t[i].lms == q.lms && Lower(t[i].email) == Lower(q.email)
    requires Lower(retired) != Lower(q.email)
    ensures Reusable(t, b.config, q) == Some(i)
    ensures BatchOutcome(t[i := ClearPii(t[i], retired)], b).Failure?
  {
    var cleared := t[i := ClearPii(t[i], retired)];
    ReusableIsOwned(t, b.config, q);
    assert FiledUnder(t[i]) == LookupKey(q);
    ClashingRowsAreOne(t, Reusable(t, b.config, q).value, i);
    forall j: nat | j < |t| && cleared[j].config == b.config
      ensures FiledUnder(cleared[j]) != LookupKey(q)
    {
      ClashingRowsAreOne(t, j, i);
    }
    ReusableIsOwned(cleared, b.config, q);
    RenamedRowIsFetchedButInTheWay(cleared, b, q, i);
  }
}
