/** Learner credit requests: bulk approval, expiry and reversal, with assignments, request rows and the audit trail. */
module Approvals {
  import opened Wrappers
  import opened Assignments
  import opened AssignmentStore
  import opened AssignmentLifecycle
  import opened Expiry
  import opened RequestAllocation

  datatype RequestState =
    | Requested | InError | Approved
    | RequestExpired | RequestReversed | RequestCancelled | RequestDeclined | OtherState

  datatype RequestRow = RequestRow(
    course: string, state: RequestState, assignment: Option<nat>, reviewer: Option<string>, reviewedAt: Option<int>)

  /** One audit action: an approval that succeeded or failed, or a move into another state. */
  datatype AuditAction = AuditAction(request: nat, succeeded: bool) | OtherAction(request: nat, state: RequestState)

  /** The stored requests and their audit trail. */
  datatype Desk = Desk(requests: map<nat, RequestRow>, actions: multiset<AuditAction>)

  /** What the policy's can_approve answers. */
  datatype Validation = Validation(
    errorReason: string, valid: seq<CreditRequest>, failedByReason: seq<(string, seq<CreditRequest>)>)

  /** A request for approval of several credit requests under one policy. */
  datatype Approval = Approval(
    policyExists: bool, lockFree: bool, validation: Validation, batch: Batch, reviewer: string, now: int)

  /** The policy layer's answer: a global error, or the approved requests with their rows and the failed ones. */
  datatype PolicyAnswer = Refused | Answered(approved: map<nat, nat>, failed: seq<CreditRequest>)

  function FailedRequests(byReason: seq<(string, seq<CreditRequest>)>): seq<CreditRequest> {
    if byReason == [] then []
    else
      var n := |byReason| - 1;
      FailedRequests(byReason[..n]) + byReason[n].1
  }

  /** How often a request is listed under all the reasons together. */
  function ListedCount(byReason: seq<(string, seq<CreditRequest>)>, q: CreditRequest): nat {
    if byReason == [] then 0 else multiset(byReason[0].1)[q] + ListedCount(byReason[1..], q)
  }

  lemma {:induction false} ListedCountOfConcat(
      a: seq<(string, seq<CreditRequest>)>, b: seq<(string, seq<CreditRequest>)>, q: CreditRequest)
    ensures ListedCount(a + b, q) == ListedCount(a, q) + ListedCount(b, q)
  {
    if a == [] {
      assert a + b == b;
    } else {
      assert (a + b)[1..] == a[1..] + b;
      ListedCountOfConcat(a[1..], b, q);
    }
  }

  /** The failed list holds every request as often as it is listed under all the reasons together. */
  lemma {:induction false} FailedAsOftenAsListed(byReason: seq<(string, seq<CreditRequest>)>, q: CreditRequest)
    ensures multiset(FailedRequests(byReason))[q] == ListedCount(byReason, q)
  {
    if byReason != [] {
      var n := |byReason| - 1;
      FailedAsOftenAsListed(byReason[..n], q);
      assert byReason == byReason[..n] + [byReason[n]];
      ListedCountOfConcat(byReason[..n], [byReason[n]], q);
      assert [byReason[n]][1..] == [];
    }
  }

  /** The assignments of the valid requests, unless one of them got none. */
  function Assigned(answer: map<nat, Option<nat>>, valid: seq<CreditRequest>): Option<map<nat, nat>> {
    if valid == [] then Some(map[])
    else
      var n := |valid| - 1;
      var rest, u := Assigned(answer, valid[..n]), valid[n].uuid;
      if rest.None? || u !in answer || answer[u].None? then None else Some(rest.value[u := answer[u].value])
  }

  ghost function ValidBatch(a: Approval): Batch {
    a.batch.(requests := a.validation.valid)
  }

  /** The policy layer: refuse, or allocate for the valid requests. Rows written before a refusal stay written. */
  ghost function ViaPolicy(t: Table, a: Approval): (Table, PolicyAnswer) {
    var v := a.validation;
    if !a.policyExists || !a.lockFree || v.errorReason != "" then (t, Refused)
    else if v.valid == [] then (t, Answered(map[], FailedRequests(v.failedByReason)))
    else
      match BatchOutcome(t, ValidBatch(a))
      case Failure(_) => (t, Refused)
      case Success(next) =>
        match Assigned(BatchMap(t, ValidBatch(a)), v.valid)
        case None => (next, Refused)
        case Some(rows) => (next, Answered(rows, FailedRequests(v.failedByReason)))
  }

  predicate IsOpen(state: RequestState) {
    state.Requested? || state.InError?
  }

  predicate Processable(requests: map<nat, RequestRow>, q: CreditRequest) {
    q.uuid in requests && IsOpen(requests[q.uuid].state)
  }

  function ToProcess(requests: map<nat, RequestRow>, given: seq<CreditRequest>): seq<CreditRequest> {
    if given == [] then []
    else
      var n := |given| - 1;
      if Processable(requests, given[n]) then ToProcess(requests, given[..n]) + [given[n]]
      else ToProcess(requests, given[..n])
  }

  function ApprovedRow(row: RequestRow, assignment: nat, a: Approval): RequestRow {
    row.(state := Approved, assignment := Some(assignment), reviewer := Some(a.reviewer), reviewedAt := Some(a.now))
  }

  function ApprovedRequests(requests: map<nat, RequestRow>, approved: map<nat, nat>, a: Approval)
    : map<nat, RequestRow>
  {
    map u | u in requests :: if u in approved then ApprovedRow(requests[u], approved[u], a) else requests[u]
  }

  function FailureActions(failed: seq<CreditRequest>): seq<AuditAction> {
    seq(|failed|, i requires 0 <= i < |failed| => AuditAction(failed[i].uuid, false))
  }

  function Uuids(s: seq<CreditRequest>): seq<nat> {
    seq(|s|, i requires 0 <= i < |s| => s[i].uuid)
  }

  function SuccessActions(approved: set<nat>): set<AuditAction> {
    set u | u in approved :: AuditAction(u, true)
  }

  datatype ApprovalReport = ApprovalReport(approved: set<nat>, failed: seq<nat>)

  /** What one bulk approval reports, and which audit actions it writes, given the policy's answer. */
  function ApprovalReportOf(processed: seq<CreditRequest>, given: seq<CreditRequest>, answer: PolicyAnswer)
    : ApprovalReport
  {
    if processed == [] then ApprovalReport({}, Uuids(given))
    else
      match answer
      case Refused => ApprovalReport({}, Uuids(processed))
      case Answered(approved, failed) => ApprovalReport(approved.Keys, Uuids(failed))
  }

  function ActionsOf(processed: seq<CreditRequest>, answer: PolicyAnswer): multiset<AuditAction> {
    if processed == [] then multiset{}
    else
      match answer
      case Refused => multiset(FailureActions(processed))
      case Answered(approved, failed) => multiset(FailureActions(failed)) + multiset(SuccessActions(approved.Keys))
  }

  /** The one-to-one column between requests and assignments. */
  predicate LinksUnique(requests: map<nat, RequestRow>) {
    forall u, v :: u in requests && v in requests && u != v && requests[u].assignment.Some? ==>
      requests[u].assignment != requests[v].assignment
  }

  /** The bulk update of the approved requests, which the one-to-one column may reject. */
  predicate Storable(d: Desk, answer: PolicyAnswer, a: Approval) {
    answer.Answered? && answer.approved != map[] ==> LinksUnique(ApprovedRequests(d.requests, answer.approved, a))
  }

  /** One bulk approval against a table of assignments; no report when the update of the requests raises. */
  ghost function AfterApproval(d: Desk, t: Table, given: seq<CreditRequest>, a: Approval)
    : (Desk, Option<ApprovalReport>)
  {
    var processed := ToProcess(d.requests, given);
    var answer := if processed == [] then Refused else ViaPolicy(t, a).1;
    if !Storable(d, answer, a) then (d, None)
    else
      (Desk(if answer.Answered? then ApprovedRequests(d.requests, answer.approved, a) else d.requests,
            d.actions + ActionsOf(processed, answer)),
       Some(ApprovalReportOf(processed, given, answer)))
  }

  // ---------- linked requests ----------

  predicate IsLinked(requests: map<nat, RequestRow>, i: nat) {
    exists u :: u in requests && requests[u].assignment == Some(i)
  }

  /** The request linked to an assignment follows it into a state. */
  function LinkedTo(requests: map<nat, RequestRow>, i: nat, state: RequestState): map<nat, RequestRow> {
    map u | u in requests ::
      if requests[u].assignment == Some(i) then requests[u].(state := state) else requests[u]
  }

  function ReversalActions(requests: map<nat, RequestRow>, i: nat): set<AuditAction> {
    set u | u in requests && requests[u].assignment == Some(i) :: OtherAction(u, RequestReversed)
  }

  // ---------- the desk in place ----------

  lemma AssignedStep(answer: map<nat, Option<nat>>, valid: seq<CreditRequest>, k: nat)
    requires k < |valid|
    ensures var before, u := Assigned(answer, valid[..k]), valid[k].uuid;
      Assigned(answer, valid[..k + 1]) ==
        if before.None? || u !in answer || answer[u].None? then None else Some(before.value[u := answer[u].value])
  {
    assert valid[..k + 1][..k] == valid[..k];
  }

  lemma {:induction false} MissingStaysMissing(answer: map<nat, Option<nat>>, valid: seq<CreditRequest>, k: nat)
    requires k <= |valid| && Assigned(answer, valid[..k]).None?
    ensures Assigned(answer, valid).None?
  {
    if k < |valid| {
      assert valid[..|valid| - 1][..k] == valid[..k];
      MissingStaysMissing(answer, valid[..|valid| - 1], k);
    } else {
      assert valid[..k] == valid;
    }
  }

  /** Look up every valid request's row; the first one without a row stops the search. */
  method CollectAssignments(answer: map<nat, Option<nat>>, valid: seq<CreditRequest>)
    returns (r: Option<map<nat, nat>>)
    ensures r == Assigned(answer, valid)
  {
    var approved: map<nat, nat> := map[];
    for k := 0 to |valid|
      invariant Assigned(answer, valid[..k]) == Some(approved)
    {
      AssignedStep(answer, valid, k);
      var u := valid[k].uuid;
      if u !in answer || answer[u].None? {
        MissingStaysMissing(answer, valid, k + 1);
        return None;
      }
      approved := approved[u := answer[u].value];
    }
    assert valid[..|valid|] == valid;
    r := Some(approved);
  }

  class RequestDesk {
    const store: Store
    var requests: map<nat, RequestRow>
    var actions: multiset<AuditAction>

    constructor (store: Store)
      ensures this.store == store && requests == map[] && actions == multiset{}
    {
      this.store := store;
      requests, actions := map[], multiset{};
    }

    /** Ask the policy to approve, allocating assignments for its valid requests. */
    method ApproveViaPolicy(a: Approval) returns (answer: PolicyAnswer)
      modifies store
      ensures (store.rows, answer) == ViaPolicy(old(store.rows), a)
      ensures answer.Answered? ==>
        forall q :: multiset(answer.failed)[q] == ListedCount(a.validation.failedByReason, q)
    {
      var v := a.validation;
      forall q {
        FailedAsOftenAsListed(v.failedByReason, q);
      }
      if !a.policyExists || !a.lockFree || v.errorReason != "" {
        return Refused;
      }
      if v.valid == [] {
        return Answered(map[], FailedRequests(v.failedByReason));
      }
      var written := store.AllocateAssignmentForRequests(a.batch.(requests := v.valid));
      if written.Failure? {
        return Refused;
      }
      var approved := CollectAssignments(written.value, v.valid);
      if approved.None? {
        return Refused;
      }
      answer := Answered(approved.value, FailedRequests(v.failedByReason));
    }

    /** Approve what can be approved, record the rest as failed, and write one audit action each. */
    method ApproveLearnerCreditRequests(given: seq<CreditRequest>, a: Approval) returns (r: Option<ApprovalReport>)
      modifies this, store
      ensures (Desk(requests, actions), r)
           == AfterApproval(Desk(old(requests), old(actions)), old(store.rows), given, a)
      ensures store.rows ==
        if ToProcess(old(requests), given) == [] then old(store.rows) else ViaPolicy(old(store.rows), a).0
    {
      var processed := ToProcess(requests, given);
      if processed == [] {
        assert actions + multiset{} == actions;
        return Some(ApprovalReport({}, Uuids(given)));
      }
      var answer := ApproveViaPolicy(a);
      match answer {
        case Refused =>
          actions := actions + multiset(FailureActions(processed));
          r := Some(ApprovalReport({}, Uuids(processed)));
        case Answered(approved, failed) =>
          if approved != map[] {
            var next := ApprovedRequests(requests, approved, a);
            if !LinksUnique(next) {
              return None;
            }
            requests := next;
          } else {
            assert ApprovedRequests(requests, approved, a) == requests;
          }
          actions := actions + (multiset(FailureActions(failed)) + multiset(SuccessActions(approved.Keys)));
          r := Some(ApprovalReport(approved.Keys, Uuids(failed)));
      }
    }

    /** Expire one assignment if its date has come, and the request linked to it. */
    method ExpireAssignment(i: nat, subsidyExpiration: Option<int>, metadata: Option<ContentMetadata>,
                            decidedAt: int, now: int, persist: bool)
      returns (reason: Option<Reason>)
      requires i < |store.rows|
      modifies this`requests, store
      ensures var x := ExpiryContext(IsLinked(old(requests), i), subsidyExpiration, metadata);
        reason == RowExpiryReason(old(store.rows)[i], x, decidedAt, now)
      ensures reason.Some? && persist ==>
        && store.rows == old(store.rows)[i := ExpireRow(old(store.rows)[i], now)]
        && requests == LinkedTo(old(requests), i, RequestExpired)
      ensures !(reason.Some? && persist) ==> store.rows == old(store.rows) && requests == old(requests)
    {
      var x := ExpiryContext(IsLinked(requests, i), subsidyExpiration, metadata);
      reason := store.ExpireAssignment(i, x, decidedAt, now, persist);
      if reason.Some? && persist {
        requests := LinkedTo(requests, i, RequestExpired);
      }
    }

    /** A reversed ledger transaction reverses an accepted assignment and the request linked to it. */
    method ReverseAssignment(i: nat, now: int) returns (done: bool)
      requires i < |store.rows|
      modifies this, store
      ensures done <==> old(store.rows)[i].state.Accepted?
      ensures store.rows == old(store.rows)[i := ReverseRow(old(store.rows)[i], now)]
      ensures done ==>
        && requests == LinkedTo(old(requests), i, RequestReversed)
        && actions == old(actions) + multiset(ReversalActions(old(requests), i))
      ensures !done ==> requests == old(requests) && actions == old(actions)
    {
      done := store.ReverseAssignment(i, now);
      if done {
        actions := actions + multiset(ReversalActions(requests, i));
        requests := LinkedTo(requests, i, RequestReversed);
      }
    }
  }
}
