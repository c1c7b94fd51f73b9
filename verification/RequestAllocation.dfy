/** Allocation for a batch of learner credit requests, each with its own course and price. */
module RequestAllocation {
  import opened Wrappers
  import opened Emails
  import opened Assignments
  import opened Allocation

  datatype CreditRequest = CreditRequest(uuid: nat, email: string, lms: Option<LmsUserId>, course: string, price: int)

  datatype CourseSummary = CourseSummary(runKey: Option<string>, parentKey: Option<string>)

  datatype Batch = Batch(
    config: nat,
    requests: seq<CreditRequest>,
    metadata: map<string, CourseSummary>,
    batch: nat,
    now: int)
  {
    function Summary(course: string): CourseSummary {
      if course in metadata then metadata[course] else CourseSummary(None, None)
    }
  }

  // ---------- which row a request reuses ----------

  /** The row belongs to this request's learner and course, by email or by LMS id. */
  predicate Matches(row: Assignment, config: nat, q: CreditRequest) {
    && row.config == config
    && row.content == q.course
    && (Lower(row.email) == Lower(q.email) || (q.lms.Some? && row.lms == q.lms))
  }

  predicate Fetched(row: Assignment, b: Batch) {
    Reallocatable(row.state) && exists q :: q in b.requests && Matches(row, b.config, q)
  }

  /** The lookup key under which a fetched row is filed. */
  function FiledUnder(row: Assignment): (string, string) {
    (Lower(row.email), row.content)
  }

  function LookupKey(q: CreditRequest): (string, string) {
    (Lower(q.email), q.course)
  }

  /** The last reallocatable row filed under the request's own email and course. */
  ghost function Reusable(t: Table, config: nat, q: CreditRequest): Option<nat> {
    if t == [] then None
    else
      var n := |t| - 1;
      if t[n].config == config && Reallocatable(t[n].state) && FiledUnder(t[n]) == LookupKey(q) then Some(n)
      else Reusable(t[..n], config, q)
  }

  // ---------- the plan ----------

  function Revive(row: Assignment, b: Batch, q: CreditRequest): Assignment {
    var m := b.Summary(q.course);
    Reallocate(row, -q.price, b.batch, m.runKey, m.parentKey, Given(m.parentKey), b.now)
  }

  function RequestedRow(b: Batch, q: CreditRequest): Assignment {
    var m := b.Summary(q.course);
    Assignment(b.config, q.email, q.lms, q.course, -q.price, Allocated, b.batch, m.runKey, m.parentKey,
               Given(m.parentKey), b.now, None, None, None, None, None)
  }

  datatype Plan = Plan(revived: map<nat, Assignment>, newcomers: seq<CreditRequest>, valid: bool)

  /** The split into reused rows and new rows after a prefix of the requests. */
  ghost function PlanFor(t: Table, b: Batch, requests: seq<CreditRequest>): (p: Plan)
    ensures forall i :: i in p.revived ==> i < |t|
  {
    if requests == [] then Plan(map[], [], true)
    else
      var n := |requests| - 1;
      var p, q := PlanFor(t, b, requests[..n]), requests[n];
      match Reusable(t, b.config, q)
      case None => p.(newcomers := p.newcomers + [q])
      case Some(i) =>
        ReusableIsOwned(t, b.config, q);
        var row := Revive(if i in p.revived then p.revived[i] else t[i], b, q);
        p.(revived := p.revived[i := row], valid := p.valid && FullClean(t, i, row))
  }

  lemma {:induction false} ReusableIsOwned(t: Table, config: nat, q: CreditRequest)
    ensures match Reusable(t, config, q)
      case Some(i) => i < |t| && t[i].config == config && Reallocatable(t[i].state) && FiledUnder(t[i]) == LookupKey(q)
      case None => forall i :: 0 <= i < |t| && t[i].config == config && Reallocatable(t[i].state)
                     ==> FiledUnder(t[i]) != LookupKey(q)
  {
    if t != [] {
      ReusableIsOwned(t[..|t| - 1], config, q);
    }
  }

  function UpdatedBy(t: Table, revived: map<nat, Assignment>): Table {
    seq(|t|, i requires 0 <= i < |t| => if i in revived then Save(t[i], revived[i]) else t[i])
  }

  function RequestedRows(b: Batch, newcomers: seq<CreditRequest>): Table {
    seq(|newcomers|, i requires 0 <= i < |newcomers| => RequestedRow(b, newcomers[i]))
  }

  ghost function BatchProposal(t: Table, b: Batch): Table {
    var p := PlanFor(t, b, b.requests);
    UpdatedBy(t, p.revived) + RequestedRows(b, p.newcomers)
  }

  /** Either everything is written, or a validation or key constraint stops the batch. */
  ghost function BatchOutcome(t: Table, b: Batch): Result<Table, AllocationError> {
    var p := PlanFor(t, b, b.requests);
    if !p.valid then Failure(InvalidRow)
    else if exists q :: q in p.newcomers && q.price < 0 then Failure(InvalidRow)
    else if !UniqueKeys(BatchProposal(t, b)) then Failure(IntegrityViolation)
    else Success(BatchProposal(t, b))
  }

  // ---------- mapping the rows back to the requests ----------

  /** Rows written by the batch: the revived ones and everything after the old table. */
  ghost predicate Affected(t: Table, b: Batch, i: nat) {
    i in PlanFor(t, b, b.requests).revived || |t| <= i
  }

  /** Dictionary keyed by (LMS id, course) in which later rows win. */
  function ByLearnerAndCourse(t: Table, affected: set<nat>, n: nat, lms: Option<LmsUserId>, course: string): Option<nat>
    requires n <= |t|
  {
    if n == 0 then None
    else if n - 1 in affected && t[n - 1].lms == lms && t[n - 1].content == course then Some(n - 1)
    else ByLearnerAndCourse(t, affected, n - 1, lms, course)
  }

  function MapRequests(t: Table, affected: set<nat>, requests: seq<CreditRequest>): map<nat, Option<nat>> {
    if requests == [] then map[]
    else
      var n := |requests| - 1;
      MapRequests(t, affected, requests[..n])[requests[n].uuid :=
        ByLearnerAndCourse(t, affected, |t|, requests[n].lms, requests[n].course)]
  }

  ghost function AffectedIds(t: Table, b: Batch): set<nat> {
    set i: nat | i < |BatchProposal(t, b)| && Affected(t, b, i)
  }

  ghost function BatchMap(t: Table, b: Batch): map<nat, Option<nat>> {
    MapRequests(BatchProposal(t, b), AffectedIds(t, b), b.requests)
  }
}
