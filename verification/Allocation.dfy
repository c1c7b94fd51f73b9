/**
 Bulk allocation of one piece of content to a list of learner emails.
 The functions below say what one call does to one row and to the table;
 AssignmentStore carries the loop that does it in place.
 */
module Allocation {
  import opened Wrappers
  import opened Emails
  import opened Assignments

  datatype AllocationError = NegativePrice | InvalidRow | IntegrityViolation

  /** Everything one allocation call knows once its arguments are prepared. */
  datatype Order = Order(
    config: nat,
    content: string,
    emails: seq<string>,
    ids: map<string, LmsUserId>,
    names: map<LmsUserId, string>,
    quantity: int,
    batch: nat,
    preferredRun: Option<string>,
    parentKey: Option<string>,
    now: int)
  {
    /** The id map is keyed by lower-cased requested emails; the name map is its reverse. */
    ghost predicate WellMapped() {
      && OncePerMailbox(emails)
      && ids.Keys <= Spellings(emails)
      && (forall k :: k in names ==> names[k] in emails && Lower(names[k]) in ids && ids[Lower(names[k])] == k)
      && (forall e :: e in ids ==> ids[e] in names)
    }

    /** No other requested email belongs to the same LMS user. */
    ghost predicate Alone(email: string) {
      forall e :: e in ids && Lower(email) in ids && ids[e] == ids[Lower(email)] ==> e == Lower(email)
    }
  }

  // ---------- looking rows up ----------

  predicate InScope(row: Assignment, o: Order) {
    row.config == o.config && row.content == o.content
  }

  /** The row answers to this requested email, by spelling or by LMS id. */
  predicate Owns(row: Assignment, email: string, o: Order) {
    && InScope(row, o)
    && (Lower(row.email) == Lower(email) || (Lower(email) in o.ids && row.lms == Some(o.ids[Lower(email)])))
  }

  /** The case-insensitive email filter; a filter over no emails at all restricts nothing. */
  predicate EmailFilter(email: string, emails: seq<string>) {
    emails == [] || exists e :: e in emails && Lower(e) == Lower(email)
  }

  /** Matched by the email query or by the LMS id query. */
  predicate Found(row: Assignment, o: Order) {
    && InScope(row, o)
    && (EmailFilter(row.email, o.emails) || (row.lms.Some? && row.lms.value in o.ids.Values))
  }

  // ---------- one row ----------

  /** Fill in a missing LMS id, then restore the email of an expired row from its LMS id. */
  function Identify(row: Assignment, o: Order): Assignment {
    var linked :=
      if row.lms.None? && Lower(row.email) in o.ids then row.(lms := Some(o.ids[Lower(row.email)])) else row;
    if linked.state.Expired? && linked.lms.Some? && linked.lms.value in o.names
    then linked.(email := o.names[linked.lms.value])
    else linked
  }

  function Reallocate(row: Assignment, quantity: int, batch: nat, preferredRun: Option<string>,
                      parentKey: Option<string>, isRun: bool, now: int): Assignment
  {
    row.(quantity := quantity, state := Allocated, batch := batch, allocatedAt := now,
         acceptedAt := None, cancelledAt := None, expiredAt := None, erroredAt := None,
         preferredRun := preferredRun, parentKey := parentKey, isRun := isRun)
  }

  /** The in-memory row after one pass of the loop body. */
  function Prepare(row: Assignment, o: Order): Assignment {
    var known := Identify(row, o);
    if Reallocatable(known.state) then
      Reallocate(known, o.quantity, o.batch, o.preferredRun, o.parentKey, Given(o.parentKey), o.now)
    else if known.state.Allocated? then
      known.(preferredRun := o.preferredRun, parentKey := o.parentKey, isRun := Given(o.parentKey))
    else
      known
  }

  predicate NeedsUpdate(row: Assignment, o: Order) {
    Reallocatable(row.state) || Prepare(row, o) != row
  }

  /** The bulk update writes the reallocation fields only. */
  function Save(stored: Assignment, row: Assignment): Assignment {
    stored.(lms := row.lms, email := row.email, batch := row.batch, quantity := row.quantity, state := row.state,
            preferredRun := row.preferredRun, allocatedAt := row.allocatedAt, cancelledAt := row.cancelledAt,
            expiredAt := row.expiredAt, erroredAt := row.erroredAt, parentKey := row.parentKey, isRun := row.isRun)
  }

  /** The stored row after the bulk update. */
  function Settled(row: Assignment, o: Order): Assignment {
    if Found(row, o) && NeedsUpdate(row, o) then Save(row, Prepare(row, o)) else row
  }

  function NewRow(email: string, o: Order): Assignment {
    Assignment(o.config, email, if Lower(email) in o.ids then Some(o.ids[Lower(email)]) else None,
               o.content, o.quantity, Allocated, o.batch, o.preferredRun, o.parentKey, Given(o.parentKey),
               o.now, None, None, None, None, None)
  }

  // ---------- the table ----------

  function UpdatedTable(t: Table, o: Order): Table {
    seq(|t|, i requires 0 <= i < |t| => Settled(t[i], o))
  }

  /** Lower-cased emails of the found rows once prepared. */
  ghost function HeldEmails(t: Table, o: Order): set<string> {
    set i | 0 <= i < |t| && Found(t[i], o) :: Lower(Prepare(t[i], o).email)
  }

  function EmailsOutside(emails: seq<string>, held: set<string>): seq<string> {
    if emails == [] then []
    else
      var rest := EmailsOutside(emails[..|emails| - 1], held);
      if Lower(emails[|emails| - 1]) in held then rest else rest + [emails[|emails| - 1]]
  }

  ghost function EmailsToCreate(t: Table, o: Order): seq<string> {
    EmailsOutside(o.emails, HeldEmails(t, o))
  }

  function NewRows(emails: seq<string>, o: Order): Table {
    seq(|emails|, i requires 0 <= i < |emails| => NewRow(emails[i], o))
  }

  ghost function Proposal(t: Table, o: Order): Table {
    UpdatedTable(t, o) + NewRows(EmailsToCreate(t, o), o)
  }

  /** Every revived row passes model validation against the stored table. */
  predicate AllValid(t: Table, o: Order) {
    forall i :: 0 <= i < |t| && Found(t[i], o) && Reallocatable(t[i].state) ==> FullClean(t, i, Prepare(t[i], o))
  }

  /** The whole call: validation, then the atomic update-and-insert under the two key constraints. */
  ghost function Outcome(t: Table, o: Order): Result<Table, AllocationError> {
    if 0 < o.quantity then Failure(NegativePrice)
    else if !AllValid(t, o) then Failure(InvalidRow)
    else if !UniqueKeys(Proposal(t, o)) then Failure(IntegrityViolation)
    else Success(Proposal(t, o))
  }

  ghost function FoundIds(t: Table, o: Order): set<nat> {
    set i: nat | i < |t| && Found(t[i], o)
  }

  ghost function UpdatedIds(t: Table, o: Order): set<nat> {
    set i: nat | i < |t| && Found(t[i], o) && NeedsUpdate(t[i], o)
  }

  ghost function CreatedIds(t: Table, o: Order): seq<nat> {
    seq(|EmailsToCreate(t, o)|, k requires 0 <= k => |t| + k)
  }

  /** The response: positions of updated, created and unchanged rows. */
  datatype Report = Report(updated: set<nat>, created: seq<nat>, noChange: set<nat>)

  ghost function ReportOf(t: Table, o: Order): Report {
    Report(UpdatedIds(t, o), CreatedIds(t, o), FoundIds(t, o) - UpdatedIds(t, o))
  }
}
