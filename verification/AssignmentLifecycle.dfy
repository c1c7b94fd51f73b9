/** The single-row and bulk state changes of assignments other than allocation. */
module AssignmentLifecycle {
  import opened Wrappers
  import opened Emails
  import opened Assignments
  import opened Expiry

  function CancelRow(row: Assignment): Assignment {
    if Cancelable(row.state) then row.(state := Cancelled) else row
  }

  /** Bulk cancel: only the state column is written. */
  function CancelledTable(t: Table, ids: set<nat>): Table {
    seq(|t|, i requires 0 <= i < |t| => if i in ids then CancelRow(t[i]) else t[i])
  }

  /** What an expiry decision looks up about an assignment besides its own columns. */
  datatype ExpiryContext = ExpiryContext(
    fromCreditRequest: bool, subsidyExpiration: Option<int>, metadata: Option<ContentMetadata>)

  function SubjectOf(row: Assignment, x: ExpiryContext): Subject {
    Subject(row.allocatedAt, row.preferredRun, x.fromCreditRequest, x.subsidyExpiration, x.metadata)
  }

  /** Why an assignment would be expired now; nothing for a state that cannot expire. */
  function RowExpiryReason(row: Assignment, x: ExpiryContext, decidedAt: int, now: int): Option<Reason> {
    if row.state.Allocated? then ExpiryReason(SubjectOf(row, x), decidedAt, now) else None
  }

  function ExpireRow(row: Assignment, now: int): Assignment {
    row.(state := Expired, expiredAt := Some(now))
  }

  /** A failed task moves its assignment to errored from any state. */
  function FailRow(row: Assignment, now: int): Assignment {
    row.(state := Errored, erroredAt := Some(now))
  }

  function ReverseRow(row: Assignment, now: int): Assignment {
    if row.state.Accepted? then row.(state := Reversed, reversedAt := Some(now)) else row
  }

  /** Redemption, an environment step. */
  function AcceptRow(row: Assignment, now: int): Assignment {
    if row.state.Allocated? then row.(state := Accepted, acceptedAt := Some(now)) else row
  }

  function ClearPii(row: Assignment, retired: string): Assignment {
    row.(email := retired)
  }

  /** Saving a user record fills in the missing LMS id of that user's rows. */
  function LinkRow(row: Assignment, email: string, id: LmsUserId): Assignment {
    if row.lms.None? && Lower(row.email) == Lower(email) then row.(lms := Some(id)) else row
  }

  function LinkedTable(t: Table, email: string, id: LmsUserId): Table {
    seq(|t|, i requires 0 <= i < |t| => LinkRow(t[i], email, id))
  }

  /** A write that the key constraints reject leaves the table alone. */
  function Guarded(t: Table, next: Table): Table {
    if UniqueKeys(next) then next else t
  }
}
