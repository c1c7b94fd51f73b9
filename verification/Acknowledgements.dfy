/** Learners acknowledging expired and cancelled assignments, as a log of timed actions. */
module Acknowledgements {
  import opened Wrappers
  import opened Assignments
  import opened Positions

  datatype ActionKind =
    | CancelAction | CancelAcknowledged | ExpireAction | ExpireAcknowledged | OtherAction

  /** A completed action with its time, or an attempt that ended in an error. */
  datatype Action = Done(kind: ActionKind, at: int) | Failed(kind: ActionKind)

  datatype LoggedAssignment = LoggedAssignment(lms: Option<LmsUserId>, state: AssignmentState, log: seq<Action>)

  /** Completion time of the last successful action of a kind. */
  function LastDone(log: seq<Action>, kind: ActionKind): Option<int> {
    if log == [] then None
    else
      var rest, a := LastDone(log[..|log| - 1], kind), log[|log| - 1];
      if a.Done? && a.kind == kind && (rest.None? || rest.value < a.at) then Some(a.at) else rest
  }

  datatype Decision = NotApplicable | ShouldAcknowledge | AlreadyAcknowledged

  function CompareActions(last: Option<int>, acknowledged: Option<int>): Decision {
    if acknowledged.Some? && last.Some? && last.value <= acknowledged.value then AlreadyAcknowledged
    else ShouldAcknowledge
  }

  function DecideExpired(a: LoggedAssignment): Decision {
    if !a.state.Expired? then NotApplicable
    else CompareActions(LastDone(a.log, ExpireAction), LastDone(a.log, ExpireAcknowledged))
  }

  function DecideCancelled(a: LoggedAssignment): Decision {
    if !a.state.Cancelled? then NotApplicable
    else CompareActions(LastDone(a.log, CancelAction), LastDone(a.log, CancelAcknowledged))
  }

  /** The kinds of action that matter for a state that can be acknowledged. */
  function Lapse(state: AssignmentState): Option<(ActionKind, ActionKind)> {
    match state
    case Expired => Some((ExpireAction, ExpireAcknowledged))
    case Cancelled => Some((CancelAction, CancelAcknowledged))
    case _ => None
  }

  function Decide(a: LoggedAssignment): Decision {
    match Lapse(a.state)
    case None => NotApplicable
    case Some(kinds) => CompareActions(LastDone(a.log, kinds.0), LastDone(a.log, kinds.1))
  }

  /** The property shown to learners: no answer, or whether the last lapse has been acknowledged. */
  function LearnerAcknowledged(a: LoggedAssignment): Option<bool> {
    match Lapse(a.state)
    case None => None
    case Some(kinds) =>
      var last, ack := LastDone(a.log, kinds.0), LastDone(a.log, kinds.1);
      Some(last.Some? && ack.Some? && last.value < ack.value)
  }

  /** The assignment after an acknowledgement call that reached it. */
  function Acknowledge(a: LoggedAssignment, now: int): LoggedAssignment {
    if Decide(a).ShouldAcknowledge? then a.(log := a.log + [Done(Lapse(a.state).value.1, now)]) else a
  }

  /** The positions with one decision, in order. */
  function WithDecision(rows: seq<LoggedAssignment>, ids: seq<nat>, d: Decision): seq<nat>
    requires Within(ids, |rows|)
  {
    if ids == [] then []
    else
      var rest, last := WithDecision(rows, ids[..|ids| - 1], d), ids[|ids| - 1];
      if Decide(rows[last]) == d then rest + [last] else rest
  }

  /** The rows of the given positions that belong to the learner, in table order. */
  function FetchedIds(rows: seq<LoggedAssignment>, n: nat, uuids: set<nat>, lms: LmsUserId): (ids: seq<nat>)
    requires n <= |rows|
    ensures Within(ids, n) && Increasing(ids)
    ensures forall i: nat :: i in ids <==> i < n && i in uuids && rows[i].lms == Some(lms)
  {
    if n == 0 then []
    else
      var rest := FetchedIds(rows, n - 1, uuids, lms);
      if n - 1 in uuids && rows[n - 1].lms == Some(lms) then rest + [n - 1] else rest
  }

  datatype Answer = NothingFound | Answer(acknowledged: seq<nat>, already: seq<nat>, unacknowledged: seq<nat>)

  ghost function AcknowledgedTable(rows: seq<LoggedAssignment>, ids: seq<nat>, now: int): seq<LoggedAssignment> {
    seq(|rows|, i requires 0 <= i < |rows| => if i in ids then Acknowledge(rows[i], now) else rows[i])
  }

  /** Log the acknowledgement of an expiration, of a cancellation, or of neither. */
  method AcknowledgeOne(a: LoggedAssignment, now: int)
    returns (b: LoggedAssignment, expiration: Decision, cancellation: Decision)
    ensures b == Acknowledge(a, now)
    ensures expiration.NotApplicable? || cancellation.NotApplicable?
    ensures Decide(a) == if expiration.NotApplicable? then cancellation else expiration
  {
    b, expiration, cancellation := a, DecideExpired(a), DecideCancelled(a);
    if expiration.ShouldAcknowledge? {
      b := b.(log := b.log + [Done(ExpireAcknowledged, now)]);
    }
    if cancellation.ShouldAcknowledge? {
      b := b.(log := b.log + [Done(CancelAcknowledged, now)]);
    }
  }

  lemma NextFetched(rows: seq<LoggedAssignment>, ids: seq<nat>, k: nat, now: int)
    requires Within(ids, |rows|) && Increasing(ids) && k < |ids|
    ensures AcknowledgedTable(rows, ids[..k], now)[ids[k]] == rows[ids[k]]
    ensures AcknowledgedTable(rows, ids[..k + 1], now)
         == AcknowledgedTable(rows, ids[..k], now)[ids[k] := Acknowledge(rows[ids[k]], now)]
  {
    assert ids[..k + 1] == ids[..k] + [ids[k]];
    assert ids[k] !in ids[..k];
  }

  lemma NextDecided(rows: seq<LoggedAssignment>, ids: seq<nat>, k: nat, d: Decision)
    requires Within(ids, |rows|) && Increasing(ids) && k < |ids|
    ensures WithDecision(rows, ids[..k + 1], d)
         == WithDecision(rows, ids[..k], d) + if Decide(rows[ids[k]]) == d then [ids[k]] else []
    ensures ids[k] !in WithDecision(rows, ids[..k], d)
  {
    assert ids[..k + 1][..k] == ids[..k];
    assert ids[k] !in ids[..k];
    DecidedIdsAreGiven(rows, ids[..k], d);
  }

  /** The state of an acknowledgement call after the first k fetched assignments. */
  ghost predicate AnsweredSoFar(
      before: seq<LoggedAssignment>, ids: seq<nat>, k: nat, now: int, rows: seq<LoggedAssignment>,
      acknowledged: seq<nat>, already: seq<nat>, unacknowledged: seq<nat>)
  {
    && Within(ids, |before|) && k <= |ids|
    && rows == AcknowledgedTable(before, ids[..k], now)
    && acknowledged == WithDecision(before, ids[..k], ShouldAcknowledge)
    && already == WithDecision(before, ids[..k], AlreadyAcknowledged)
    && unacknowledged == WithDecision(before, ids[..k], NotApplicable)
  }

  lemma AnswerStep(
      before: seq<LoggedAssignment>, ids: seq<nat>, k: nat, now: int, rows: seq<LoggedAssignment>,
      acknowledged: seq<nat>, already: seq<nat>, unacknowledged: seq<nat>)
    requires AnsweredSoFar(before, ids, k, now, rows, acknowledged, already, unacknowledged)
    requires Increasing(ids) && k < |ids|
    ensures ids[k] < |rows| && ids[k] !in already
    ensures var i := ids[k];
      AnsweredSoFar(before, ids, k + 1, now, rows[i := Acknowledge(rows[i], now)],
                    if Decide(rows[i]).ShouldAcknowledge? then acknowledged + [i] else acknowledged,
                    if Decide(rows[i]).AlreadyAcknowledged? then already + [i] else already,
                    if Decide(rows[i]).NotApplicable? then unacknowledged + [i] else unacknowledged)
  {
    NextFetched(before, ids, k, now);
    NextDecided(before, ids, k, ShouldAcknowledge);
    NextDecided(before, ids, k, AlreadyAcknowledged);
    NextDecided(before, ids, k, NotApplicable);
  }

  class Configuration {
    var assignments: seq<LoggedAssignment>

    /** Acknowledge every fetched assignment that needs it and sort all of them into three lists. */
    method AcknowledgeAssignments(uuids: set<nat>, lms: LmsUserId, now: int) returns (r: Answer)
      modifies this
      ensures var ids := FetchedIds(old(assignments), |old(assignments)|, uuids, lms);
        && assignments == AcknowledgedTable(old(assignments), ids, now)
        && r == if ids == [] then NothingFound
                else Answer(WithDecision(old(assignments), ids, ShouldAcknowledge),
                            WithDecision(old(assignments), ids, AlreadyAcknowledged),
                            WithDecision(old(assignments), ids, NotApplicable))
    {
      ghost var before := assignments;
      var ids := FetchedIds(assignments, |assignments|, uuids, lms);
      assert AcknowledgedTable(before, [], now) == before;
      if ids == [] {
        return NothingFound;
      }
      var acknowledged, already, unacknowledged := [], [], [];
      for k := 0 to |ids|
        invariant AnsweredSoFar(before, ids, k, now, assignments, acknowledged, already, unacknowledged)
      {
        var i := ids[k];
        AnswerStep(before, ids, k, now, assignments, acknowledged, already, unacknowledged);
        var a, expiration, cancellation := AcknowledgeOne(assignments[i], now);
        assignments := assignments[i := a];
        if expiration.ShouldAcknowledge? || cancellation.ShouldAcknowledge? {
          acknowledged := acknowledged + [i];
        }
        if expiration.AlreadyAcknowledged? || cancellation.AlreadyAcknowledged? {
          already := already + [i];
        }
        if !expiration.ShouldAcknowledge? && !cancellation.ShouldAcknowledge? && i !in already {
          unacknowledged := unacknowledged + [i];
        }
      }
      assert ids[..|ids|] == ids;
      r := Answer(acknowledged, already, unacknowledged);
    }
  }

  // ---------- the three lists ----------

  lemma {:induction false} DecidedIdsAreGiven(rows: seq<LoggedAssignment>, ids: seq<nat>, d: Decision)
    requires Within(ids, |rows|)
    ensures forall i: nat :: i in WithDecision(rows, ids, d) <==> i in ids && i < |rows| && Decide(rows[i]) == d
  {
    if ids != [] {
      DecidedIdsAreGiven(rows, ids[..|ids| - 1], d);
      assert ids == ids[..|ids| - 1] + [ids[|ids| - 1]];
    }
  }

  /** The three lists together are exactly the fetched assignments, each as often as it was fetched. */
  lemma {:induction false} ListsPartitionTheFetched(rows: seq<LoggedAssignment>, ids: seq<nat>)
    requires Within(ids, |rows|)
    ensures multiset(WithDecision(rows, ids, ShouldAcknowledge))
            + multiset(WithDecision(rows, ids, AlreadyAcknowledged))
            + multiset(WithDecision(rows, ids, NotApplicable)) == multiset(ids)
  {
    if ids != [] {
      var rest, last := ids[..|ids| - 1], ids[|ids| - 1];
      ListsPartitionTheFetched(rows, rest);
      assert multiset(ids) == multiset(rest) + multiset{last} by { assert ids == rest + [last]; }
      ListGrows(rows, ids, ShouldAcknowledge);
      ListGrows(rows, ids, AlreadyAcknowledged);
      ListGrows(rows, ids, NotApplicable);
    }
  }

  lemma ListGrows(rows: seq<LoggedAssignment>, ids: seq<nat>, d: Decision)
    requires Within(ids, |rows|) && ids != []
    ensures var rest, last := ids[..|ids| - 1], ids[|ids| - 1];
      multiset(WithDecision(rows, ids, d))
      == multiset(WithDecision(rows, rest, d)) + if Decide(rows[last]) == d then multiset{last} else multiset{}
  {
  }

  // ---------- the log ----------

  lemma {:induction false} LastDoneIsLatest(log: seq<Action>, kind: ActionKind)
    ensures match LastDone(log, kind)
      case None => forall a :: a in log && a.Done? ==> a.kind != kind
      case Some(t) => Done(kind, t) in log && forall a :: a in log && a.Done? && a.kind == kind ==> a.at <= t
  {
    if log != [] {
      LastDoneIsLatest(log[..|log| - 1], kind);
      assert log == log[..|log| - 1] + [log[|log| - 1]];
    }
  }

  /** No action in the log is later than this time. */
  ghost predicate NoLaterThan(log: seq<Action>, now: int) {
    forall a :: a in log && a.Done? ==> a.at <= now
  }

  ghost predicate Lacks(log: seq<Action>, kind: ActionKind) {
    forall a :: a in log && a.Done? ==> a.kind != kind
  }

  /**
   Once a lapse on record is acknowledged, and with any further actions but acknowledgements,
   a later call reports it as already acknowledged if and only if no newer lapse has been logged.
   */
  lemma AcknowledgedUntilANewerLapse(a: LoggedAssignment, now: int, more: seq<Action>)
    requires Lapse(a.state).Some? && LastDone(a.log, Lapse(a.state).value.0).Some?
    requires Decide(a).ShouldAcknowledge? && NoLaterThan(a.log, now)
    requires Lacks(more, Lapse(a.state).value.1)
    ensures var later := Acknowledge(a, now).(log := Acknowledge(a, now).log + more);
      Decide(later).AlreadyAcknowledged? <==>
        forall x :: x in more && x.Done? && x.kind == Lapse(a.state).value.0 ==> x.at <= now
  {
    var lapse, ack := Lapse(a.state).value.0, Lapse(a.state).value.1;
    var log := a.log + [Done(ack, now)] + more;
    LastDoneIsLatest(a.log, lapse);
    LastDoneIsLatest(log, lapse);
    LastDoneIsLatest(log, ack);
    assert Done(ack, now) in log;
    assert Done(lapse, LastDone(a.log, lapse).value) in log;
    assert LastDone(log, ack) == Some(now);
    assert Acknowledge(a, now).log + more == log;
  }

  /** A lapsed state with no successful lapse on record is acknowledged anew by every call. */
  lemma UnrecordedLapsesAreNeverAlreadyAcknowledged(a: LoggedAssignment)
    requires Lapse(a.state).Some?
    ensures LastDone(a.log, Lapse(a.state).value.0).None? ==> Decide(a).ShouldAcknowledge?
    ensures Decide(a).ShouldAcknowledge? ==> LearnerAcknowledged(a) == Some(false)
  {
  }

  /**
   A call that reaches a lapsed assignment leaves it acknowledged, as a repeated call sees it, if and only if
   a successful lapse action is on record.
   */
  lemma CallAcknowledgesIffLapseIsRecorded(a: LoggedAssignment, now: int)
    requires Lapse(a.state).Some? && NoLaterThan(a.log, now)
    ensures Decide(Acknowledge(a, now)).AlreadyAcknowledged? <==> LastDone(a.log, Lapse(a.state).value.0).Some?
    ensures LastDone(a.log, Lapse(a.state).value.0).None? ==>
      Decide(a).ShouldAcknowledge? && Decide(Acknowledge(a, now)).ShouldAcknowledge?
  {
    var lapse, ack := Lapse(a.state).value.0, Lapse(a.state).value.1;
    var log := a.log + [Done(ack, now)];
    LastDoneIsLatest(a.log, lapse);
    LastDoneIsLatest(log, lapse);
    LastDoneIsLatest(log, ack);
    assert Done(ack, now) in log;
    if LastDone(a.log, lapse).Some? {
      assert Done(lapse, LastDone(a.log, lapse).value) in log;
    }
  }

  /** No two completed actions carry the same time. */
  ghost predicate StrictClock(log: seq<Action>) {
    forall x, y :: x in log && y in log && x.Done? && y.Done? && x.at == y.at ==> x == y
  }

  /** The call and the learner-facing property differ only when lapse and acknowledgement are simultaneous. */
  lemma DecisionAgreesWithLearnerView(a: LoggedAssignment)
    requires Lapse(a.state).Some?
    ensures var kinds := Lapse(a.state).value;
      Decide(a).AlreadyAcknowledged? <==>
        LearnerAcknowledged(a) == Some(true) ||
        (LastDone(a.log, kinds.0).Some? && LastDone(a.log, kinds.0) == LastDone(a.log, kinds.1))
    ensures StrictClock(a.log) ==> (Decide(a).AlreadyAcknowledged? <==> LearnerAcknowledged(a) == Some(true))
  {
    var kinds := Lapse(a.state).value;
    LastDoneIsLatest(a.log, kinds.0);
    LastDoneIsLatest(a.log, kinds.1);
  }

  // ---------- by state ----------

  ghost predicate IsLogged(log: seq<Action>, kind: ActionKind) {
    exists a :: a in log && a.Done? && a.kind == kind
  }

  /** A successful action of the second kind is logged that is no earlier than any of the first, and there is one. */
  ghost predicate IsAnswered(log: seq<Action>, lapse: ActionKind, acknowledgement: ActionKind) {
    && IsLogged(log, lapse)
    && exists y :: Done(acknowledgement, y) in log && forall a :: a in log && a.Done? && a.kind == lapse ==> a.at <= y
  }

  lemma ComparedIffAnswered(log: seq<Action>, lapse: ActionKind, acknowledgement: ActionKind)
    ensures CompareActions(LastDone(log, lapse), LastDone(log, acknowledgement)).AlreadyAcknowledged?
       <==> IsAnswered(log, lapse, acknowledgement)
  {
    LastDoneIsLatest(log, lapse);
    LastDoneIsLatest(log, acknowledgement);
    if LastDone(log, lapse).Some? {
      assert Done(lapse, LastDone(log, lapse).value) in log;
    }
    if LastDone(log, acknowledgement).Some? {
      assert Done(acknowledgement, LastDone(log, acknowledgement).value) in log;
    }
  }

  /**
   A call adds an expiration acknowledgement to an expired row, or a cancellation acknowledgement to a cancelled
   one, unless the log answers the last lapse already; other rows, and rows it did not fetch, keep their log.
   */
  lemma CallLogsByState(rows: seq<LoggedAssignment>, uuids: set<nat>, lms: LmsUserId, now: int, i: nat)
    requires i < |rows|
    ensures var a := rows[i];
      AcknowledgedTable(rows, FetchedIds(rows, |rows|, uuids, lms), now)[i] ==
        if !(i in uuids && a.lms == Some(lms)) then a
        else match a.state
          case Expired =>
            if IsAnswered(a.log, ExpireAction, ExpireAcknowledged) then a
            else a.(log := a.log + [Done(ExpireAcknowledged, now)])
          case Cancelled =>
            if IsAnswered(a.log, CancelAction, CancelAcknowledged) then a
            else a.(log := a.log + [Done(CancelAcknowledged, now)])
          case _ => a
  {
    ComparedIffAnswered(rows[i].log, ExpireAction, ExpireAcknowledged);
    ComparedIffAnswered(rows[i].log, CancelAction, CancelAcknowledged);
  }

  predicate IsLapsed(state: AssignmentState) {
    state == AssignmentState.Expired || state == AssignmentState.Cancelled
  }

  /** The log answers the lapse that goes with the row's state. */
  ghost predicate IsAnsweredByState(a: LoggedAssignment) {
    || (a.state == AssignmentState.Expired && IsAnswered(a.log, ExpireAction, ExpireAcknowledged))
    || (a.state == AssignmentState.Cancelled && IsAnswered(a.log, CancelAction, CancelAcknowledged))
  }

  lemma DecisionByState(a: LoggedAssignment)
    ensures Decide(a) ==
      if !IsLapsed(a.state) then NotApplicable
      else if IsAnsweredByState(a) then AlreadyAcknowledged
      else ShouldAcknowledge
  {
    ComparedIffAnswered(a.log, ExpireAction, ExpireAcknowledged);
    ComparedIffAnswered(a.log, CancelAction, CancelAcknowledged);
  }

  /** The three lists hold the lapsed rows to acknowledge, the lapsed rows answered before, and the rest. */
  lemma CallSortsByState(rows: seq<LoggedAssignment>, uuids: set<nat>, lms: LmsUserId, i: nat)
    requires i < |rows|
    ensures var ids := FetchedIds(rows, |rows|, uuids, lms);
      var reached, lapsed, answered :=
        i in uuids && rows[i].lms == Some(lms), IsLapsed(rows[i].state), IsAnsweredByState(rows[i]);
      && (i in WithDecision(rows, ids, ShouldAcknowledge) <==> reached && lapsed && !answered)
      && (i in WithDecision(rows, ids, AlreadyAcknowledged) <==> reached && answered)
      && (i in WithDecision(rows, ids, NotApplicable) <==> reached && !lapsed)
  {
    var ids := FetchedIds(rows, |rows|, uuids, lms);
    DecidedIdsAreGiven(rows, ids, ShouldAcknowledge);
    DecidedIdsAreGiven(rows, ids, AlreadyAcknowledged);
    DecidedIdsAreGiven(rows, ids, NotApplicable);
    DecisionByState(rows[i]);
  }

  /** The log holds a lapse, and an acknowledgement later than every lapse. */
  ghost predicate IsAnsweredLater(log: seq<Action>, lapse: ActionKind, acknowledgement: ActionKind) {
    && IsLogged(log, lapse)
    && exists y :: Done(acknowledgement, y) in log && forall a :: a in log && a.Done? && a.kind == lapse ==> a.at < y
  }

  lemma LaterIffAnsweredLater(log: seq<Action>, lapse: ActionKind, acknowledgement: ActionKind)
    ensures var last, ack := LastDone(log, lapse), LastDone(log, acknowledgement);
      last.Some? && ack.Some? && last.value < ack.value <==> IsAnsweredLater(log, lapse, acknowledgement)
  {
    LastDoneIsLatest(log, lapse);
    LastDoneIsLatest(log, acknowledgement);
    if LastDone(log, lapse).Some? {
      assert Done(lapse, LastDone(log, lapse).value) in log;
    }
    if LastDone(log, acknowledgement).Some? {
      assert Done(acknowledgement, LastDone(log, acknowledgement).value) in log;
    }
  }

  /** Learners are told nothing but for a lapsed assignment, and then whether its log holds a later acknowledgement. */
  lemma LearnersSeeLaterAnswers(a: LoggedAssignment)
    ensures LearnerAcknowledged(a) ==
      match a.state
      case Expired => Some(IsAnsweredLater(a.log, ExpireAction, ExpireAcknowledged))
      case Cancelled => Some(IsAnsweredLater(a.log, CancelAction, CancelAcknowledged))
      case _ => None
  {
    LaterIffAnsweredLater(a.log, ExpireAction, ExpireAcknowledged);
    LaterIffAnsweredLater(a.log, CancelAction, CancelAcknowledged);
  }
}
