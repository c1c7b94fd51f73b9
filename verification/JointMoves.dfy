/** A linked assignment and its credit request move together: when each move happens, and what it does to both. */
module JointMoves {
  import opened Wrappers
  import opened Assignments
  import opened AssignmentLifecycle
  import opened Expiry
  import opened Approvals
  import opened AssignmentMoves
  import AssignmentRuns
  import RequestRuns
  import opened JointRuns

  /** The row and the request as they are after a move. */
  ghost predicate Leaves(w: World, m: Move, i: nat, u: nat, row: Assignment, request: RequestRow) {
    && i < |Apply(w, m).rows| && Apply(w, m).rows[i] == row
    && u in Apply(w, m).desk.requests && Apply(w, m).desk.requests[u] == request
  }

  /** The assignment can be cancelled, or has been. */
  predicate CanCancel(row: Assignment) {
    row.state == Allocated || row.state == Errored || row.state == AssignmentState.Cancelled
  }

  predicate CanReopen(request: RequestRow) {
    request.state == RequestCancelled || request.state == RequestExpired || request.state == RequestReversed
  }

  lemma ExpiryTakesTheRequest(w: World, m: Move, i: nat, u: nat)
    requires m.ExpireMove? && i < |w.rows| && u in w.desk.requests && w.desk.requests[u].assignment == Some(i)
    ensures var row, request := w.rows[i], w.desk.requests[u];
      var x := ExpiryContext(true, m.subsidyExpiration, m.metadata);
      if m.row == i && row.state == Allocated && IsDue(row, x, m.decidedAt, m.now)
      then Leaves(w, m, i, u, row.(state := AssignmentState.Expired, expiredAt := Some(m.now)),
                  request.(state := RequestExpired))
      else Leaves(w, m, i, u, row, request)
  {
    var x := ExpiryContext(IsLinked(w.desk.requests, m.row), m.subsidyExpiration, m.metadata);
    if m.row == i {
      assert IsLinked(w.desk.requests, i);
      ExpiryMovesIff(w.rows, AssignmentRuns.ExpireStep(i, x, m.decidedAt, m.now), i);
    }
  }

  lemma ReversalTakesTheRequest(w: World, m: Move, i: nat, u: nat)
    requires m.ReverseMove? && i < |w.rows| && u in w.desk.requests && w.desk.requests[u].assignment == Some(i)
    ensures var row, request := w.rows[i], w.desk.requests[u];
      if m.row == i && row.state == Accepted
      then Leaves(w, m, i, u, row.(state := Reversed, reversedAt := Some(m.now)), request.(state := RequestReversed))
      else Leaves(w, m, i, u, row, request)
  {
  }

  /**
   A linked assignment expires by its request's deadline rule, and takes the request with it; a reversal takes both; a
   request is cancelled together with an assignment that can be cancelled, or not at all. Declining and asking again
   leave the assignment alone: the first is for requested requests, the second opens a closed one without it.
   */
  lemma RowAndRequestMoveTogether(w: World, m: Move, i: nat, u: nat)
    requires !m.TableMove? && !m.ApproveMove?
    requires LinksUnique(w.desk.requests)
    requires i < |w.rows| && u in w.desk.requests && w.desk.requests[u].assignment == Some(i)
    ensures var row, request := w.rows[i], w.desk.requests[u];
      match m
      case ExpireMove(k, subsidy, metadata, decidedAt, now) =>
        if k == i && row.state == Allocated && IsDue(row, ExpiryContext(true, subsidy, metadata), decidedAt, now)
        then Leaves(w, m, i, u, row.(state := AssignmentState.Expired, expiredAt := Some(now)),
                    request.(state := RequestExpired))
        else Leaves(w, m, i, u, row, request)
      case ReverseMove(k, now) =>
        if k == i && row.state == Accepted
        then Leaves(w, m, i, u, row.(state := Reversed, reversedAt := Some(now)), request.(state := RequestReversed))
        else Leaves(w, m, i, u, row, request)
      case CancelMove(v) =>
        if v == u && CanCancel(row)
        then Leaves(w, m, i, u, row.(state := AssignmentState.Cancelled), request.(state := RequestCancelled))
        else Leaves(w, m, i, u, row, request)
      case DeclineMove(v) =>
        if v == u && request.state == Requested
        then Leaves(w, m, i, u, row, request.(state := RequestDeclined))
        else Leaves(w, m, i, u, row, request)
      case ReuseMove(v) =>
        if v == u && CanReopen(request)
        then Leaves(w, m, i, u, row, RequestRow(request.course, Requested, None, None, None))
        else Leaves(w, m, i, u, row, request)
  {
    if m.ExpireMove? {
      ExpiryTakesTheRequest(w, m, i, u);
    } else if m.ReverseMove? {
      ReversalTakesTheRequest(w, m, i, u);
    }
  }

  /** A move of a request, but for its expiry, is logged as one action that names the request and its new state. */
  lemma RequestMovesAreLogged(w: World, m: Move, u: nat)
    requires !m.TableMove? && !m.ApproveMove?
    requires LinksUnique(w.desk.requests) && u in w.desk.requests
    ensures u in Apply(w, m).desk.requests
    ensures Apply(w, m).desk.requests[u] != w.desk.requests[u] ==>
      Apply(w, m).desk.actions == w.desk.actions +
        if m.ExpireMove? then multiset{} else multiset{OtherAction(u, Apply(w, m).desk.requests[u].state)}
  {
    if m.ReverseMove? && w.desk.requests[u].assignment == Some(m.row) {
      assert ReversalActions(w.desk.requests, m.row) == {OtherAction(u, RequestReversed)};
    }
    assert w.desk.actions + multiset{} == w.desk.actions;
  }
}
