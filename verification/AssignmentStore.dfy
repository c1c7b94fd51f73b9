/** The stored assignment rows and the service calls that change them in place. */
module AssignmentStore {
  import opened Wrappers
  import opened Emails
  import opened Assignments
  import opened Allocation
  import opened AllocationOrders
  import opened AllocationCalls
  import opened AssignmentLifecycle
  import opened Expiry
  import opened PiiSweep
  import opened Positions
  import opened RequestAllocation

  /** Deduplicate the emails and build the two id maps. */
  method PrepareOrder(c: Call) returns (o: Order)
    ensures o == OrderOf(c) && o.quantity == -c.price
  {
    var emails := DeduplicateLearnerEmails(c.emails);
    FirstSpellingsAreTheMailboxes(c.emails);
    var ids, names;
    if c.known != [] {
      ids, names := ZipKnownIds(emails, c.known);
    } else {
      ids, names := MapAllocationEmails(c.users, emails);
    }
    o := Order(c.config, c.content, emails, ids, names, -c.price, c.batch, c.preferredRun, c.parentKey, c.now);
  }

  /** The loop body for one existing row, up to the point where it is validated. */
  method PrepareRow(row: Assignment, o: Order) returns (a: Assignment, changed: bool)
    ensures a == Prepare(row, o)
    ensures changed <==> NeedsUpdate(row, o)
  {
    a, changed := row, false;
    if a.lms.None? && Lower(a.email) in o.ids {
      a := a.(lms := Some(o.ids[Lower(a.email)]));
      changed := true;
    }
    if a.state.Expired? && a.lms.Some? && a.lms.value in o.names {
      a := a.(email := o.names[a.lms.value]);
      changed := true;
    }
    if Reallocatable(a.state) {
      a := Reallocate(a, o.quantity, o.batch, o.preferredRun, o.parentKey, Given(o.parentKey), o.now);
      changed := true;
    } else if a.state.Allocated? {
      if a.preferredRun != o.preferredRun {
        a := a.(preferredRun := o.preferredRun);
        changed := true;
      }
      if a.parentKey != o.parentKey {
        a := a.(parentKey := o.parentKey);
        changed := true;
      }
      if a.isRun != Given(o.parentKey) {
        a := a.(isRun := Given(o.parentKey));
        changed := true;
      }
    }
  }

  /** The requested emails for which no row exists yet. */
  method SelectEmails(emails: seq<string>, held: set<string>) returns (toCreate: seq<string>)
    ensures toCreate == EmailsOutside(emails, held)
  {
    toCreate := [];
    for i := 0 to |emails|
      invariant toCreate == EmailsOutside(emails[..i], held)
    {
      assert emails[..i + 1][..i] == emails[..i];
      if Lower(emails[i]) !in held {
        toCreate := toCreate + [emails[i]];
      }
    }
    assert emails[..|emails|] == emails;
  }

  predicate ValidIfRevived(t: Table, i: nat, o: Order)
    requires i < |t|
  {
    Reallocatable(t[i].state) ==> FullClean(t, i, Prepare(t[i], o))
  }

  ghost function PreparedEmails(t: Table, ids: set<nat>, o: Order): set<string>
    requires forall i :: i in ids ==> i < |t|
  {
    set i | i in ids :: Lower(Prepare(t[i], o).email)
  }

  /** The loop over the existing rows: in-memory changes only. */
  method PrepareExisting(t: Table, existing: set<nat>, o: Order)
    returns (prepared: map<nat, Assignment>, needsUpdate: set<nat>, held: set<string>, valid: bool)
    requires existing == FoundIds(t, o)
    ensures valid <==> AllValid(t, o)
    ensures valid ==> prepared.Keys == existing && forall i :: i in existing ==> prepared[i] == Prepare(t[i], o)
    ensures valid ==> needsUpdate == UpdatedIds(t, o)
    ensures valid ==> held == HeldEmails(t, o)
  {
    prepared, needsUpdate, held, valid := map[], {}, {}, true;
    var todo := existing;
    while todo != {}
      invariant todo <= existing
      invariant prepared.Keys == existing - todo
      invariant forall i :: i in prepared ==> prepared[i] == Prepare(t[i], o) && ValidIfRevived(t, i, o)
      invariant forall i :: i in needsUpdate <==> i in prepared && NeedsUpdate(t[i], o)
      invariant held == PreparedEmails(t, prepared.Keys, o)
      decreases todo
    {
      var i :| i in todo;
      var a, changed := PrepareRow(t[i], o);
      if Reallocatable(t[i].state) && !FullClean(t, i, a) {
        return prepared, needsUpdate, held, false;
      }
      todo := todo - {i};
      prepared := prepared[i := a];
      needsUpdate := if changed then needsUpdate + {i} else needsUpdate;
      held := held + {Lower(a.email)};
    }
    ValidatedRows(t, existing, o);
    assert PreparedEmails(t, existing, o) == HeldEmails(t, o);
  }

  lemma ValidatedRows(t: Table, existing: set<nat>, o: Order)
    requires existing == FoundIds(t, o)
    requires forall i :: i in existing ==> ValidIfRevived(t, i, o)
    ensures AllValid(t, o)
  {
    forall i | 0 <= i < |t| && Found(t[i], o) && Reallocatable(t[i].state)
      ensures FullClean(t, i, Prepare(t[i], o))
    {
      assert i in existing;
    }
  }

  /** Map every request to the row written for its learner and course. */
  method AnswerRequests(t: Table, affected: set<nat>, requests: seq<CreditRequest>)
    returns (answer: map<nat, Option<nat>>)
    ensures answer == MapRequests(t, affected, requests)
  {
    answer := map[];
    for k := 0 to |requests|
      invariant answer == MapRequests(t, affected, requests[..k])
    {
      assert requests[..k + 1][..k] == requests[..k];
      var q := requests[k];
      answer := answer[q.uuid := ByLearnerAndCourse(t, affected, |t|, q.lms, q.course)];
    }
    assert requests[..|requests|] == requests;
  }

  /** Fetch the reallocatable rows of the batch and file them under email and course. */
  method FetchExisting(t: Table, b: Batch) returns (existing: map<(string, string), nat>)
    ensures forall q :: q in b.requests ==> Lookup(existing, q) == Reusable(t, b.config, q)
  {
    existing := map[];
    for k := 0 to |t|
      invariant forall q :: q in b.requests ==> Lookup(existing, q) == Reusable(t[..k], b.config, q)
    {
      assert t[..k + 1][..k] == t[..k];
      if Fetched(t[k], b) {
        existing := existing[FiledUnder(t[k]) := k];
      }
    }
    assert t[..|t|] == t;
  }

  function Lookup(existing: map<(string, string), nat>, q: CreditRequest): Option<nat> {
    if LookupKey(q) in existing then Some(existing[LookupKey(q)]) else None
  }

  /** Split the requests into rows to revive and requests that need a new row. */
  method SplitRequests(t: Table, b: Batch, existing: map<(string, string), nat>)
    returns (revived: map<nat, Assignment>, newcomers: seq<CreditRequest>, valid: bool)
    requires forall q :: q in b.requests ==> Lookup(existing, q) == Reusable(t, b.config, q)
    ensures PlanFor(t, b, b.requests) == Plan(revived, newcomers, valid)
  {
    revived, newcomers, valid := map[], [], true;
    for k := 0 to |b.requests|
      invariant PlanFor(t, b, b.requests[..k]) == Plan(revived, newcomers, valid)
    {
      var q := b.requests[k];
      assert b.requests[..k + 1][..k] == b.requests[..k];
      assert q in b.requests && Lookup(existing, q) == Reusable(t, b.config, q);
      ReusableIsOwned(t, b.config, q);
      if LookupKey(q) in existing {
        var i := existing[LookupKey(q)];
        var row := Revive(if i in revived then revived[i] else t[i], b, q);
        valid := valid && FullClean(t, i, row);
        revived := revived[i := row];
      } else {
        newcomers := newcomers + [q];
      }
    }
    assert b.requests[..|b.requests|] == b.requests;
  }

  class Store {
    var rows: Table

    constructor ()
      ensures rows == []
    {
      rows := [];
    }

    /** Allocate one piece of content to every requested email, or change nothing. */
    method AllocateAssignments(c: Call) returns (r: Result<Report, AllocationError>)
      modifies this
      ensures Outcome(old(rows), OrderOf(c)).Failure? ==>
        rows == old(rows) && r == Failure(Outcome(old(rows), OrderOf(c)).error)
      ensures Outcome(old(rows), OrderOf(c)).Success? ==>
        rows == Outcome(old(rows), OrderOf(c)).value && r == Success(ReportOf(old(rows), OrderOf(c)))
      ensures r.Success? ==>
        AllocatedTotal(rows, c.config) == AllocatedTotal(old(rows), c.config) - c.price * Placed(old(rows), c)
    {
      AllocationConservesMoney(rows, c, c.config);
      if c.price < 0 {
        return Failure(NegativePrice);
      }
      var o := PrepareOrder(c);
      var existing := set i: nat | i < |rows| && Found(rows[i], o);
      var prepared, needsUpdate, held, valid := PrepareExisting(rows, existing, o);
      if !valid {
        return Failure(InvalidRow);
      }
      var updated := WriteUpdates(prepared, needsUpdate, o);
      var toCreate := SelectEmails(o.emails, held);
      var next := updated + NewRows(toCreate, o);
      if !UniqueKeys(next) {
        return Failure(IntegrityViolation);
      }
      var size := |rows|;
      var created := seq(|toCreate|, k requires 0 <= k => size + k);
      r := Success(Report(needsUpdate, created, existing - needsUpdate));
      rows := next;
    }

    /** The bulk update of the flagged rows. */
    method WriteUpdates(prepared: map<nat, Assignment>, needsUpdate: set<nat>, o: Order) returns (updated: Table)
      requires needsUpdate == UpdatedIds(rows, o) && needsUpdate <= prepared.Keys
      requires forall i :: i in needsUpdate ==> prepared[i] == Prepare(rows[i], o)
      ensures updated == UpdatedTable(rows, o)
    {
      updated := rows;
      for i := 0 to |rows|
        invariant |updated| == |rows|
        invariant forall j :: 0 <= j < i ==> updated[j] == Settled(rows[j], o)
        invariant forall j :: i <= j < |rows| ==> updated[j] == rows[j]
      {
        if i in needsUpdate {
          updated := updated[i := Save(updated[i], prepared[i])];
        }
      }
    }

    // ---------- batches of credit requests ----------

    /** Reuse or create one row per request, and map the rows back to the requests. */
    method AllocateAssignmentForRequests(b: Batch) returns (r: Result<map<nat, Option<nat>>, AllocationError>)
      modifies this
      ensures BatchOutcome(old(rows), b).Failure? ==>
        rows == old(rows) && r == Failure(BatchOutcome(old(rows), b).error)
      ensures BatchOutcome(old(rows), b).Success? ==>
        rows == BatchOutcome(old(rows), b).value && r == Success(BatchMap(old(rows), b))
    {
      var existing := FetchExisting(rows, b);
      var revived, newcomers, valid := SplitRequests(rows, b, existing);
      if !valid || exists q :: q in newcomers && q.price < 0 {
        return Failure(InvalidRow);
      }
      var next := UpdatedBy(rows, revived) + RequestedRows(b, newcomers);
      assert next == BatchProposal(rows, b);
      if !UniqueKeys(next) {
        return Failure(IntegrityViolation);
      }
      var affected := set i: nat | i < |next| && (i in revived || |rows| <= i);
      assert affected == AffectedIds(rows, b);
      var answer := AnswerRequests(next, affected, b.requests);
      rows := next;
      r := Success(answer);
    }

    // ---------- state changes ----------

    /** Cancel what can be cancelled; report the cancelled and the others. */
    method CancelAssignments(ids: set<nat>) returns (cancelled: set<nat>, nonCancelable: set<nat>)
      requires forall i :: i in ids ==> i < |rows|
      modifies this
      ensures rows == CancelledTable(old(rows), ids)
      ensures cancelled !! nonCancelable && cancelled + nonCancelable == ids
      ensures forall i :: i in ids ==> (i in cancelled <==> rows[i].state.Cancelled?)
      ensures forall i :: i in nonCancelable ==> rows[i] == old(rows)[i]
    {
      var cancelable := set i | i in ids && Cancelable(rows[i].state);
      var already := set i | i in ids && rows[i].state.Cancelled?;
      nonCancelable := ids - cancelable - already;
      var next := rows;
      for k := 0 to |rows|
        invariant |next| == |rows|
        invariant forall j :: 0 <= j < k ==> next[j] == if j in ids then CancelRow(rows[j]) else rows[j]
        invariant forall j :: k <= j < |rows| ==> next[j] == rows[j]
      {
        if k in cancelable {
          next := next[k := next[k].(state := Cancelled)];
        }
      }
      rows := next;
      cancelled := cancelable + already;
    }

    /** A reminder rewrites the state it finds, so nothing changes. */
    method RemindAssignments(ids: set<nat>) returns (reminded: set<nat>, nonRemindable: set<nat>)
      requires forall i :: i in ids ==> i < |rows|
      ensures rows == old(rows)
      ensures reminded == set i | i in ids && rows[i].state.Allocated?
      ensures nonRemindable == ids - reminded
    {
      reminded := set i | i in ids && rows[i].state.Allocated?;
      nonRemindable := ids - reminded;
      // The bulk write stores the state column as it was read.
    }

    /**
     Expire one assignment if its automatic expiration date has come;
     without persisting, the reason is only reported.
     */
    method ExpireAssignment(i: nat, x: ExpiryContext, decidedAt: int, now: int, persist: bool)
      returns (reason: Option<Reason>)
      requires i < |rows|
      modifies this
      ensures reason == RowExpiryReason(old(rows)[i], x, decidedAt, now)
      ensures rows == if reason.Some? && persist then old(rows)[i := ExpireRow(old(rows)[i], now)] else old(rows)
    {
      if !rows[i].state.Allocated? {
        return None;
      }
      var decided := AutomaticExpiration(SubjectOf(rows[i], x), decidedAt);
      if now < decided.date {
        return None;
      }
      if persist {
        rows := rows[i := ExpireRow(rows[i], now)];
      }
      reason := Some(decided.reason);
    }

    method ProgressStateOnFailure(i: nat, now: int)
      requires i < |rows|
      modifies this
      ensures rows == old(rows)[i := FailRow(old(rows)[i], now)]
    {
      rows := rows[i := rows[i].(state := Errored, erroredAt := Some(now))];
    }

    /** A reversed ledger transaction reverses an accepted assignment and no other. */
    method ReverseAssignment(i: nat, now: int) returns (done: bool)
      requires i < |rows|
      modifies this
      ensures done <==> old(rows)[i].state.Accepted?
      ensures rows == old(rows)[i := ReverseRow(old(rows)[i], now)]
    {
      done := rows[i].state.Accepted?;
      if done {
        rows := rows[i := rows[i].(state := Reversed, reversedAt := Some(now))];
      }
    }

    /** Replace an email by a retired one, unless the save is rejected. */
    method ClearAndSave(i: nat, retired: string) returns (saved: bool)
      requires i < |rows|
      modifies this
      ensures rows == Guarded(old(rows), old(rows)[i := ClearPii(old(rows)[i], retired)])
      ensures saved <==> UniqueKeys(old(rows)[i := ClearPii(old(rows)[i], retired)])
    {
      var next := rows[i := ClearPii(rows[i], retired)];
      saved := UniqueKeys(next);
      if saved {
        rows := next;
      }
    }

    /** The daily sweep; a dry run reports the same rows and changes nothing. */
    method ClearPiiForExpiredAssignments(configs: seq<nat>, s: Sweep, dryRun: bool) returns (r: Summary)
      requires Fits(s, rows)
      requires Distinct(configs)
      modifies this
      ensures r.cleared == SweptIds(old(rows), s, configs, true) && r.clearedCount == |r.cleared|
      ensures r.skippedCount == |SweptIds(old(rows), s, configs, false)| && r.dryRun == dryRun
      ensures r.clearedCount + r.skippedCount == |QueueAll(old(rows), configs)|
      ensures rows == if dryRun then old(rows) else ClearedTable(old(rows), s, r.cleared)
    {
      ghost var before, verdicts := rows, Verdicts(rows, s);
      var cleared: seq<nat>, skipped := [], 0;
      assert ClearedTable(before, s, []) == before;
      for c := 0 to |configs|
        invariant cleared == SweptIds(before, s, configs[..c], true)
        invariant skipped == |SweptIds(before, s, configs[..c], false)|
        invariant rows == if dryRun then before else ClearedTable(before, s, cleared)
      {
        assert configs[..c + 1][..c] == configs[..c];
        var queue := Queue(rows, |rows|, configs[c]);
        NextQueue(before, s, configs[..c], configs[c]);
        cleared, skipped := SweepQueue(queue, s, dryRun, cleared, skipped, before, QueueAll(before, configs[..c]));
      }
      assert configs[..|configs|] == configs;
      ClearedPlusSkipped(verdicts, QueueAll(before, configs));
      r := Summary(|cleared|, skipped, cleared, dryRun);
    }

    /** The sweep over the queue of one configuration, continuing after the rows already dealt with. */
    method SweepQueue(queue: seq<nat>, s: Sweep, dryRun: bool, cleared: seq<nat>, skipped: nat,
                      ghost before: Table, ghost earlier: seq<nat>)
      returns (cleared': seq<nat>, skipped': nat)
      requires Fits(s, before) && Within(queue, |before|) && Within(earlier, |before|) && Increasing(queue)
      requires forall k :: 0 <= k < |queue| ==> queue[k] !in earlier
      requires cleared == Chosen(Verdicts(before, s), earlier, true)
      requires skipped == |Chosen(Verdicts(before, s), earlier, false)|
      requires rows == if dryRun then before else ClearedTable(before, s, cleared)
      modifies this
      ensures cleared' == Chosen(Verdicts(before, s), earlier + queue, true)
      ensures skipped' == |Chosen(Verdicts(before, s), earlier + queue, false)|
      ensures rows == if dryRun then before else ClearedTable(before, s, cleared')
    {
      cleared', skipped' := cleared, skipped;
      assert earlier + queue[..0] == earlier;
      for k := 0 to |queue|
        invariant SweptSoFar(before, s, earlier, queue, k, rows, cleared', skipped', dryRun)
      {
        SweptStep(before, s, earlier, queue, k, rows, cleared', skipped', dryRun);
        var i := queue[k];
        if ShouldClear(rows[i], s.contexts[i], s.now) {
          if !dryRun {
            rows := rows[i := ClearPii(rows[i], RetiredEmail(s.nonces[i]))];
          }
          cleared' := cleared' + [i];
        } else {
          skipped' := skipped' + 1;
        }
      }
      assert queue[..|queue|] == queue;
    }

    /** The post-save hook of user records. */
    method LinkLmsUser(email: string, id: LmsUserId) returns (saved: bool)
      modifies this
      ensures rows == Guarded(old(rows), LinkedTable(old(rows), email, id))
      ensures saved <==> UniqueKeys(LinkedTable(old(rows), email, id))
    {
      var next := rows;
      for k := 0 to |rows|
        invariant |next| == |rows|
        invariant forall j :: 0 <= j < k ==> next[j] == LinkRow(rows[j], email, id)
        invariant forall j :: k <= j < |rows| ==> next[j] == rows[j]
      {
        if rows[k].lms.None? && Lower(rows[k].email) == Lower(email) {
          next := next[k := next[k].(lms := Some(id))];
        }
      }
      assert next == LinkedTable(rows, email, id);
      saved := UniqueKeys(next);
      if saved {
        rows := next;
      }
    }
  }
}
