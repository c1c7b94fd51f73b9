/** What one successful allocation does to the money, to a repeated call and to a cleared row. */
module AllocationEffects {
  import opened Wrappers
  import opened Emails
  import opened Assignments
  import opened Allocation
  import opened AllocationUniqueness
  import opened AssignmentLifecycle

  // ---------- liveness ----------

  /** Every row that answers to the order is allocated or accepted afterwards. */
  lemma MatchingRowsEndLive(t: Table, o: Order, i: nat)
    requires o.WellMapped() && i < |Proposal(t, o)| && Found(Proposal(t, o)[i], o)
    ensures Proposal(t, o)[i].state.Allocated? || Proposal(t, o)[i].state.Accepted?
  {
    if i < |t| {
      SettledIsFoundAgain(t[i], o);
    }
  }

  // ---------- which rows a call touches ----------

  ghost predicate OwnedByRequested(row: Assignment, o: Order) {
    exists e :: e in o.emails && Owns(row, e, o)
  }

  /** An order that names someone finds exactly the rows of the learners it names. */
  lemma FoundIffOwned(row: Assignment, o: Order)
    requires o.WellMapped() && o.emails != []
    ensures Found(row, o) <==> OwnedByRequested(row, o)
  {
    if Found(row, o) && !(exists e :: e in o.emails && Lower(e) == Lower(row.email)) {
      var e := IdHasEmail(row.lms.value, o);
      assert Owns(row, e, o);
    }
    if OwnedByRequested(row, o) {
      var e :| e in o.emails && Owns(row, e, o);
      OwnersAreFound(row, e, o);
    }
  }

  /**
   Rows of learners who were not named stay as they are if and only if the order names someone,
   or no row of the content needs an update.
   */
  lemma OnlyNamedLearnersAreTouchedIff(t: Table, o: Order)
    requires o.WellMapped()
    ensures (forall i :: 0 <= i < |t| && !OwnedByRequested(t[i], o) ==> Settled(t[i], o) == t[i])
       <==> o.emails != [] || forall i :: 0 <= i < |t| && InScope(t[i], o) ==> !NeedsUpdate(t[i], o)
  {
    if o.emails != [] {
      forall i | 0 <= i < |t| {
        FoundIffOwned(t[i], o);
      }
    } else {
      forall i | 0 <= i < |t|
        ensures Settled(t[i], o) == t[i] <==> !(InScope(t[i], o) && NeedsUpdate(t[i], o))
      {
        NeededUpdatesShow(t[i], o);
      }
      assert forall row :: !OwnedByRequested(row, o);
    }
  }

  /** A needed update changes a stored column. */
  lemma NeededUpdatesShow(row: Assignment, o: Order)
    ensures Settled(row, o) == row <==> !(Found(row, o) && NeedsUpdate(row, o))
  {
    if Found(row, o) && NeedsUpdate(row, o) && !Reallocatable(row.state) {
      assert Save(row, Prepare(row, o)) == Prepare(row, o);
    }
  }

  /** Reallocation clears the acceptance time of the row in memory, but the stored columns keep their values. */
  lemma ReallocationKeepsUnsavedDates(row: Assignment, o: Order)
    requires Found(row, o) && Reallocatable(row.state)
    ensures Settled(row, o).acceptedAt == row.acceptedAt && Settled(row, o).reversedAt == row.reversedAt
    ensures Settled(row, o) == Prepare(row, o) <==> row.acceptedAt.None?
  {
  }

  /**
   An order that names no learner still matches every row for the content: it goes through,
   creates nothing, and brings every reallocatable row of the content back at the new price.
   */
  lemma EmptyOrderRevivesEverything(t: Table, o: Order)
    requires o.WellMapped() && o.emails == [] && UniqueKeys(t) && o.quantity <= 0
    ensures Outcome(t, o).Success? && |Outcome(t, o).value| == |t|
    ensures forall i :: 0 <= i < |t| && InScope(t[i], o) && Reallocatable(t[i].state) ==>
      Outcome(t, o).value[i].state.Allocated? && Outcome(t, o).value[i].quantity == o.quantity
  {
    assert o.ids == map[] by {
      assert o.ids.Keys <= Spellings([]);
    }
    AllocationLeavesOneRowEach(t, o);
  }

  // ---------- conservation ----------

  ghost function RevivedIds(t: Table, o: Order): set<nat> {
    set i: nat | i < |t| && Found(t[i], o) && Reallocatable(t[i].state)
  }

  lemma WeightOfSettled(row: Assignment, o: Order, config: nat)
    ensures Weight(Settled(row, o), config)
         == Weight(row, config)
            + if config == o.config && Found(row, o) && Reallocatable(row.state) then o.quantity else 0
  {
  }

  lemma LastRevived(t: Table, o: Order)
    requires t != []
    ensures var n := |t| - 1;
      |RevivedIds(t, o)| == |RevivedIds(t[..n], o)| + if Found(t[n], o) && Reallocatable(t[n].state) then 1 else 0
  {
    var n := |t| - 1;
    var before := RevivedIds(t[..n], o);
    assert RevivedIds(t, o) == if Found(t[n], o) && Reallocatable(t[n].state) then before + {n} else before;
  }

  lemma {:induction false} UpdatedTotal(t: Table, o: Order, config: nat)
    ensures AllocatedTotal(UpdatedTable(t, o), config)
         == AllocatedTotal(t, config) + (if config == o.config then o.quantity * |RevivedIds(t, o)| else 0)
  {
    if t == [] {
      assert RevivedIds(t, o) == {};
    } else {
      var n := |t| - 1;
      LastUpdated(t, o);
      UpdatedTotal(t[..n], o, config);
      LastRevived(t, o);
      WeightOfSettled(t[n], o, config);
      OneMore(o.quantity, |RevivedIds(t[..n], o)|);
    }
  }

  lemma LastUpdated(t: Table, o: Order)
    requires t != []
    ensures var n := |t| - 1;
      UpdatedTable(t, o)[..n] == UpdatedTable(t[..n], o) && UpdatedTable(t, o)[n] == Settled(t[n], o)
  {
  }

  lemma OneMore(q: int, n: nat)
    ensures q * (n + 1) == q * n + q
  {
  }

  lemma {:induction false} NewRowsTotal(emails: seq<string>, o: Order, config: nat)
    ensures AllocatedTotal(NewRows(emails, o), config) == if config == o.config then o.quantity * |emails| else 0
  {
    if emails != [] {
      var n := |emails| - 1;
      assert NewRows(emails, o)[..n] == NewRows(emails[..n], o);
      NewRowsTotal(emails[..n], o, config);
      OneMore(o.quantity, n);
    }
  }

  /** The price once for every revived and every created row. */
  ghost function Debit(t: Table, o: Order, config: nat): int {
    if config == o.config then o.quantity * (|RevivedIds(t, o)| + |ReportOf(t, o).created|) else 0
  }

  /** A proposal moves the total by the quantity once for every revived and every created row. */
  lemma ProposalTotal(t: Table, o: Order, config: nat)
    ensures AllocatedTotal(Proposal(t, o), config) == AllocatedTotal(t, config) + Debit(t, o, config)
  {
    var newcomers := EmailsToCreate(t, o);
    TotalOfConcat(UpdatedTable(t, o), NewRows(newcomers, o), config);
    UpdatedTotal(t, o, config);
    NewRowsTotal(newcomers, o, config);
    DebitIsSplit(t, o, config);
  }

  lemma DebitIsSplit(t: Table, o: Order, config: nat)
    ensures Debit(t, o, config) == if config == o.config
      then o.quantity * |RevivedIds(t, o)| + o.quantity * |EmailsToCreate(t, o)| else 0
  {
    assert |ReportOf(t, o).created| == |EmailsToCreate(t, o)|;
    Distribute(o.quantity, |RevivedIds(t, o)|, |EmailsToCreate(t, o)|);
  }

  lemma Distribute(q: int, m: nat, n: nat)
    ensures q * (m + n) == q * m + q * n
  {
  }

  // ---------- idempotence ----------

  /** A later call with the same arguments has its own batch id and clock reading. */
  ghost predicate Repeats(again: Order, o: Order) {
    again == o.(batch := again.batch, now := again.now)
  }

  lemma SettledIsFoundAgain(row: Assignment, o: Order)
    requires o.WellMapped()
    ensures Found(Settled(row, o), o) <==> Found(row, o)
    ensures Found(row, o) ==> !Reallocatable(Settled(row, o).state)
  {
    SettledKeepsIdentity(row, o);
    if Found(row, o) {
      var p := Prepare(row, o);
      if p.email != row.email {
        assert p.email in o.emails;
      }
    }
  }

  lemma SettledIsIdentified(row: Assignment, o: Order)
    requires o.WellMapped() && Found(row, o)
    ensures Identify(Settled(row, o), o) == Settled(row, o)
  {
    SettledIsFoundAgain(row, o);
    SettledKeepsIdentity(row, o);
    var s := Settled(row, o);
    if s.lms.None? {
      assert row.lms.None? && s.email == row.email;
    }
  }

  lemma SettledIsRefreshed(row: Assignment, o: Order)
    requires Found(row, o) && Settled(row, o).state.Allocated?
    ensures Settled(row, o).preferredRun == o.preferredRun
    ensures Settled(row, o).parentKey == o.parentKey
    ensures Settled(row, o).isRun == Given(o.parentKey)
  {
  }

  lemma SettledNeedsNothing(row: Assignment, o: Order, again: Order)
    requires o.WellMapped() && Repeats(again, o) && Found(row, o)
    ensures !NeedsUpdate(Settled(row, o), again)
  {
    var s := Settled(row, o);
    SettledIsFoundAgain(row, o);
    SettledIsIdentified(row, o);
    assert Identify(s, again) == Identify(s, o) == s;
    if s.state.Allocated? {
      SettledIsRefreshed(row, o);
    }
  }

  lemma NewRowNeedsNothing(email: string, o: Order, again: Order)
    requires Repeats(again, o) && email in o.emails
    ensures Found(NewRow(email, o), again) && !NeedsUpdate(NewRow(email, o), again)
  {
  }

  /** Which rows of the proposal match the repeated order, and that none of them needs an update. */
  lemma ProposalNeedsNothing(t: Table, o: Order, again: Order, i: nat)
    requires o.WellMapped() && Repeats(again, o) && i < |Proposal(t, o)|
    ensures Found(Proposal(t, o)[i], again) <==> (i in FoundIds(t, o) || |t| <= i)
    ensures Found(Proposal(t, o)[i], again) ==> !NeedsUpdate(Proposal(t, o)[i], again)
  {
    var newcomers := EmailsToCreate(t, o);
    if i < |t| {
      SettledIsFoundAgain(t[i], o);
      assert Found(Settled(t[i], o), again) == Found(Settled(t[i], o), o);
      if Found(t[i], o) {
        SettledNeedsNothing(t[i], o, again);
      }
    } else {
      EmailsOutsideAreRequested(o.emails, HeldEmails(t, o));
      assert newcomers[i - |t|] in newcomers;
      NewRowNeedsNothing(newcomers[i - |t|], o, again);
    }
  }

  /**
   After a successful call the same call again creates nothing, updates nothing
   and reports every matching row as unchanged.
   */
  lemma AllocationIsIdempotent(t: Table, o: Order, again: Order)
    requires o.WellMapped() && Outcome(t, o).Success? && Repeats(again, o)
    ensures var t' := Outcome(t, o).value;
      && Outcome(t', again) == Success(t')
      && ReportOf(t', again) == Report({}, [], FoundIds(t', again))
      && FoundIds(t', again) == FoundIds(t, o) + (set k | k in ReportOf(t, o).created)
  {
    var t' := Proposal(t, o);
    RepeatNeedsNothing(t, o, again);
    EveryEmailStaysHeld(t, o, again);
    NothingNeededNothingWritten(t', again);
  }

  /** The repeated order finds the same rows and the created ones, and has to update none of them. */
  lemma RepeatNeedsNothing(t: Table, o: Order, again: Order)
    requires o.WellMapped() && Repeats(again, o)
    ensures var t' := Proposal(t, o);
      && UpdatedIds(t', again) == {}
      && FoundIds(t', again) == FoundIds(t, o) + (set k | k in ReportOf(t, o).created)
      && forall i :: 0 <= i < |t'| && Found(t'[i], again) ==> !NeedsUpdate(t'[i], again)
  {
    forall i: nat | i < |Proposal(t, o)| {
      ProposalNeedsNothing(t, o, again, i);
    }
    CreatedPositions(t, o);
  }

  lemma EveryEmailStaysHeld(t: Table, o: Order, again: Order)
    requires o.WellMapped() && Repeats(again, o)
    ensures forall e :: e in again.emails ==> Lower(e) in HeldEmails(Proposal(t, o), again)
  {
    var p := Proposal(t, o);
    forall e | e in again.emails
      ensures Lower(e) in HeldEmails(p, again)
    {
      var i := EveryEmailIsHeld(t, o, e);
      assert Found(p[i], again);
      ProposalNeedsNothing(t, o, again, i);
      assert Prepare(p[i], again) == p[i];
    }
  }

  lemma NothingNeededNothingWritten(t: Table, o: Order)
    requires forall i :: 0 <= i < |t| && Found(t[i], o) ==> !NeedsUpdate(t[i], o)
    requires forall e :: e in o.emails ==> Lower(e) in HeldEmails(t, o)
    ensures Proposal(t, o) == t && EmailsToCreate(t, o) == [] && AllValid(t, o)
  {
    NothingToCreate(o.emails, HeldEmails(t, o));
    assert UpdatedTable(t, o) == t;
  }

  lemma CreatedPositions(t: Table, o: Order)
    ensures forall k :: k in ReportOf(t, o).created <==> |t| <= k < |Proposal(t, o)|
  {
    var ids := ReportOf(t, o).created;
    forall k | |t| <= k < |Proposal(t, o)|
      ensures k in ids
    {
      assert ids[k - |t|] == k;
    }
  }

  lemma {:induction false} NothingToCreate(emails: seq<string>, held: set<string>)
    requires forall e :: e in emails ==> Lower(e) in held
    ensures EmailsOutside(emails, held) == []
  {
    if emails != [] {
      NothingToCreate(emails[..|emails| - 1], held);
    }
  }

  // ---------- clear, then reallocate ----------

  /**
   Clearing an expired row with an LMS id and then allocating the same content to
   that learner reuses the row, restores the requested email and creates no second row.
   */
  lemma ClearedRowIsReused(t: Table, o: Order, i: nat, retired: string, e: string)
    requires o.WellMapped() && o.Alone(e) && o.quantity <= 0
    requires i < |t| && UniqueKeys(t) && UniqueKeys(t[i := ClearPii(t[i], retired)])
    requires InScope(t[i], o) && t[i].state.Expired? && t[i].lms.Some?
    requires e in o.emails && Lower(e) == Lower(t[i].email) && Lower(e) in o.ids && o.ids[Lower(e)] == t[i].lms.value
    requires forall other :: other in o.emails && other != e ==> Admissible(t[i := ClearPii(t[i], retired)], other, o)
    ensures var cleared := t[i := ClearPii(t[i], retired)];
      && Outcome(cleared, o).Success?
      && OwnsOnly(Outcome(cleared, o).value, i, e, o)
      && Outcome(cleared, o).value[i].email == e
      && Outcome(cleared, o).value[i].state.Allocated?
      && Outcome(cleared, o).value[i].quantity == o.quantity
      && e !in EmailsToCreate(cleared, o)
  {
    var cleared := t[i := ClearPii(t[i], retired)];
    ClearedRowIsAdmissible(t, o, i, retired, e);
    AllocationLeavesOneRowEach(cleared, o);
    var p := Outcome(cleared, o).value;
    ClearedRowTakesItsEmailBack(cleared[i], o, e);
    assert Owns(p[i], e, o);
    var only :| OwnsOnly(p, only, e, o);
    OwnersInTheTable(cleared, o, e, i);
  }

  lemma ClearedRowIsAdmissible(t: Table, o: Order, i: nat, retired: string, e: string)
    requires o.Alone(e) && i < |t| && UniqueKeys(t)
    requires InScope(t[i], o) && t[i].state.Expired? && t[i].lms.Some?
    requires Lower(e) == Lower(t[i].email) && Lower(e) in o.ids && o.ids[Lower(e)] == t[i].lms.value
    ensures Admissible(t[i := ClearPii(t[i], retired)], e, o)
  {
    var cleared := t[i := ClearPii(t[i], retired)];
    forall j | 0 <= j < |t| && Owns(cleared[j], e, o)
      ensures j == i
    {
      ClashingRowsAreOne(t, j, i);
    }
  }

  /** An expired row that carries a requested user's LMS id ends under the requested email. */
  lemma ClearedRowTakesItsEmailBack(row: Assignment, o: Order, e: string)
    requires o.WellMapped() && o.Alone(e) && InScope(row, o) && row.state.Expired? && row.lms.Some?
    requires e in o.emails && Lower(e) in o.ids && o.ids[Lower(e)] == row.lms.value
    ensures Settled(row, o).email == e && Settled(row, o).lms == row.lms && InScope(Settled(row, o), o)
    ensures Settled(row, o).state.Allocated? && Settled(row, o).quantity == o.quantity
  {
    var k := row.lms.value;
    assert k in o.names && o.ids[Lower(o.names[k])] == k;
    MailboxNamesOneEntry(o.emails, o.names[k], e);
    assert Owns(row, e, o);
    OwnersAreFound(row, e, o);
  }
}
