/** Exactly which allocation calls go through. */
module AllocationSuccess {
  import opened Wrappers
  import opened Emails
  import opened Assignments
  import opened Allocation
  import opened AllocationUniqueness

  // ---------- the condition ----------

  /** The LMS id of a row once a missing one has been filled in. */
  function LinkedId(row: Assignment, o: Order): Option<LmsUserId> {
    if row.lms.Some? then row.lms
    else if Lower(row.email) in o.ids then Some(o.ids[Lower(row.email)])
    else None
  }

  /** Two requested mailboxes of one LMS user. */
  predicate SameUser(a: string, b: string, o: Order) {
    && Lower(a) != Lower(b) && Lower(a) in o.ids && Lower(b) in o.ids
    && o.ids[Lower(a)] == o.ids[Lower(b)]
  }

  /** The expired row gives up its own email for this one, the name of its LMS id. */
  predicate Takes(row: Assignment, email: string, o: Order) {
    && InScope(row, o) && row.state.Expired? && Lower(row.email) != Lower(email)
    && LinkedId(row, o).Some? && LinkedId(row, o).value in o.names
    && Lower(o.names[LinkedId(row, o).value]) == Lower(email)
  }

  ghost predicate IsHeldApart(t: Table, email: string, o: Order) {
    exists i :: HeldApart(t, i, email, o)
  }

  predicate InScopeUnder(row: Assignment, email: string, o: Order) {
    InScope(row, o) && Lower(row.email) == Lower(email)
  }

  /**
   Nothing is in the email's way. Either a row holds it under another LMS id and no row takes it;
   or every other requested email of the same user is held apart, and a row with the user's LMS id
   under another email takes this one, which no row has.
   */
  ghost predicate Unobstructed(t: Table, email: string, o: Order) {
    Lower(email) in o.ids ==>
      if IsHeldApart(t, email, o) then
        forall i :: 0 <= i < |t| ==> !Takes(t[i], email, o)
      else
        && (forall other :: other in o.emails && SameUser(email, other, o) ==> IsHeldApart(t, other, o))
        && (forall i :: 0 <= i < |t| && IsStray(t[i], email, o) ==>
              Takes(t[i], email, o) && forall j :: 0 <= j < |t| ==> !InScopeUnder(t[j], email, o))
  }

  /** The row carries the user's LMS id under another email. */
  predicate IsStray(row: Assignment, email: string, o: Order) {
    && InScope(row, o) && Lower(row.email) != Lower(email)
    && Lower(email) in o.ids && row.lms == Some(o.ids[Lower(email)])
  }

  ghost predicate AllUnobstructed(t: Table, o: Order) {
    forall e :: e in o.emails ==> Unobstructed(t, e, o)
  }

  // ---------- one row ----------

  lemma PreparedId(row: Assignment, o: Order)
    ensures Prepare(row, o).lms == LinkedId(row, o)
  {
  }

  /** A prepared row has its own email, or one that it takes. */
  lemma PreparedEmail(row: Assignment, o: Order) returns (e: string)
    requires o.WellMapped() && InScope(row, o) && Lower(Prepare(row, o).email) != Lower(row.email)
    ensures e in o.emails && Prepare(row, o).email == e && Takes(row, e, o)
    ensures Lower(e) in o.ids && LinkedId(row, o) == Some(o.ids[Lower(e)])
  {
    e := Prepare(row, o).email;
    var k := LinkedId(row, o).value;
    assert o.names[k] == e;
  }

  lemma TakersTake(row: Assignment, e: string, o: Order)
    requires o.WellMapped() && e in o.emails && Takes(row, e, o)
    ensures Lower(Prepare(row, o).email) == Lower(e)
    ensures Lower(e) in o.ids && LinkedId(row, o) == Some(o.ids[Lower(e)])
    ensures Found(row, o)
  {
    var k := LinkedId(row, o).value;
    assert Lower(o.names[k]) in o.ids && o.ids[Lower(o.names[k])] == k;
    if row.lms.None? {
      var own := SpellingHasEmail(Lower(row.email), o.emails);
    }
  }

  // ---------- what obstruction excludes ----------

  /** A row without an LMS id under a requested email: the email is not held apart. */
  lemma UnlinkedHolderIsNotApart(t: Table, o: Order, i: nat, e: string)
    requires UniqueKeys(t) && i < |t| && InScopeUnder(t[i], e, o) && t[i].lms.None?
    ensures !IsHeldApart(t, e, o)
  {
    assert forall h: nat :: h < |t| && h != i ==> !Clash(t[h], t[i]);
  }

  /** A row only takes an email that no row has, and only if it carries the user's LMS id itself. */
  lemma TakenEmailsAreFree(t: Table, o: Order, i: nat, e: string)
    requires o.WellMapped() && UniqueKeys(t) && AllUnobstructed(t, o)
    requires i < |t| && e in o.emails && Takes(t[i], e, o)
    ensures t[i].lms.Some? && IsStray(t[i], e, o)
    ensures forall j :: 0 <= j < |t| ==> !InScopeUnder(t[j], e, o)
  {
    TakersTake(t[i], e, o);
    if t[i].lms.None? {
      var own := SpellingHasEmail(Lower(t[i].email), o.emails);
      UnlinkedHolderIsNotApart(t, o, i, own);
      assert SameUser(own, e, o);
      assert false;
    }
  }

  /** An unlinked row under a requested email shares its LMS id with no row and no email in need of it. */
  lemma FilledIdsAreFree(t: Table, o: Order, i: nat, e: string)
    requires UniqueKeys(t) && AllUnobstructed(t, o)
    requires i < |t| && e in o.emails && InScopeUnder(t[i], e, o) && t[i].lms.None? && Lower(e) in o.ids
    ensures forall j :: 0 <= j < |t| && InScope(t[j], o) ==> t[j].lms != Some(o.ids[Lower(e)])
    ensures forall other :: other in o.emails && SameUser(e, other, o) ==> IsHeldApart(t, other, o)
  {
    UnlinkedHolderIsNotApart(t, o, i, e);
    forall j: nat | j < |t| && InScope(t[j], o)
      ensures t[j].lms != Some(o.ids[Lower(e)])
    {
      ClashingRowsAreOne(t, i, j);
    }
  }

  // ---------- unobstructed calls go through ----------

  lemma PreparedAgainstStored(t: Table, o: Order, i: nat, j: nat)
    requires o.WellMapped() && UniqueKeys(t) && AllUnobstructed(t, o)
    requires i < |t| && j < |t| && i != j && InScope(t[i], o)
    ensures !Clash(t[j], Prepare(t[i], o))
  {
    var row := Prepare(t[i], o);
    PreparedId(t[i], o);
    ClashingRowsAreOne(t, i, j);
    if Clash(t[j], row) {
      if Lower(row.email) == Lower(t[j].email) {
        var e := PreparedEmail(t[i], o);
        TakenEmailsAreFree(t, o, i, e);
        assert InScopeUnder(t[j], e, o);
      } else {
        var own := SpellingHasEmail(Lower(t[i].email), o.emails);
        FilledIdsAreFree(t, o, i, own);
      }
    }
  }

  lemma PreparedEmailIsFree(t: Table, o: Order, i: nat, j: nat)
    requires o.WellMapped() && UniqueKeys(t) && AllUnobstructed(t, o)
    requires i < |t| && j < |t| && i != j && InScope(t[i], o) && InScope(t[j], o)
    ensures Lower(Prepare(t[i], o).email) != Lower(t[j].email)
  {
    PreparedAgainstStored(t, o, i, j);
  }

  lemma TakersTakeDifferentEmails(t: Table, o: Order, i: nat, j: nat)
    requires o.WellMapped() && UniqueKeys(t) && AllUnobstructed(t, o)
    requires i < |t| && j < |t| && i != j && InScope(t[i], o) && InScope(t[j], o)
    ensures Lower(Prepare(t[i], o).email) != Lower(Prepare(t[j], o).email)
  {
    PreparedEmailIsFree(t, o, i, j);
    PreparedEmailIsFree(t, o, j, i);
    if Lower(Prepare(t[i], o).email) == Lower(Prepare(t[j], o).email) {
      var e := PreparedEmail(t[i], o);
      var f := PreparedEmail(t[j], o);
      OneTakerPerEmail(t, o, i, j, e, f);
    }
  }

  lemma OneTakerPerEmail(t: Table, o: Order, i: nat, j: nat, e: string, f: string)
    requires o.WellMapped() && UniqueKeys(t) && AllUnobstructed(t, o)
    requires i < |t| && j < |t| && e in o.emails && f in o.emails && Lower(e) == Lower(f)
    requires Takes(t[i], e, o) && Takes(t[j], f, o)
    ensures i == j
  {
    TakenEmailsAreFree(t, o, i, e);
    TakenEmailsAreFree(t, o, j, f);
    ClashingRowsAreOne(t, i, j);
  }

  lemma LinkedIdsDiffer(t: Table, o: Order, i: nat, j: nat)
    requires o.WellMapped() && UniqueKeys(t) && AllUnobstructed(t, o)
    requires i < |t| && j < |t| && i != j && InScope(t[i], o) && InScope(t[j], o) && LinkedId(t[i], o).Some?
    ensures LinkedId(t[i], o) != LinkedId(t[j], o)
  {
    ClashingRowsAreOne(t, i, j);
    if t[i].lms.None? {
      var e := SpellingHasEmail(Lower(t[i].email), o.emails);
      FilledIdsAreFree(t, o, i, e);
      if t[j].lms.None? && Lower(t[j].email) in o.ids {
        var f := SpellingHasEmail(Lower(t[j].email), o.emails);
        UnlinkedHolderIsNotApart(t, o, j, f);
      }
    } else if t[j].lms.None? && Lower(t[j].email) in o.ids {
      var f := SpellingHasEmail(Lower(t[j].email), o.emails);
      FilledIdsAreFree(t, o, j, f);
    }
  }

  lemma SettledPairs(t: Table, o: Order, i: nat, j: nat)
    requires o.WellMapped() && UniqueKeys(t) && AllUnobstructed(t, o)
    requires i < |t| && j < |t| && i != j && InScope(t[i], o) && InScope(t[j], o)
    ensures !Clash(Prepare(t[i], o), Prepare(t[j], o))
  {
    PreparedId(t[i], o);
    PreparedId(t[j], o);
    TakersTakeDifferentEmails(t, o, i, j);
    if LinkedId(t[i], o).Some? {
      LinkedIdsDiffer(t, o, i, j);
    }
  }

  lemma SettledIdentity(row: Assignment, o: Order)
    requires o.WellMapped() && InScope(row, o)
    ensures Settled(row, o).email == Prepare(row, o).email && Settled(row, o).lms == Prepare(row, o).lms
    ensures Settled(row, o).config == row.config && Settled(row, o).content == row.content
  {
    SettledKeepsIdentity(row, o);
    if !Found(row, o) {
      UnfoundIsPrepared(row, o);
    }
  }

  lemma UnfoundIsPrepared(row: Assignment, o: Order)
    requires o.WellMapped() && InScope(row, o) && !Found(row, o)
    ensures Prepare(row, o).email == row.email && Prepare(row, o).lms == row.lms
  {
    if row.lms.None? && Lower(row.email) in o.ids {
      var e := SpellingHasEmail(Lower(row.email), o.emails);
    }
  }

  lemma SettledRowsStayApart(t: Table, o: Order, i: nat, j: nat)
    requires o.WellMapped() && UniqueKeys(t) && AllUnobstructed(t, o)
    requires i < |t| && j < |t| && i != j
    ensures !Clash(Settled(t[i], o), Settled(t[j], o))
  {
    if InScope(t[i], o) && InScope(t[j], o) {
      SettledIdentity(t[i], o);
      SettledIdentity(t[j], o);
      SettledPairs(t, o, i, j);
      PreparedKeepsScope(t[i], o);
      PreparedKeepsScope(t[j], o);
    } else {
      SettledKeepsIdentity(t[i], o);
      SettledKeepsIdentity(t[j], o);
      ClashingRowsAreOne(t, i, j);
    }
  }

  lemma PreparedKeepsScope(row: Assignment, o: Order)
    ensures Prepare(row, o).config == row.config && Prepare(row, o).content == row.content
  {
  }

  /** A row under an email for which a new row is needed has taken another email. */
  lemma HolderMovedAway(t: Table, o: Order, i: nat, e: string)
    requires o.WellMapped() && i < |t| && e in o.emails && InScopeUnder(t[i], e, o)
    requires Lower(e) !in HeldEmails(t, o)
    ensures exists f :: f in o.emails && Takes(t[i], f, o)
  {
    assert Found(t[i], o);
    assert Lower(Prepare(t[i], o).email) in HeldEmails(t, o);
    var f := PreparedEmail(t[i], o);
  }

  /** No row ends with the LMS id of an email for which a new row is needed. */
  lemma CreatedIdsAreFree(t: Table, o: Order, i: nat, e: string)
    requires o.WellMapped() && UniqueKeys(t) && AllUnobstructed(t, o)
    requires i < |t| && e in o.emails && Lower(e) !in HeldEmails(t, o) && Lower(e) in o.ids && InScope(t[i], o)
    ensures LinkedId(t[i], o) != Some(o.ids[Lower(e)])
  {
    if LinkedId(t[i], o) == Some(o.ids[Lower(e)]) {
      CreatedIsNotApart(t, o, e);
      if Lower(t[i].email) == Lower(e) {
        HolderMovedAway(t, o, i, e);
        var f :| f in o.emails && Takes(t[i], f, o);
        TakenEmailsAreFree(t, o, i, f);
        TakersTake(t[i], f, o);
        assert SameUser(e, f, o);
        assert false;
      } else if t[i].lms.Some? {
        assert IsStray(t[i], e, o);
        TakersTake(t[i], e, o);
      } else {
        var own := SpellingHasEmail(Lower(t[i].email), o.emails);
        FilledIdsAreFree(t, o, i, own);
        assert SameUser(own, e, o);
        assert false;
      }
    }
  }

  lemma CreatedIsNotApart(t: Table, o: Order, e: string)
    requires e in o.emails && Lower(e) !in HeldEmails(t, o)
    ensures !IsHeldApart(t, e, o)
  {
    if IsHeldApart(t, e, o) {
      var h :| HeldApart(t, h, e, o);
      HeldApartStaysHeld(t, o, h, e);
    }
  }

  lemma CreatedMeetsNoRow(t: Table, o: Order, i: nat, e: string)
    requires o.WellMapped() && UniqueKeys(t) && AllUnobstructed(t, o)
    requires i < |t| && e in o.emails && Lower(e) !in HeldEmails(t, o)
    ensures !Clash(Settled(t[i], o), NewRow(e, o)) && !Clash(NewRow(e, o), Settled(t[i], o))
  {
    SettledKeepsIdentity(t[i], o);
    if InScope(t[i], o) {
      SettledIdentity(t[i], o);
      PreparedId(t[i], o);
      if Lower(e) in o.ids {
        CreatedIdsAreFree(t, o, i, e);
      }
      if Lower(Prepare(t[i], o).email) == Lower(e) {
        PreparedHolderIsFound(t[i], o, e);
      }
    }
  }

  lemma PreparedHolderIsFound(row: Assignment, o: Order, e: string)
    requires o.WellMapped() && InScope(row, o) && e in o.emails && Lower(Prepare(row, o).email) == Lower(e)
    ensures Found(row, o)
  {
    if Lower(row.email) != Lower(e) {
      var f := PreparedEmail(row, o);
      TakersTake(row, f, o);
    }
  }

  lemma CreatedRowsStayApart(t: Table, o: Order, j: nat, k: nat)
    requires o.WellMapped() && UniqueKeys(t) && AllUnobstructed(t, o) && j < k < |EmailsToCreate(t, o)|
    ensures var p := Proposal(t, o); !Clash(p[|t| + j], p[|t| + k]) && !Clash(p[|t| + k], p[|t| + j])
  {
    var a, b := EmailsToCreate(t, o)[j], EmailsToCreate(t, o)[k];
    NewcomerIsRequested(t, o, j);
    NewcomerIsRequested(t, o, k);
    NewcomersDiffer(t, o, j, k);
    CreatedIsNotApart(t, o, a);
    CreatedIsNotApart(t, o, b);
    assert !SameUser(a, b, o);
  }

  lemma CreatedRowStaysApart(t: Table, o: Order, i: nat, k: nat)
    requires o.WellMapped() && UniqueKeys(t) && AllUnobstructed(t, o)
    requires i < |t| + k && k < |EmailsToCreate(t, o)|
    ensures var p := Proposal(t, o); !Clash(p[i], p[|t| + k]) && !Clash(p[|t| + k], p[i])
  {
    if i < |t| {
      NewcomerIsRequested(t, o, k);
      CreatedMeetsNoRow(t, o, i, EmailsToCreate(t, o)[k]);
    } else {
      CreatedRowsStayApart(t, o, i - |t|, k);
    }
  }

  lemma UnobstructedProposalIsUnique(t: Table, o: Order)
    requires o.WellMapped() && UniqueKeys(t) && AllUnobstructed(t, o)
    ensures UniqueKeys(Proposal(t, o))
  {
    var p := Proposal(t, o);
    forall i: nat, j: nat | i < j < |p|
      ensures !Clash(p[i], p[j]) && !Clash(p[j], p[i])
    {
      ProposedRowsStayApart(t, o, i, j);
    }
  }

  lemma ProposedRowsStayApart(t: Table, o: Order, i: nat, j: nat)
    requires o.WellMapped() && UniqueKeys(t) && AllUnobstructed(t, o) && i < j < |Proposal(t, o)|
    ensures var p := Proposal(t, o); !Clash(p[i], p[j]) && !Clash(p[j], p[i])
  {
    if j < |t| {
      SettledRowsStayApart(t, o, i, j);
      SettledRowsStayApart(t, o, j, i);
    } else {
      CreatedRowStaysApart(t, o, i, j - |t|);
    }
  }

  lemma UnobstructedRowsAreValid(t: Table, o: Order)
    requires o.WellMapped() && UniqueKeys(t) && AllUnobstructed(t, o) && o.quantity <= 0
    ensures AllValid(t, o)
  {
    forall i: nat | i < |t| && Found(t[i], o) && Reallocatable(t[i].state)
      ensures FullClean(t, i, Prepare(t[i], o))
    {
      UnobstructedRowIsValid(t, o, i);
    }
  }

  lemma UnobstructedRowIsValid(t: Table, o: Order, i: nat)
    requires o.WellMapped() && UniqueKeys(t) && AllUnobstructed(t, o) && o.quantity <= 0
    requires i < |t| && Found(t[i], o) && Reallocatable(t[i].state)
    ensures FullClean(t, i, Prepare(t[i], o))
  {
    assert Prepare(t[i], o).quantity == o.quantity;
    forall j: nat | j < |t| && j != i
      ensures !Clash(t[j], Prepare(t[i], o))
    {
      PreparedAgainstStored(t, o, i, j);
    }
  }

  // ---------- calls that go through are unobstructed ----------

  /** An email that is not held apart ends on a row with its user's LMS id. */
  lemma Claimant(t: Table, o: Order, e: string) returns (c: nat)
    requires o.WellMapped() && e in o.emails && Lower(e) in o.ids && !IsHeldApart(t, e, o)
    ensures c < |Proposal(t, o)|
    ensures InScopeUnder(Proposal(t, o)[c], e, o) && Proposal(t, o)[c].lms == Some(o.ids[Lower(e)])
  {
    c := EveryEmailIsHeld(t, o, e);
    if c < |t| {
      SettledKeepsIdentity(t[c], o);
      if Settled(t[c], o).lms != Some(o.ids[Lower(e)]) {
        SettledHolderIsApart(t[c], o, e);
        assert HeldApart(t, c, e, o);
      }
    }
  }

  lemma HeldApartIsNotTaken(t: Table, o: Order, e: string, i: nat)
    requires o.WellMapped() && UniqueKeys(Proposal(t, o))
    requires e in o.emails && IsHeldApart(t, e, o) && i < |t|
    ensures !Takes(t[i], e, o)
  {
    if Takes(t[i], e, o) {
      var h: nat :| HeldApart(t, h, e, o);
      TakersTake(t[i], e, o);
      SettledKeepsIdentity(t[i], o);
      OwnersAreFound(t[h], e, o);
      SettledKeepsIdentity(t[h], o);
      ClashingRowsAreOne(Proposal(t, o), i, h);
    }
  }

  lemma SharersOfSuccessAreApart(t: Table, o: Order, e: string, other: string)
    requires o.WellMapped() && UniqueKeys(Proposal(t, o))
    requires e in o.emails && !IsHeldApart(t, e, o) && other in o.emails && SameUser(e, other, o)
    ensures IsHeldApart(t, other, o)
  {
    if !IsHeldApart(t, other, o) {
      var c := Claimant(t, o, e);
      var d := Claimant(t, o, other);
      ClashingRowsAreOne(Proposal(t, o), c, d);
    }
  }

  lemma StraysOfSuccessTake(t: Table, o: Order, e: string, i: nat, j: nat)
    requires o.WellMapped() && AllValid(t, o) && UniqueKeys(Proposal(t, o))
    requires e in o.emails && !IsHeldApart(t, e, o) && i < |t| && IsStray(t[i], e, o) && j < |t|
    ensures Takes(t[i], e, o) && !InScopeUnder(t[j], e, o)
  {
    var c := Claimant(t, o, e);
    assert Owns(t[i], e, o);
    OwnersAreFound(t[i], e, o);
    SettledIdentity(t[i], o);
    PreparedId(t[i], o);
    ClashingRowsAreOne(Proposal(t, o), c, i);
    assert Lower(Prepare(t[i], o).email) == Lower(e);
    var f := PreparedEmail(t[i], o);
    ValidRowClashesWithItself(t, i, Prepare(t[i], o), j);
  }

  lemma SuccessIsUnobstructed(t: Table, o: Order, e: string)
    requires o.WellMapped() && AllValid(t, o) && UniqueKeys(Proposal(t, o)) && e in o.emails
    ensures Unobstructed(t, e, o)
  {
    if Lower(e) in o.ids && IsHeldApart(t, e, o) {
      forall i: nat | i < |t| {
        HeldApartIsNotTaken(t, o, e, i);
      }
    } else if Lower(e) in o.ids {
      forall other | other in o.emails && SameUser(e, other, o) {
        SharersOfSuccessAreApart(t, o, e, other);
      }
      forall i: nat, j: nat | i < |t| && j < |t| && IsStray(t[i], e, o) {
        StraysOfSuccessTake(t, o, e, i, j);
      }
      assert forall i: nat :: i < |t| && IsStray(t[i], e, o) ==> Takes(t[i], e, o);
    }
  }

  // ---------- the theorem ----------

  /** A call with a non-negative price goes through if and only if nothing is in the way of any requested email. */
  lemma AllocationSucceedsIff(t: Table, o: Order)
    requires o.WellMapped() && UniqueKeys(t) && o.quantity <= 0
    ensures Outcome(t, o).Success? <==> AllUnobstructed(t, o)
  {
    if AllUnobstructed(t, o) {
      UnobstructedProposalIsUnique(t, o);
      UnobstructedRowsAreValid(t, o);
    }
    if Outcome(t, o).Success? {
      forall e | e in o.emails {
        SuccessIsUnobstructed(t, o, e);
      }
    }
  }

  /**
   A row found only by LMS id that is not expired keeps its own email and its id. It makes the call fail
   unless the requested email is held apart; for that email alone, exactly then.
   */
  lemma UnexpiredStrayBlocksUnlessHeldApart(t: Table, o: Order, i: nat, e: string)
    requires o.WellMapped() && UniqueKeys(t)
    requires i < |t| && e in o.emails && IsStray(t[i], e, o) && !t[i].state.Expired?
    ensures !IsHeldApart(t, e, o) ==> Outcome(t, o).Failure?
    ensures o.quantity <= 0 && o.emails == [e] ==> (Outcome(t, o).Failure? <==> !IsHeldApart(t, e, o))
  {
    if o.quantity <= 0 {
      AllocationSucceedsIff(t, o);
      assert !Takes(t[i], e, o);
      if o.emails == [e] {
        forall j: nat | j < |t| {
          NoneTakesBesideTheStray(t, o, i, j, e);
        }
        assert Unobstructed(t, e, o) <==> IsHeldApart(t, e, o);
      }
    }
  }

  lemma NoneTakesBesideTheStray(t: Table, o: Order, i: nat, j: nat, e: string)
    requires o.WellMapped() && UniqueKeys(t) && o.emails == [e]
    requires i < |t| && j < |t| && IsStray(t[i], e, o) && !t[i].state.Expired?
    ensures !Takes(t[j], e, o)
  {
    if Takes(t[j], e, o) {
      TakersTake(t[j], e, o);
    }
  }

  /** Admissible emails are unobstructed, but not the other way round: a call may go through and leave two rows. */
  lemma AdmissibleIsUnobstructed(t: Table, o: Order)
    requires o.WellMapped() && UniqueKeys(t) && o.quantity <= 0
    ensures AllAdmissible(t, o) ==> AllUnobstructed(t, o)
    ensures AllUnobstructed(t, o) ==> (AllAdmissible(t, o) <==> OneRowEach(Proposal(t, o), o))
  {
    AllocationLeavesOneRowEach(t, o);
    AllocationSucceedsIff(t, o);
  }
}
