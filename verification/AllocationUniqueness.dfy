/** When one allocation call keeps both keys unique and leaves each learner exactly one row. */
module AllocationUniqueness {
  import opened Wrappers
  import opened Emails
  import opened Assignments
  import opened Allocation

  /**
   What a caller can check before the call: the learner owns at most one row, a row that carries
   the learner's LMS id but another email is expired, and an email that shares its LMS user with
   another requested email is already held by a row of someone else's.
   */
  ghost predicate Admissible(t: Table, email: string, o: Order) {
    && (forall i, j :: 0 <= i < |t| && 0 <= j < |t| && Owns(t[i], email, o) && Owns(t[j], email, o) ==> i == j)
    && (forall i :: 0 <= i < |t| && Owns(t[i], email, o) && Lower(t[i].email) != Lower(email) ==> t[i].state.Expired?)
    && (!o.Alone(email) ==> exists i :: HeldApart(t, i, email, o))
  }

  /** The row holds the email under a different LMS id and will keep it. */
  ghost predicate HeldApart(t: Table, i: int, email: string, o: Order) {
    && 0 <= i < |t| && InScope(t[i], o) && Lower(t[i].email) == Lower(email)
    && t[i].lms.Some? && Lower(email) in o.ids && t[i].lms.value != o.ids[Lower(email)]
    && !(t[i].state.Expired? && t[i].lms.value in o.names)
  }

  ghost predicate AllAdmissible(t: Table, o: Order) {
    forall e :: e in o.emails ==> Admissible(t, e, o)
  }

  /** A row without an LMS id whose email is requested belongs to one requested learner. */
  ghost predicate OneOwner(row: Assignment, o: Order) {
    row.lms.None? && Lower(row.email) in o.ids ==> o.Alone(row.email)
  }

  lemma AdmissibleRowsHaveOneOwner(t: Table, o: Order, i: nat)
    requires o.WellMapped() && AllAdmissible(t, o) && i < |t| && InScope(t[i], o)
    ensures OneOwner(t[i], o)
  {
    if t[i].lms.None? && Lower(t[i].email) in o.ids {
      var e := SpellingHasEmail(Lower(t[i].email), o.emails);
      UnlinkedOwnersAreAlone(t, o, i, e);
    }
  }

  /** A learner who owns a row without an LMS id shares it with nobody. */
  lemma UnlinkedOwnersAreAlone(t: Table, o: Order, i: nat, e: string)
    requires Admissible(t, e, o) && i < |t| && Owns(t[i], e, o) && t[i].lms.None?
    ensures o.Alone(e)
  {
    if !o.Alone(e) {
      var k :| HeldApart(t, k, e, o);
      assert Owns(t[k], e, o);
    }
  }

  lemma HeldApartStaysHeld(t: Table, o: Order, k: nat, e: string)
    requires HeldApart(t, k, e, o) && e in o.emails
    ensures Lower(e) in HeldEmails(t, o)
  {
    assert Owns(t[k], e, o);
    OwnersAreFound(t[k], e, o);
    assert Lower(Prepare(t[k], o).email) == Lower(e);
  }

  /** A row is only created for an email that shares its LMS user with no other. */
  lemma CreatedAreAlone(t: Table, o: Order, e: string)
    requires Admissible(t, e, o) && Lower(e) !in HeldEmails(t, o) && e in o.emails
    ensures o.Alone(e)
  {
    if !o.Alone(e) {
      var k :| HeldApart(t, k, e, o);
      HeldApartStaysHeld(t, o, k, e);
    }
  }

  ghost predicate OwnsExactlyOne(t: Table, email: string, o: Order) {
    exists i :: OwnsOnly(t, i, email, o)
  }

  ghost predicate OwnsOnly(t: Table, i: int, email: string, o: Order) {
    && 0 <= i < |t|
    && Owns(t[i], email, o)
    && forall j :: 0 <= j < |t| && Owns(t[j], email, o) ==> j == i
  }

  // ---------- one row ----------

  /** A row and a later version of it that no new learner may claim. */
  ghost predicate Version(row: Assignment, later: Assignment, o: Order) {
    && row.config == later.config && row.content == later.content
    && (forall e :: e in o.emails && Owns(later, e, o) ==> Owns(row, e, o))
    && (Lower(later.email) == Lower(row.email) || Lower(later.email) in Spellings(o.emails))
    && (later.lms == row.lms || (later.lms.Some? && later.lms.value in o.ids.Values))
  }

  lemma SpellingHasEmail(spelling: string, emails: seq<string>) returns (e: string)
    requires spelling in Spellings(emails)
    ensures e in emails && Lower(e) == spelling
  {
    e :| e in emails && Lower(e) == spelling;
  }

  lemma IdHasEmail(id: LmsUserId, o: Order) returns (e: string)
    requires o.WellMapped() && id in o.ids.Values
    ensures e in o.emails && Lower(e) in o.ids && o.ids[Lower(e)] == id
  {
    var s :| s in o.ids && o.ids[s] == id;
    e := SpellingHasEmail(s, o.emails);
  }

  lemma OwnersAreFound(row: Assignment, email: string, o: Order)
    requires email in o.emails && Owns(row, email, o)
    ensures Found(row, o)
  {
  }

  lemma RestoredEmailIsTheOwners(row: Assignment, o: Order)
    requires o.WellMapped() && OneOwner(row, o) && InScope(row, o)
    ensures Version(row, Prepare(row, o), o)
  {
    var later := Prepare(row, o);
    assert o.ids.Keys <= Spellings(o.emails);
    forall e | e in o.emails && Owns(later, e, o)
      ensures Owns(row, e, o)
    {
    }
  }

  lemma SettledKeepsIdentity(row: Assignment, o: Order)
    ensures Settled(row, o).config == row.config && Settled(row, o).content == row.content
    ensures Found(row, o) ==> Settled(row, o).email == Prepare(row, o).email
    ensures Found(row, o) ==> Settled(row, o).lms == Prepare(row, o).lms
    ensures !Found(row, o) ==> Settled(row, o) == row
  {
  }

  lemma SettledIsVersion(row: Assignment, o: Order)
    requires o.WellMapped() && (InScope(row, o) ==> OneOwner(row, o))
    ensures Version(row, Settled(row, o), o)
  {
    SettledKeepsIdentity(row, o);
    if Found(row, o) {
      RestoredEmailIsTheOwners(row, o);
      var p := Prepare(row, o);
      forall e | e in o.emails && Owns(Settled(row, o), e, o)
        ensures Owns(row, e, o)
      {
        assert Owns(p, e, o);
      }
    }
  }

  /** An owner found through the LMS id alone gets its email back iff it is expired. */
  lemma LmsOnlyOwner(row: Assignment, email: string, o: Order)
    requires o.WellMapped()
    requires email in o.emails && Owns(row, email, o) && Lower(row.email) != Lower(email)
    ensures row.state.Expired? && o.Alone(email) ==> Lower(Prepare(row, o).email) == Lower(email)
    ensures !row.state.Expired? ==> Prepare(row, o).email == row.email
    ensures Prepare(row, o).lms == row.lms == Some(o.ids[Lower(email)])
  {
    var k := o.ids[Lower(email)];
    assert k in o.names && o.ids[Lower(o.names[k])] == k;
  }

  // ---------- pairs of rows ----------

  lemma VersionsDoNotClash(t: Table, o: Order, i: nat, j: nat, x: Assignment, y: Assignment)
    requires o.WellMapped() && UniqueKeys(t) && AllAdmissible(t, o)
    requires i < |t| && j < |t| && i != j
    requires Version(t[i], x, o) && Version(t[j], y, o)
    requires InScope(t[i], o)
    ensures !Clash(x, y)
  {
    if Clash(x, y) {
      assert !Clash(t[i], t[j]);
      if Lower(x.email) == Lower(y.email) {
        if Lower(x.email) in Spellings(o.emails) {
          var e := SpellingHasEmail(Lower(x.email), o.emails);
          SharedOwner(t, o, i, j, x, y, e);
        }
      } else if x.lms.value in o.ids.Values {
        var e := IdHasEmail(x.lms.value, o);
        SharedOwner(t, o, i, j, x, y, e);
      }
    }
  }

  lemma SharedOwner(t: Table, o: Order, i: nat, j: nat, x: Assignment, y: Assignment, e: string)
    requires e in o.emails && Admissible(t, e, o)
    requires i < |t| && j < |t|
    requires Version(t[i], x, o) && Version(t[j], y, o)
    requires Owns(x, e, o) && Owns(y, e, o)
    ensures i == j
  {
    assert Owns(t[i], e, o) && Owns(t[j], e, o);
  }

  /** A learner for whom a row is created owns no settled row. */
  lemma CreatedLearnerOwnsNothing(t: Table, o: Order, i: nat, e: string)
    requires o.WellMapped() && AllAdmissible(t, o)
    requires i < |t| && e in o.emails && Lower(e) !in HeldEmails(t, o)
    ensures !Owns(Settled(t[i], o), e, o)
  {
    if Owns(Settled(t[i], o), e, o) {
      CreatedAreAlone(t, o, e);
      AdmissibleRowsHaveOneOwner(t, o, i);
      SettledOwnersHoldTheEmail(t[i], o, e);
    }
  }

  /** A settled row that answers to a learner who shares with nobody was found under that learner's email. */
  lemma SettledOwnersHoldTheEmail(row: Assignment, o: Order, e: string)
    requires o.WellMapped() && InScope(row, o) && OneOwner(row, o) && e in o.emails && o.Alone(e)
    requires Owns(row, e, o) && Lower(row.email) != Lower(e) ==> row.state.Expired?
    requires Owns(Settled(row, o), e, o)
    ensures Found(row, o) && Lower(Prepare(row, o).email) == Lower(e)
  {
    SettledIsVersion(row, o);
    SettledKeepsIdentity(row, o);
    OwnersAreFound(row, e, o);
    if Lower(row.email) != Lower(e) {
      LmsOnlyOwner(row, e, o);
    }
  }

  // ---------- the emails that get new rows ----------

  lemma {:induction false} EmailsOutsideAreRequested(emails: seq<string>, held: set<string>)
    ensures forall e :: e in EmailsOutside(emails, held) <==> e in emails && Lower(e) !in held
  {
    if emails != [] {
      var rest := emails[..|emails| - 1];
      EmailsOutsideAreRequested(rest, held);
      assert emails == rest + [emails[|emails| - 1]];
    }
  }

  lemma {:induction false} EmailsOutsideAreDistinct(emails: seq<string>, held: set<string>)
    requires OncePerMailbox(emails)
    ensures OncePerMailbox(EmailsOutside(emails, held))
  {
    if emails != [] {
      var rest, last := emails[..|emails| - 1], emails[|emails| - 1];
      EmailsOutsideAreDistinct(rest, held);
      EmailsOutsideAreRequested(rest, held);
      assert forall i :: 0 <= i < |EmailsOutside(rest, held)| ==> EmailsOutside(rest, held)[i] in rest;
    }
  }

  /** After a proposal every requested email is held by some row. */
  lemma EveryEmailIsHeld(t: Table, o: Order, e: string) returns (i: nat)
    requires e in o.emails
    ensures i < |Proposal(t, o)|
    ensures InScope(Proposal(t, o)[i], o) && Lower(Proposal(t, o)[i].email) == Lower(e)
  {
    if Lower(e) in HeldEmails(t, o) {
      i :| i < |t| && Found(t[i], o) && Lower(Prepare(t[i], o).email) == Lower(e);
      SettledKeepsIdentity(t[i], o);
    } else {
      var newcomers := EmailsToCreate(t, o);
      EmailsOutsideAreRequested(o.emails, HeldEmails(t, o));
      var k: nat :| k < |newcomers| && newcomers[k] == e;
      i := |t| + k;
    }
  }

  // ---------- the theorem ----------

  lemma NewRowOwner(e: string, other: string, o: Order)
    requires o.WellMapped() && o.Alone(e)
    requires e in o.emails && other in o.emails && Owns(NewRow(e, o), other, o)
    ensures e == other
  {
    MailboxNamesOneEntry(o.emails, e, other);
  }

  lemma AdmissibleProposalIsUnique(t: Table, o: Order)
    requires o.WellMapped() && UniqueKeys(t) && AllAdmissible(t, o)
    ensures UniqueKeys(Proposal(t, o))
  {
    var p := Proposal(t, o);
    forall i: nat, j: nat | i < j < |p|
      ensures !Clash(p[i], p[j]) && !Clash(p[j], p[i])
    {
      if j < |t| {
        SettledPairIsClean(t, o, i, j);
        SettledPairIsClean(t, o, j, i);
      } else {
        CreatedRowIsClean(t, o, i, j - |t|);
      }
    }
  }

  /** The k-th created row clashes with no row before it. */
  lemma CreatedRowIsClean(t: Table, o: Order, i: nat, k: nat)
    requires o.WellMapped() && AllAdmissible(t, o)
    requires i < |t| + k && k < |EmailsToCreate(t, o)|
    ensures var p := Proposal(t, o); !Clash(p[i], p[|t| + k]) && !Clash(p[|t| + k], p[i])
  {
    NewcomerIsRequested(t, o, k);
    if i < |t| {
      CreatedAndSettled(t, o, i, EmailsToCreate(t, o)[k]);
    } else {
      CreatedRowsAreClean(t, o, i - |t|, k);
    }
  }

  lemma CreatedRowsAreClean(t: Table, o: Order, j: nat, k: nat)
    requires o.WellMapped() && AllAdmissible(t, o) && j < k < |EmailsToCreate(t, o)|
    ensures var p := Proposal(t, o); !Clash(p[|t| + j], p[|t| + k]) && !Clash(p[|t| + k], p[|t| + j])
  {
    var a, b := EmailsToCreate(t, o)[j], EmailsToCreate(t, o)[k];
    NewcomerIsRequested(t, o, j);
    NewcomerIsRequested(t, o, k);
    CreatedAreAlone(t, o, a);
    NewcomersDiffer(t, o, j, k);
    CreatedPairIsClean(o, a, b);
  }

  lemma NewcomersDiffer(t: Table, o: Order, j: nat, k: nat)
    requires o.WellMapped() && j < k < |EmailsToCreate(t, o)|
    ensures Lower(EmailsToCreate(t, o)[j]) != Lower(EmailsToCreate(t, o)[k])
  {
    EmailsOutsideAreDistinct(o.emails, HeldEmails(t, o));
  }

  lemma NewcomerIsRequested(t: Table, o: Order, k: nat)
    requires k < |EmailsToCreate(t, o)|
    ensures var e := EmailsToCreate(t, o)[k];
      e in o.emails && Lower(e) !in HeldEmails(t, o) && Proposal(t, o)[|t| + k] == NewRow(e, o)
  {
    EmailsOutsideAreRequested(o.emails, HeldEmails(t, o));
    assert EmailsToCreate(t, o)[k] in EmailsToCreate(t, o);
  }

  lemma CreatedPairIsClean(o: Order, a: string, b: string)
    requires o.WellMapped() && o.Alone(a)
    requires a in o.emails && b in o.emails && Lower(a) != Lower(b)
    ensures !Clash(NewRow(a, o), NewRow(b, o)) && !Clash(NewRow(b, o), NewRow(a, o))
  {
  }

  lemma SettledPairIsClean(t: Table, o: Order, i: nat, j: nat)
    requires o.WellMapped() && UniqueKeys(t) && AllAdmissible(t, o)
    requires i < |t| && j < |t| && i != j
    ensures !Clash(Settled(t[i], o), Settled(t[j], o))
  {
    SettledKeepsIdentity(t[i], o);
    SettledKeepsIdentity(t[j], o);
    if InScope(t[i], o) && InScope(t[j], o) {
      AdmissibleRowsHaveOneOwner(t, o, i);
      AdmissibleRowsHaveOneOwner(t, o, j);
      SettledIsVersion(t[i], o);
      SettledIsVersion(t[j], o);
      VersionsDoNotClash(t, o, i, j, Settled(t[i], o), Settled(t[j], o));
    } else {
      assert !Clash(t[i], t[j]);
    }
  }

  lemma CreatedAndSettled(t: Table, o: Order, i: nat, e: string)
    requires o.WellMapped() && AllAdmissible(t, o)
    requires i < |t| && e in o.emails && Lower(e) !in HeldEmails(t, o)
    ensures !Clash(Settled(t[i], o), NewRow(e, o)) && !Clash(NewRow(e, o), Settled(t[i], o))
  {
    CreatedLearnerOwnsNothing(t, o, i, e);
    NewRowMeetsOwners(Settled(t[i], o), o, e);
  }

  /** A row that clashes with a learner's new row answers to that learner. */
  lemma NewRowMeetsOwners(row: Assignment, o: Order, e: string)
    ensures Clash(row, NewRow(e, o)) ==> Owns(row, e, o)
    ensures Clash(NewRow(e, o), row) ==> Owns(row, e, o)
  {
  }

  lemma AdmissibleRowsAreValid(t: Table, o: Order)
    requires o.WellMapped() && UniqueKeys(t) && o.quantity <= 0 && AllAdmissible(t, o)
    ensures AllValid(t, o)
  {
    forall i: nat | i < |t| && Found(t[i], o) && Reallocatable(t[i].state)
      ensures FullClean(t, i, Prepare(t[i], o))
    {
      PreparedRowIsValid(t, o, i);
    }
  }

  lemma PreparedRowIsValid(t: Table, o: Order, i: nat)
    requires o.WellMapped() && UniqueKeys(t) && o.quantity <= 0 && AllAdmissible(t, o)
    requires i < |t| && Found(t[i], o) && Reallocatable(t[i].state)
    ensures FullClean(t, i, Prepare(t[i], o))
  {
    var row := Prepare(t[i], o);
    assert row.quantity == o.quantity;
    forall j: nat | j < |t| && j != i
      ensures !Clash(t[j], row)
    {
      PreparedRowIsClean(t, o, i, j);
    }
  }

  lemma PreparedRowIsClean(t: Table, o: Order, i: nat, j: nat)
    requires o.WellMapped() && UniqueKeys(t) && AllAdmissible(t, o)
    requires i < |t| && j < |t| && j != i && InScope(t[i], o)
    ensures !Clash(t[j], Prepare(t[i], o))
  {
    AdmissibleRowsHaveOneOwner(t, o, i);
    RestoredEmailIsTheOwners(t[i], o);
    assert Version(t[j], t[j], o);
    VersionsDoNotClash(t, o, i, j, Prepare(t[i], o), t[j]);
  }

  lemma AdmissibleLearnersEndWithOneRow(t: Table, o: Order, e: string)
    requires o.WellMapped() && UniqueKeys(t) && AllAdmissible(t, o) && e in o.emails
    ensures OwnsExactlyOne(Proposal(t, o), e, o)
  {
    var p, newcomers := Proposal(t, o), EmailsToCreate(t, o);
    EmailsOutsideAreRequested(o.emails, HeldEmails(t, o));
    EmailsOutsideAreDistinct(o.emails, HeldEmails(t, o));
    var i := EveryEmailIsHeld(t, o, e);
    assert Owns(p[i], e, o);
    forall j | 0 <= j < |p| && Owns(p[j], e, o)
      ensures j == i
    {
      OwnersInTheTable(t, o, e, i);
      OwnersInTheTable(t, o, e, j);
      if i >= |t| && j >= |t| {
        assert newcomers[i - |t|] == newcomers[j - |t|];
      }
    }
    assert OwnsOnly(p, i, e, o);
  }

  /** An owner in the proposal is an old owner, or the row created for a learner who had none. */
  lemma OwnersInTheTable(t: Table, o: Order, e: string, i: nat)
    requires o.WellMapped() && AllAdmissible(t, o) && e in o.emails
    requires i < |Proposal(t, o)| && Owns(Proposal(t, o)[i], e, o)
    ensures i < |t| ==> Owns(t[i], e, o) && e !in EmailsToCreate(t, o)
    ensures |t| <= i ==> EmailsToCreate(t, o)[i - |t|] == e
  {
    EmailsOutsideAreRequested(o.emails, HeldEmails(t, o));
    if i < |t| {
      SettledKeepsIdentity(t[i], o);
      AdmissibleRowsHaveOneOwner(t, o, i);
      SettledIsVersion(t[i], o);
      if e in EmailsToCreate(t, o) {
        CreatedLearnerOwnsNothing(t, o, i, e);
      }
    } else {
      var other := EmailsToCreate(t, o)[i - |t|];
      assert other in EmailsToCreate(t, o);
      CreatedAreAlone(t, o, other);
      NewRowOwner(other, e, o);
    }
  }

  /** When two requested emails of one LMS user both end with exactly one row, no row carries that user's id. */
  lemma SharersEndApart(t: Table, o: Order, e: string, other: string, i: nat)
    requires o.WellMapped() && e in o.emails && other in o.emails && Lower(other) != Lower(e)
    requires Lower(e) in o.ids && Lower(other) in o.ids && o.ids[Lower(e)] == o.ids[Lower(other)]
    requires OwnsExactlyOne(Proposal(t, o), e, o) && OwnsExactlyOne(Proposal(t, o), other, o)
    requires i < |Proposal(t, o)| && InScope(Proposal(t, o)[i], o)
    ensures Proposal(t, o)[i].lms != Some(o.ids[Lower(e)])
  {
    var p := Proposal(t, o);
    var h := EveryEmailIsHeld(t, o, e);
    var k := EveryEmailIsHeld(t, o, other);
    assert Owns(p[h], e, o) && Owns(p[k], other, o);
    if p[i].lms == Some(o.ids[Lower(e)]) {
      OnlyRow(p, e, o, h, i);
      OnlyRow(p, other, o, k, i);
      assert false;
    }
  }

  lemma OnlyRow(t: Table, e: string, o: Order, i: nat, j: nat)
    requires OwnsExactlyOne(t, e, o) && i < |t| && j < |t| && Owns(t[i], e, o) && Owns(t[j], e, o)
    ensures i == j
  {
    var only :| OwnsOnly(t, only, e, o);
  }

  ghost predicate OneRowEach(t: Table, o: Order) {
    forall e :: e in o.emails ==> OwnsExactlyOne(t, e, o)
  }

  /** No row in scope carries this LMS id. */
  ghost predicate NoRowWithId(t: Table, o: Order, id: LmsUserId) {
    forall j :: 0 <= j < |t| && InScope(t[j], o) ==> t[j].lms != Some(id)
  }

  lemma SharedIdsAreUnused(t: Table, o: Order, e: string)
    requires o.WellMapped() && e in o.emails && !o.Alone(e) && OneRowEach(Proposal(t, o), o)
    ensures Lower(e) in o.ids && NoRowWithId(Proposal(t, o), o, o.ids[Lower(e)])
  {
    var s :| s in o.ids && o.ids[s] == o.ids[Lower(e)] && s != Lower(e);
    var other := SpellingHasEmail(s, o.emails);
    forall j | 0 <= j < |Proposal(t, o)| && InScope(Proposal(t, o)[j], o)
      ensures Proposal(t, o)[j].lms != Some(o.ids[Lower(e)])
    {
      SharersEndApart(t, o, e, other, j);
    }
  }

  /** Such an email is held by a row with another LMS id that keeps it. */
  lemma SharersAreHeldApart(t: Table, o: Order, e: string) returns (i: nat)
    requires o.WellMapped() && e in o.emails && Lower(e) in o.ids
    requires NoRowWithId(Proposal(t, o), o, o.ids[Lower(e)])
    ensures HeldApart(t, i, e, o)
  {
    i := EveryEmailIsHeld(t, o, e);
    if i < |t| {
      SettledKeepsIdentity(t[i], o);
      SettledHolderIsApart(t[i], o, e);
    }
  }

  lemma SettledHolderIsApart(row: Assignment, o: Order, e: string)
    requires o.WellMapped() && e in o.emails && Lower(e) in o.ids && InScope(row, o)
    requires Lower(Settled(row, o).email) == Lower(e) && Settled(row, o).lms != Some(o.ids[Lower(e)])
    ensures HeldApart([row], 0, e, o)
  {
    SettledKeepsIdentity(row, o);
    if Lower(row.email) == Lower(e) {
      OwnersAreFound(row, e, o);
    }
  }

  /** A row found through the LMS id alone is the learner's only row, and expired, if one row each is left. */
  lemma LmsOnlyOwnerOfOneRow(t: Table, o: Order, e: string, i: nat, j: nat)
    requires o.WellMapped() && UniqueKeys(t) && e in o.emails && AllValid(t, o) && OneRowEach(Proposal(t, o), o)
    requires i < |t| && Owns(t[i], e, o) && Lower(t[i].email) != Lower(e)
    requires j < |t| && Owns(t[j], e, o)
    ensures t[i].state.Expired? && j == i
  {
    var p := Proposal(t, o);
    var holder := EveryEmailIsHeld(t, o, e);
    assert Owns(p[holder], e, o);
    OwnersAreFound(t[i], e, o);
    LmsOnlyOwner(t[i], e, o);
    SettledKeepsIdentity(t[i], o);
    assert Owns(p[i], e, o);
    OnlyRow(p, e, o, i, holder);
    ClashingRowsAreOne(t, j, i);
    ValidRowClashesWithItself(t, i, Prepare(t[i], o), j);
  }

  lemma OneRowEachMeansAdmissible(t: Table, o: Order, e: string)
    requires o.WellMapped() && UniqueKeys(t) && e in o.emails && AllValid(t, o) && OneRowEach(Proposal(t, o), o)
    ensures Admissible(t, e, o)
  {
    forall i: nat | i < |t| && Owns(t[i], e, o) && Lower(t[i].email) != Lower(e)
      ensures t[i].state.Expired?
    {
      LmsOnlyOwnerOfOneRow(t, o, e, i, i);
    }
    forall i: nat, j: nat | i < |t| && j < |t| && Owns(t[i], e, o) && Owns(t[j], e, o)
      ensures i == j
    {
      OwnersCoincide(t, o, e, i, j);
    }
    if !o.Alone(e) {
      SharedIdsAreUnused(t, o, e);
      var apart := SharersAreHeldApart(t, o, e);
    }
  }

  lemma OwnersCoincide(t: Table, o: Order, e: string, i: nat, j: nat)
    requires o.WellMapped() && UniqueKeys(t) && e in o.emails && AllValid(t, o) && OneRowEach(Proposal(t, o), o)
    requires i < |t| && j < |t| && Owns(t[i], e, o) && Owns(t[j], e, o)
    ensures i == j
  {
    if Lower(t[i].email) != Lower(e) {
      LmsOnlyOwnerOfOneRow(t, o, e, i, j);
    } else if Lower(t[j].email) != Lower(e) {
      LmsOnlyOwnerOfOneRow(t, o, e, j, i);
    } else {
      ClashingRowsAreOne(t, i, j);
    }
  }

  /**
   Both keys stay unique and every requested learner owns exactly one row
   if and only if every requested learner was admissible before the call.
   */
  lemma AllocationLeavesOneRowEach(t: Table, o: Order)
    requires o.WellMapped() && UniqueKeys(t) && o.quantity <= 0
    ensures AllAdmissible(t, o)
       <==> Outcome(t, o).Success? && OneRowEach(Outcome(t, o).value, o)
    ensures Outcome(t, o).Success? ==> UniqueKeys(Outcome(t, o).value)
  {
    if AllAdmissible(t, o) {
      AdmissibleProposalIsUnique(t, o);
      AdmissibleRowsAreValid(t, o);
      forall e | e in o.emails {
        AdmissibleLearnersEndWithOneRow(t, o, e);
      }
    }
    if Outcome(t, o).Success? && OneRowEach(Outcome(t, o).value, o) {
      forall e | e in o.emails {
        OneRowEachMeansAdmissible(t, o, e);
      }
    }
  }
}
