/**
 What one call of allocate_assignments does, said in terms of the call's own arguments: which rows it
 finds, what it writes into them, which rows it creates, what it reports and what it costs.
 */
module AllocationCalls {
  import opened Wrappers
  import opened Emails
  import opened Assignments
  import opened Allocation
  import opened AllocationOrders
  import opened AllocationUniqueness
  import opened AllocationSuccess
  import opened AllocationEffects

  // ---------- the kept emails ----------

  ghost predicate IsFirstSpelling(emails: seq<string>, i: nat)
    requires i < |emails|
  {
    forall j :: 0 <= j < i ==> Lower(emails[j]) != Lower(emails[i])
  }

  /** Every mailbox is kept in its first spelling, in the order in which the mailboxes first appear. */
  lemma {:induction false} FirstSpellingsInOrder(emails: seq<string>, i: nat)
    requires i < |emails| && IsFirstSpelling(emails, i)
    ensures var place := |Spellings(emails[..i])|;
      place < |FirstSpellings(emails)| == |Spellings(emails)| && FirstSpellings(emails)[place] == emails[i]
  {
    var n := |emails| - 1;
    KeptPerSpelling(emails);
    KeptPerSpelling(emails[..n]);
    if i < n {
      assert emails[..n][..i] == emails[..i];
      FirstSpellingsInOrder(emails[..n], i);
    }
  }

  lemma {:induction false} KeptPerSpelling(emails: seq<string>)
    ensures |FirstSpellings(emails)| == |Spellings(emails)|
  {
    if emails == [] {
      assert Spellings(emails) == {};
    } else {
      var n := |emails| - 1;
      KeptPerSpelling(emails[..n]);
      SpellingsStep(emails, n);
      assert emails[..n + 1] == emails;
      assert Lower(emails[n]) !in Spellings(emails[..n]) ==>
        |Spellings(emails[..n]) + {Lower(emails[n])}| == |Spellings(emails[..n])| + 1;
      assert Lower(emails[n]) in Spellings(emails[..n]) ==>
        Spellings(emails[..n]) + {Lower(emails[n])} == Spellings(emails[..n]);
    }
  }

  // ---------- the known ids ----------

  predicate Requested(emails: seq<string>, spelling: string) {
    exists e :: e in emails && Lower(e) == spelling
  }

  /** The last record of a mailbox that has an LMS id. */
  ghost predicate IsLastRecord(users: seq<User>, i: int, spelling: string) {
    && 0 <= i < |users| && Lower(users[i].email) == spelling && users[i].lms.Some?
    && forall j :: i < j < |users| && Lower(users[j].email) == spelling ==> users[j].lms.None?
  }

  /** The call knows this id for a requested mailbox: from its own list if it has one, else from the user table. */
  ghost predicate KnowsId(c: Call, spelling: string, id: LmsUserId) {
    if c.known != [] then
      var kept := FirstSpellings(c.emails);
      exists i :: 0 <= i < |kept| && i < |c.known| && Lower(kept[i]) == spelling && c.known[i] == id
    else
      && Requested(c.emails, spelling)
      && exists i :: IsLastRecord(c.users, i, spelling) && c.users[i].lms == Some(id)
  }

  lemma {:induction false} LastUserIdIsLast(users: seq<User>, spelling: string)
    ensures match LastUserId(users, spelling)
      case None => forall u :: u in users && Lower(u.email) == spelling ==> u.lms.None?
      case Some(id) => exists i :: IsLastRecord(users, i, spelling) && users[i].lms == Some(id)
  {
    if users != [] {
      var n := |users| - 1;
      LastUserIdIsLast(users[..n], spelling);
      assert users == users[..n] + [users[n]];
      if Lower(users[n].email) == spelling && users[n].lms.Some? {
        assert IsLastRecord(users, n, spelling);
      } else if LastUserId(users[..n], spelling).Some? {
        var i :| IsLastRecord(users[..n], i, spelling) && users[..n][i].lms == LastUserId(users[..n], spelling);
        assert IsLastRecord(users, i, spelling);
      }
    }
  }

  /** The id map of the prepared order holds exactly the known ids. */
  lemma IdsAreTheKnown(c: Call, spelling: string, id: LmsUserId)
    ensures KnowsId(c, spelling, id) <==> spelling in OrderOf(c).ids && OrderOf(c).ids[spelling] == id
  {
    var kept := FirstSpellings(c.emails);
    FirstSpellingsAreTheMailboxes(c.emails);
    if c.known != [] {
      ZippedIdsByPosition(kept, c.known);
      if spelling in OrderOf(c).ids {
        var i := PositionOfSpelling(kept, spelling);
        assert i < Shorter(kept, c.known);
      }
    } else {
      LastUserIdIsLast(c.users, spelling);
    }
  }

  /** The last kept email for which the call knows this id. */
  ghost predicate IsLastNamed(c: Call, i: int, id: LmsUserId) {
    var kept := FirstSpellings(c.emails);
    && 0 <= i < |kept| && KnowsId(c, Lower(kept[i]), id)
    && forall j :: i < j < |kept| ==> !KnowsId(c, Lower(kept[j]), id)
  }

  lemma {:induction false} NamesAreLast(emails: seq<string>, ids: map<string, LmsUserId>, id: LmsUserId)
    requires id in NamesById(emails, ids)
    ensures exists i :: 0 <= i < |emails| && IsLastWithId(emails, ids, i, id) && NamesById(emails, ids)[id] == emails[i]
  {
    var n := |emails| - 1;
    if HasId(emails[n], ids, id) {
      assert IsLastWithId(emails, ids, n, id);
    } else {
      NamesAreLast(emails[..n], ids, id);
      var i :| 0 <= i < n && IsLastWithId(emails[..n], ids, i, id) && NamesById(emails[..n], ids)[id] == emails[..n][i];
      assert IsLastWithId(emails, ids, i, id);
    }
  }

  predicate HasId(email: string, ids: map<string, LmsUserId>, id: LmsUserId) {
    Lower(email) in ids && ids[Lower(email)] == id
  }

  ghost predicate IsLastWithId(emails: seq<string>, ids: map<string, LmsUserId>, i: int, id: LmsUserId) {
    0 <= i < |emails| && HasId(emails[i], ids, id) && forall j :: i < j < |emails| ==> !HasId(emails[j], ids, id)
  }

  // ---------- the rows a call finds ----------

  /** The row is for the content and belongs to a requested mailbox or to its LMS user, or no mailbox was requested. */
  ghost predicate Answers(row: Assignment, c: Call) {
    && row.config == c.config && row.content == c.content
    && (c.emails == []
        || Requested(c.emails, Lower(row.email))
        || (row.lms.Some? && exists e :: e in c.emails && KnowsId(c, Lower(e), row.lms.value)))
  }

  lemma RequestedSpelling(c: Call, spelling: string)
    ensures Requested(OrderOf(c).emails, spelling) <==> Requested(c.emails, spelling)
  {
    FirstSpellingsAreTheMailboxes(c.emails);
    assert spelling in Spellings(OrderOf(c).emails) <==> spelling in Spellings(c.emails);
  }

  lemma NothingRequestedNothingKept(c: Call)
    ensures OrderOf(c).emails == [] <==> c.emails == []
  {
    if c.emails != [] {
      RequestedSpelling(c, Lower(c.emails[0]));
      assert Requested(c.emails, Lower(c.emails[0]));
    }
  }

  lemma KnownToTheOrder(c: Call, id: LmsUserId)
    ensures id in OrderOf(c).ids.Values <==> exists e :: e in c.emails && KnowsId(c, Lower(e), id)
  {
    var o := OrderOf(c);
    OrdersAreWellMapped(c);
    if id in o.ids.Values {
      var s :| s in o.ids && o.ids[s] == id;
      IdsAreTheKnown(c, s, id);
      assert s in Spellings(c.emails);
    }
    if e :| e in c.emails && KnowsId(c, Lower(e), id) {
      IdsAreTheKnown(c, Lower(e), id);
    }
  }

  lemma FoundIffAnswers(row: Assignment, c: Call)
    ensures Found(row, OrderOf(c)) <==> Answers(row, c)
  {
    RequestedSpelling(c, Lower(row.email));
    NothingRequestedNothingKept(c);
    if row.lms.Some? {
      KnownToTheOrder(c, row.lms.value);
    }
    assert EmailFilter(row.email, OrderOf(c).emails)
      <==> OrderOf(c).emails == [] || Requested(OrderOf(c).emails, Lower(row.email));
  }

  // ---------- what it writes into them ----------

  /** Cancelled, errored, expired and reversed rows are brought back. */
  predicate CanReturn(state: AssignmentState) {
    state == AssignmentState.Cancelled || state == Errored || state == AssignmentState.Expired || state == Reversed
  }

  /** Stored at the call's price, under its batch, with its course run and parent and no date but the allocation's. */
  predicate IsAllocatedBy(row: Assignment, c: Call) {
    && row.config == c.config && row.content == c.content
    && row.state == Allocated && row.quantity == -c.price && row.batch == c.batch && row.allocatedAt == c.now
    && row.preferredRun == c.preferredRun && row.parentKey == c.parentKey
    && (row.isRun <==> c.parentKey.Some? && c.parentKey.value != "")
    && row.cancelledAt.None? && row.expiredAt.None? && row.erroredAt.None?
  }

  /** The stored LMS id is kept; a missing one becomes the id known for the row's own mailbox, if any. */
  ghost predicate IsLinkedBy(before: Assignment, after: Assignment, c: Call) {
    if before.lms.Some? then after.lms == before.lms
    else forall id: LmsUserId :: after.lms == Some(id) <==> KnowsId(c, Lower(before.email), id)
  }

  /** An expired row whose LMS user was requested takes that user's last kept email; any other row keeps its email. */
  ghost predicate IsNamedBy(before: Assignment, after: Assignment, c: Call) {
    if before.state == AssignmentState.Expired && after.lms.Some?
       && exists i :: IsLastNamed(c, i, after.lms.value)
    then exists i :: IsLastNamed(c, i, after.lms.value) && FirstSpellings(c.emails)[i] == after.email
    else after.email == before.email
  }

  lemma PreparedIsLinked(row: Assignment, c: Call)
    ensures IsLinkedBy(row, Prepare(row, OrderOf(c)), c)
  {
    forall id: LmsUserId {
      IdsAreTheKnown(c, Lower(row.email), id);
    }
  }

  lemma PreparedIsNamed(row: Assignment, c: Call)
    ensures IsNamedBy(row, Prepare(row, OrderOf(c)), c)
  {
    var o, p := OrderOf(c), Prepare(row, OrderOf(c));
    if p.lms.Some? {
      NameOfId(c, p.lms.value);
    }
  }

  lemma NameOfId(c: Call, id: LmsUserId)
    ensures id in OrderOf(c).names <==> exists i :: IsLastNamed(c, i, id)
    ensures id in OrderOf(c).names ==>
      exists i :: IsLastNamed(c, i, id) && FirstSpellings(c.emails)[i] == OrderOf(c).names[id]
  {
    var o := OrderOf(c);
    forall i | 0 <= i < |o.emails|
      ensures HasId(o.emails[i], o.ids, id) <==> KnowsId(c, Lower(o.emails[i]), id)
    {
      IdsAreTheKnown(c, Lower(o.emails[i]), id);
    }
    if id in o.names {
      NamesAreLast(o.emails, o.ids, id);
      var i :| 0 <= i < |o.emails| && IsLastWithId(o.emails, o.ids, i, id) && o.names[id] == o.emails[i];
      assert IsLastNamed(c, i, id);
    }
    if i :| IsLastNamed(c, i, id) {
      NamesAreTheReverse(o.emails, o.ids);
      assert HasId(o.emails[i], o.ids, id) && o.emails[i] in o.emails;
    }
  }

  lemma SettledIsPrepared(row: Assignment, o: Order)
    requires Found(row, o)
    ensures Settled(row, o) == Prepare(row, o).(acceptedAt := row.acceptedAt, reversedAt := row.reversedAt)
  {
  }

  /** Another course run, and whatever follows from its parent. */
  predicate IsRefreshedBy(before: Assignment, after: Assignment, c: Call) {
    && after.preferredRun == c.preferredRun && after.parentKey == c.parentKey
    && (after.isRun <==> c.parentKey.Some? && c.parentKey.value != "")
    && after == before.(lms := after.lms, preferredRun := after.preferredRun,
                        parentKey := after.parentKey, isRun := after.isRun)
  }

  /**
   What a call writes into a row it finds: a cancelled, errored, expired or reversed row is allocated again at
   the call's price, an allocated one is pointed at the call's course run, an accepted one may only gain its LMS id.
   */
  predicate IsWrittenBy(before: Assignment, after: Assignment, c: Call) {
    && (CanReturn(before.state) ==>
          IsAllocatedBy(after, c) && after.acceptedAt == before.acceptedAt && after.reversedAt == before.reversedAt)
    && (before.state == Allocated ==> IsRefreshedBy(before, after, c))
    && (before.state == Accepted ==> after == before.(lms := after.lms))
  }

  lemma SettledIsWritten(row: Assignment, c: Call)
    requires Found(row, OrderOf(c))
    ensures IsWrittenBy(row, Settled(row, OrderOf(c)), c)
  {
    SettledIsPrepared(row, OrderOf(c));
  }

  lemma SettledIsLinkedAndNamed(row: Assignment, c: Call)
    requires Found(row, OrderOf(c))
    ensures IsLinkedBy(row, Settled(row, OrderOf(c)), c) && IsNamedBy(row, Settled(row, OrderOf(c)), c)
  {
    PreparedIsLinked(row, c);
    PreparedIsNamed(row, c);
    SettledIsPrepared(row, OrderOf(c));
  }

  /** A call that goes through leaves rows it does not find as they are, and writes the others as said above. */
  lemma CallRewritesRows(t: Table, c: Call, i: nat)
    requires i < |t| && Outcome(t, OrderOf(c)).Success?
    ensures i < |Outcome(t, OrderOf(c)).value|
    ensures var before, after := t[i], Outcome(t, OrderOf(c)).value[i];
      && (!Answers(before, c) ==> after == before)
      && (Answers(before, c) ==>
            IsLinkedBy(before, after, c) && IsNamedBy(before, after, c) && IsWrittenBy(before, after, c))
  {
    FoundIffAnswers(t[i], c);
    assert Outcome(t, OrderOf(c)).value[i] == Settled(t[i], OrderOf(c));
    if Answers(t[i], c) {
      SettledIsLinkedAndNamed(t[i], c);
      SettledIsWritten(t[i], c);
    }
  }

  // ---------- the rows it creates ----------

  /** A found row carries this mailbox after the call. */
  ghost predicate IsHeld(t: Table, next: Table, c: Call, spelling: string) {
    exists i :: 0 <= i < |t| && i < |next| && Answers(t[i], c) && Lower(next[i].email) == spelling
  }

  lemma HeldByTheTable(t: Table, c: Call, spelling: string)
    ensures spelling in HeldEmails(t, OrderOf(c)) <==> IsHeld(t, Proposal(t, OrderOf(c)), c, spelling)
  {
    var o := OrderOf(c);
    forall i: nat | i < |t|
      ensures Found(t[i], o) <==> Answers(t[i], c)
      ensures Found(t[i], o) ==> Proposal(t, o)[i].email == Prepare(t[i], o).email
    {
      FoundIffAnswers(t[i], c);
      if Found(t[i], o) {
        SettledIsPrepared(t[i], o);
      }
    }
  }

  lemma NewRowIsAllocated(e: string, c: Call)
    ensures var row := NewRow(e, OrderOf(c));
      && row.email == e && IsAllocatedBy(row, c) && row.acceptedAt.None? && row.reversedAt.None?
      && forall id: LmsUserId :: row.lms == Some(id) <==> KnowsId(c, Lower(e), id)
  {
    forall id: LmsUserId {
      IdsAreTheKnown(c, Lower(e), id);
    }
  }

  /**
   Behind the stored rows a call that goes through adds rows at its price, each for a kept email that no found row
   carries afterwards, with the LMS id that the call knows for it.
   */
  lemma CallCreatesRow(t: Table, c: Call, k: nat)
    requires Outcome(t, OrderOf(c)).Success? && |t| <= k < |Outcome(t, OrderOf(c)).value|
    ensures var next := Outcome(t, OrderOf(c)).value; var row := next[k];
      && row.email in FirstSpellings(c.emails) && !IsHeld(t, next, c, Lower(row.email))
      && IsAllocatedBy(row, c) && row.acceptedAt.None? && row.reversedAt.None?
      && forall id: LmsUserId :: row.lms == Some(id) <==> KnowsId(c, Lower(row.email), id)
  {
    var o := OrderOf(c);
    var newcomers := EmailsToCreate(t, o);
    EmailsOutsideAreRequested(o.emails, HeldEmails(t, o));
    var e := newcomers[k - |t|];
    assert e in newcomers && Proposal(t, o)[k] == NewRow(e, o);
    HeldByTheTable(t, c, Lower(e));
    NewRowIsAllocated(e, c);
  }

  /** It adds a row for a kept email if and only if no found row carries the email afterwards. */
  lemma CallCreatesIffNotHeld(t: Table, c: Call, e: string)
    requires Outcome(t, OrderOf(c)).Success? && e in FirstSpellings(c.emails)
    ensures var next := Outcome(t, OrderOf(c)).value;
      (exists k :: |t| <= k < |next| && next[k].email == e) <==> !IsHeld(t, next, c, Lower(e))
  {
    var o := OrderOf(c);
    var next, newcomers := Proposal(t, o), EmailsToCreate(t, o);
    EmailsOutsideAreRequested(o.emails, HeldEmails(t, o));
    HeldByTheTable(t, c, Lower(e));
    if e in newcomers {
      var m :| 0 <= m < |newcomers| && newcomers[m] == e;
      assert next[|t| + m].email == e;
    }
    if k :| |t| <= k < |next| && next[k].email == e {
      CallCreatesRow(t, c, k);
    }
  }

  /** It never adds two rows for one mailbox. */
  lemma CallCreatesOncePerMailbox(t: Table, c: Call, j: nat, k: nat)
    requires Outcome(t, OrderOf(c)).Success? && |t| <= j < k < |Outcome(t, OrderOf(c)).value|
    ensures Lower(Outcome(t, OrderOf(c)).value[j].email) != Lower(Outcome(t, OrderOf(c)).value[k].email)
  {
    var o := OrderOf(c);
    var newcomers := EmailsToCreate(t, o);
    OrdersAreWellMapped(c);
    EmailsOutsideAreDistinct(o.emails, HeldEmails(t, o));
    assert Proposal(t, o)[j] == NewRow(newcomers[j - |t|], o);
    assert Proposal(t, o)[k] == NewRow(newcomers[k - |t|], o);
  }

  // ---------- what it reports ----------

  /**
   The report of a call that goes through names as updated exactly the rows that it changed, as created exactly
   the rows that it added, and as unchanged the rows that it found and left alone.
   */
  lemma CallReportsItsChanges(t: Table, c: Call)
    requires Outcome(t, OrderOf(c)).Success?
    ensures |t| <= |Outcome(t, OrderOf(c)).value|
    ensures var next, r := Outcome(t, OrderOf(c)).value, ReportOf(t, OrderOf(c));
      && (forall i: nat :: i in r.updated <==> i < |t| && next[i] != t[i])
      && r.created == seq(|next| - |t|, k requires 0 <= k => |t| + k)
      && (forall i: nat :: i in r.noChange <==> i < |t| && Answers(t[i], c) && next[i] == t[i])
  {
    var o := OrderOf(c);
    forall i: nat | i < |t|
      ensures Found(t[i], o) <==> Answers(t[i], c)
      ensures Outcome(t, o).value[i] == Settled(t[i], o)
      ensures Settled(t[i], o) == t[i] <==> !(Found(t[i], o) && NeedsUpdate(t[i], o))
    {
      FoundIffAnswers(t[i], c);
      NeededUpdatesShow(t[i], o);
    }
  }

  // ---------- when it goes through ----------

  /** A call goes through if and only if its price is not negative and nothing obstructs a requested email. */
  lemma CallSucceedsIff(t: Table, c: Call)
    requires UniqueKeys(t)
    ensures Outcome(t, OrderOf(c)).Success? <==> 0 <= c.price && AllUnobstructed(t, OrderOf(c))
    ensures Outcome(t, OrderOf(c)) == Failure(NegativePrice) <==> c.price < 0
  {
    OrdersAreWellMapped(c);
    if 0 <= c.price {
      AllocationSucceedsIff(t, OrderOf(c));
    }
  }

  /**
   A call with a price that may be is rejected before it is written if and only if a row that it would bring back
   collides, as it would be written, with another stored row.
   */
  lemma CallIsInvalidIff(t: Table, c: Call)
    ensures Outcome(t, OrderOf(c)) == Failure(InvalidRow) <==>
      0 <= c.price && exists i, j :: 0 <= i < |t| && 0 <= j < |t| && j != i
                        && Answers(t[i], c) && CanReturn(t[i].state) && Clash(t[j], Settled(t[i], OrderOf(c)))
  {
    var o := OrderOf(c);
    forall i | 0 <= i < |t|
      ensures Found(t[i], o) <==> Answers(t[i], c)
      ensures Found(t[i], o) && Reallocatable(t[i].state) ==>
        (FullClean(t, i, Prepare(t[i], o)) <==>
           0 <= c.price && forall j :: 0 <= j < |t| && j != i ==> !Clash(t[j], Settled(t[i], o)))
    {
      FoundIffAnswers(t[i], c);
    }
  }

  // ---------- what it costs ----------

  /** The rows a call brings back. */
  ghost function Returned(t: Table, c: Call): set<nat> {
    set i: nat | i < |t| && Answers(t[i], c) && CanReturn(t[i].state)
  }

  lemma ReturnedAreRevived(t: Table, c: Call)
    ensures Returned(t, c) == RevivedIds(t, OrderOf(c))
  {
    forall i: nat | i < |t| {
      FoundIffAnswers(t[i], c);
    }
  }

  /** How many rows a call that goes through puts into the allocated state. */
  ghost function Placed(t: Table, c: Call): int {
    if Outcome(t, OrderOf(c)).Success? then |Returned(t, c)| + |Outcome(t, OrderOf(c)).value| - |t| else 0
  }

  lemma DebitIsThePrice(t: Table, c: Call, config: nat)
    requires Outcome(t, OrderOf(c)).Success?
    ensures Debit(t, OrderOf(c), config) == if config == c.config then -(c.price * Placed(t, c)) else 0
  {
    ReturnedAreRevived(t, c);
    assert |ReportOf(t, OrderOf(c)).created| == |Outcome(t, OrderOf(c)).value| - |t|;
    Negated(c.price, Placed(t, c));
  }

  /**
   The allocated total of the call's configuration falls by exactly its price for every row it brings back and
   every row it adds; a call that fails, and any other configuration, moves nothing.
   */
  lemma AllocationConservesMoney(t: Table, c: Call, config: nat)
    ensures AllocatedTotal(if Outcome(t, OrderOf(c)).Success? then Outcome(t, OrderOf(c)).value else t, config)
         == AllocatedTotal(t, config) + (if config == c.config then -(c.price * Placed(t, c)) else 0)
  {
    if Outcome(t, OrderOf(c)).Success? {
      DebitIsThePrice(t, c, config);
      ProposalTotal(t, OrderOf(c), config);
    }
  }

  lemma Negated(p: int, n: int)
    ensures (-p) * n == -(p * n)
  {
  }
}
