/** Turning the arguments of an allocation call into an order: deduplication and the two id maps. */
module AllocationOrders {
  import opened Wrappers
  import opened Emails
  import opened Assignments
  import opened Allocation

  const USER_EMAIL_READ_BATCH_SIZE: nat := 100

  datatype User = User(email: string, lms: Option<LmsUserId>)

  // ---------- deduplication ----------

  /** The first spelling of every mailbox, in order. */
  ghost function FirstSpellings(emails: seq<string>): seq<string> {
    if emails == [] then []
    else
      var rest, last := FirstSpellings(emails[..|emails| - 1]), emails[|emails| - 1];
      if Lower(last) in Spellings(emails[..|emails| - 1]) then rest else rest + [last]
  }

  lemma {:induction false} FirstSpellingsAreTheMailboxes(emails: seq<string>)
    ensures Spellings(FirstSpellings(emails)) == Spellings(emails)
    ensures OncePerMailbox(FirstSpellings(emails))
    ensures forall e :: e in FirstSpellings(emails) ==> e in emails
  {
    if emails != [] {
      var rest, last := emails[..|emails| - 1], emails[|emails| - 1];
      assert emails == rest + [last];
      FirstSpellingsAreTheMailboxes(rest);
      SpellingsOfConcat(rest, [last]);
      SpellingsOfConcat(FirstSpellings(rest), [last]);
      assert forall i :: 0 <= i < |FirstSpellings(rest)| ==> Lower(FirstSpellings(rest)[i]) in Spellings(rest) by {
        assert forall i :: 0 <= i < |FirstSpellings(rest)| ==>
          Lower(FirstSpellings(rest)[i]) in Spellings(FirstSpellings(rest));
      }
    }
  }

  lemma SpellingsOfConcat(a: seq<string>, b: seq<string>)
    ensures Spellings(a + b) == Spellings(a) + Spellings(b)
  {
  }

  /** One more email brings one more spelling. */
  lemma SpellingsStep(emails: seq<string>, i: nat)
    requires i < |emails|
    ensures Spellings(emails[..i + 1]) == Spellings(emails[..i]) + {Lower(emails[i])}
  {
    assert emails[..i + 1] == emails[..i] + [emails[i]];
    SpellingsOfConcat(emails[..i], [emails[i]]);
    assert Spellings([emails[i]]) == {Lower(emails[i])};
  }

  lemma FirstSpellingsStep(emails: seq<string>, i: nat)
    requires i < |emails|
    ensures var before := FirstSpellings(emails[..i]);
      FirstSpellings(emails[..i + 1]) ==
        if Lower(emails[i]) in Spellings(emails[..i]) then before else before + [emails[i]]
  {
    assert emails[..i + 1][..i] == emails[..i];
  }

  method DeduplicateLearnerEmails(emails: seq<string>) returns (kept: seq<string>)
    ensures kept == FirstSpellings(emails)
  {
    kept := [];
    var seen: set<string> := {};
    for i := 0 to |emails|
      invariant kept == FirstSpellings(emails[..i])
      invariant seen == Spellings(emails[..i])
    {
      SpellingsStep(emails, i);
      FirstSpellingsStep(emails, i);
      var email := emails[i];
      if Lower(email) !in seen {
        kept := kept + [email];
        seen := seen + {Lower(email)};
      }
    }
    assert emails[..|emails|] == emails;
  }

  // ---------- ids from the user table ----------

  /** The id of the last user record with this lower-cased email that has one. */
  ghost function LastUserId(users: seq<User>, spelling: string): Option<LmsUserId> {
    if users == [] then None
    else
      var u := users[|users| - 1];
      if Lower(u.email) == spelling && u.lms.Some? then u.lms else LastUserId(users[..|users| - 1], spelling)
  }

  /** What the user table says about the requested mailboxes. */
  ghost function KnownIds(users: seq<User>, emails: seq<string>): map<string, LmsUserId> {
    map s | s in Spellings(emails) && LastUserId(users, s).Some? :: LastUserId(users, s).value
  }

  /** One case-insensitive query, collected into a dictionary in which later rows win. */
  method QueryUserIds(users: seq<User>, emails: seq<string>) returns (ids: map<string, LmsUserId>)
    ensures ids == KnownIds(users, emails)
  {
    ids := map[];
    for i := 0 to |users|
      invariant ids == KnownIds(users[..i], emails)
    {
      assert users[..i + 1][..i] == users[..i];
      if users[i].lms.Some? && (exists e :: e in emails && Lower(e) == Lower(users[i].email)) {
        ids := ids[Lower(users[i].email) := users[i].lms.value];
      }
    }
    assert users[..|users|] == users;
  }

  /** Reading the user table in batches gives the same answer as one query. */
  method GetLmsUserIdsByEmail(users: seq<User>, emails: seq<string>) returns (ids: map<string, LmsUserId>)
    ensures ids == KnownIds(users, emails)
  {
    ids := map[];
    var i := 0;
    while i < |emails|
      invariant 0 <= i <= |emails|
      invariant ids == KnownIds(users, emails[..i])
    {
      var end := if i + USER_EMAIL_READ_BATCH_SIZE <= |emails| then i + USER_EMAIL_READ_BATCH_SIZE else |emails|;
      var batch := QueryUserIds(users, emails[i..end]);
      assert emails[..end] == emails[..i] + emails[i..end];
      SpellingsOfConcat(emails[..i], emails[i..end]);
      ids := ids + batch;
      i := end;
    }
    assert emails[..|emails|] == emails;
  }

  // ---------- ids supplied by the caller ----------

  function Shorter(emails: seq<string>, known: seq<LmsUserId>): (n: nat)
    ensures n <= |emails| && n <= |known| && (n == |emails| || n == |known|)
  {
    if |emails| <= |known| then |emails| else |known|
  }

  /** A dictionary of lowered emails and ids of equal number; later entries win. */
  ghost function Zip(emails: seq<string>, known: seq<LmsUserId>): map<string, LmsUserId>
    requires |emails| == |known|
  {
    if emails == [] then map[]
    else
      var n := |emails| - 1;
      Zip(emails[..n], known[..n])[Lower(emails[n]) := known[n]]
  }

  /** zip stops at the shorter of the two lists. */
  ghost function ZippedIds(emails: seq<string>, known: seq<LmsUserId>): map<string, LmsUserId> {
    var n := Shorter(emails, known);
    Zip(emails[..n], known[..n])
  }

  /** The reverse map: every id points at the last requested email that has it. */
  ghost function NamesById(emails: seq<string>, ids: map<string, LmsUserId>): map<LmsUserId, string> {
    if emails == [] then map[]
    else
      var rest, last := NamesById(emails[..|emails| - 1], ids), emails[|emails| - 1];
      if Lower(last) in ids then rest[ids[Lower(last)] := last] else rest
  }

  /** One more pair added to the dictionary. */
  lemma ZipStep(emails: seq<string>, known: seq<LmsUserId>, i: nat)
    requires i < |emails| && i < |known|
    ensures Zip(emails[..i + 1], known[..i + 1]) == Zip(emails[..i], known[..i])[Lower(emails[i]) := known[i]]
  {
    assert emails[..i + 1][..i] == emails[..i] && known[..i + 1][..i] == known[..i];
  }

  /** One more email added to the reverse map. */
  lemma NamesStep(emails: seq<string>, ids: map<string, LmsUserId>, i: nat)
    requires i < |emails|
    ensures var before, email := NamesById(emails[..i], ids), emails[i];
      NamesById(emails[..i + 1], ids) == if Lower(email) in ids then before[ids[Lower(email)] := email] else before
  {
    assert emails[..i + 1][..i] == emails[..i];
  }

  lemma {:induction false} ZipByPosition(emails: seq<string>, known: seq<LmsUserId>)
    requires |emails| == |known| && OncePerMailbox(emails)
    ensures Zip(emails, known).Keys == Spellings(emails)
    ensures forall i :: 0 <= i < |emails| ==> Zip(emails, known)[Lower(emails[i])] == known[i]
  {
    if emails != [] {
      var n := |emails| - 1;
      var rest := Zip(emails[..n], known[..n]);
      ZipByPosition(emails[..n], known[..n]);
      SpellingsStep(emails, n);
      assert emails[..n + 1] == emails;
      assert Zip(emails, known) == rest[Lower(emails[n]) := known[n]];
      forall i | 0 <= i < n
        ensures Zip(emails, known)[Lower(emails[i])] == known[i]
      {
        assert rest[Lower(emails[..n][i])] == known[..n][i];
        assert Lower(emails[i]) != Lower(emails[n]);
      }
    }
  }

  lemma ZippedIdsByPosition(emails: seq<string>, known: seq<LmsUserId>)
    requires OncePerMailbox(emails)
    ensures ZippedIds(emails, known).Keys == Spellings(emails[..Shorter(emails, known)]) <= Spellings(emails)
    ensures forall i :: 0 <= i < Shorter(emails, known) ==> ZippedIds(emails, known)[Lower(emails[i])] == known[i]
    ensures forall i :: Shorter(emails, known) <= i < |emails| ==> Lower(emails[i]) !in ZippedIds(emails, known)
  {
    var n := Shorter(emails, known);
    ZipByPosition(emails[..n], known[..n]);
    forall i | 0 <= i < n
      ensures ZippedIds(emails, known)[Lower(emails[i])] == known[i]
    {
      assert emails[..n][i] == emails[i] && known[..n][i] == known[i];
    }
  }

  method ZipKnownIds(emails: seq<string>, known: seq<LmsUserId>)
    returns (ids: map<string, LmsUserId>, names: map<LmsUserId, string>)
    requires OncePerMailbox(emails)
    ensures ids == ZippedIds(emails, known) && names == NamesById(emails, ids)
  {
    ids, names := map[], map[];
    var n := Shorter(emails, known);
    for i := 0 to n
      invariant ids == Zip(emails[..i], known[..i])
    {
      ZipStep(emails, known, i);
      ids := ids[Lower(emails[i]) := known[i]];
    }
    ZippedIdsByPosition(emails, known);
    for i := 0 to n
      invariant names == NamesById(emails[..i], ids)
    {
      NamesStep(emails, ids, i);
      names := names[known[i] := emails[i]];
    }
    NamesStopAtTheShorter(emails, ids, n);
  }

  lemma {:induction false} NamesStopAtTheShorter(emails: seq<string>, ids: map<string, LmsUserId>, n: nat)
    requires n <= |emails| && forall i :: n <= i < |emails| ==> Lower(emails[i]) !in ids
    ensures NamesById(emails, ids) == NamesById(emails[..n], ids)
  {
    if n < |emails| {
      assert emails[..|emails| - 1][..n] == emails[..n];
      NamesStopAtTheShorter(emails[..|emails| - 1], ids, n);
    } else {
      assert emails[..n] == emails;
    }
  }

  method MapAllocationEmails(users: seq<User>, emails: seq<string>)
    returns (ids: map<string, LmsUserId>, names: map<LmsUserId, string>)
    ensures ids == KnownIds(users, emails) && names == NamesById(emails, ids)
  {
    ids := GetLmsUserIdsByEmail(users, emails);
    names := map[];
    for i := 0 to |emails|
      invariant names == NamesById(emails[..i], ids)
    {
      NamesStep(emails, ids, i);
      if Lower(emails[i]) in ids {
        names := names[ids[Lower(emails[i])] := emails[i]];
      }
    }
    assert emails[..|emails|] == emails;
  }

  lemma {:induction false} NamesAreTheReverse(emails: seq<string>, ids: map<string, LmsUserId>)
    ensures forall k :: k in NamesById(emails, ids) ==>
      NamesById(emails, ids)[k] in emails && Lower(NamesById(emails, ids)[k]) in ids
      && ids[Lower(NamesById(emails, ids)[k])] == k
    ensures forall e :: e in emails && Lower(e) in ids ==> ids[Lower(e)] in NamesById(emails, ids)
  {
    if emails != [] {
      assert emails == emails[..|emails| - 1] + [emails[|emails| - 1]];
      NamesAreTheReverse(emails[..|emails| - 1], ids);
    }
  }

  // ---------- the order ----------

  /** What the caller of allocate_assignments passes in, and what it reads from its surroundings. */
  datatype Call = Call(
    config: nat, emails: seq<string>, content: string, price: int, known: seq<LmsUserId>, users: seq<User>,
    batch: nat, preferredRun: Option<string>, parentKey: Option<string>, now: int)

  ghost function OrderOf(c: Call): Order {
    var emails := FirstSpellings(c.emails);
    var ids := if c.known != [] then ZippedIds(emails, c.known) else KnownIds(c.users, emails);
    Order(c.config, c.content, emails, ids, NamesById(emails, ids), -c.price, c.batch,
          c.preferredRun, c.parentKey, c.now)
  }

  lemma OrdersAreWellMapped(c: Call)
    ensures OrderOf(c).WellMapped()
    ensures Spellings(OrderOf(c).emails) == Spellings(c.emails)
  {
    var o := OrderOf(c);
    FirstSpellingsAreTheMailboxes(c.emails);
    NamesAreTheReverse(o.emails, o.ids);
    if c.known != [] {
      ZippedIdsByPosition(o.emails, c.known);
    }
    forall s | s in o.ids
      ensures o.ids[s] in o.names
    {
      assert s in Spellings(o.emails);
      var e :| e in o.emails && Lower(e) == s;
    }
  }

  lemma PositionOfSpelling(emails: seq<string>, spelling: string) returns (i: nat)
    requires spelling in Spellings(emails)
    ensures i < |emails| && Lower(emails[i]) == spelling
  {
    i :| i < |emails| && Lower(emails[i]) == spelling;
  }

  /** Caller-supplied ids without repetition give every id one email. */
  lemma DistinctKnownIdsAreInjective(c: Call, email: string)
    requires c.known != [] && forall i, j :: 0 <= i < j < |c.known| ==> c.known[i] != c.known[j]
    ensures OrderOf(c).Alone(email)
  {
    var o := OrderOf(c);
    FirstSpellingsAreTheMailboxes(c.emails);
    ZippedIdsByPosition(o.emails, c.known);
    forall e | e in o.ids && Lower(email) in o.ids && o.ids[e] == o.ids[Lower(email)]
      ensures e == Lower(email)
    {
      var i := PositionOfSpelling(o.emails, e);
      var j := PositionOfSpelling(o.emails, Lower(email));
      assert i < Shorter(o.emails, c.known) && j < Shorter(o.emails, c.known);
      assert c.known[i] == c.known[j];
    }
  }
}
