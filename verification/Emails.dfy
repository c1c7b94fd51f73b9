/** Case-insensitive learner emails. */
module Emails {
  function LowerChar(c: char): char {
    if 'A' <= c <= 'Z' then (c as int + 32) as char else c
  }

  function Lower(email: string): string {
    seq(|email|, i requires 0 <= i < |email| => LowerChar(email[i]))
  }

  /** A capital letter and its small form. */
  predicate IsCapitalOf(c: char, d: char) {
    'A' <= c <= 'Z' && d as int == c as int + 32
  }

  /** Two emails are one mailbox if and only if they differ in nothing but the case of letters. */
  lemma SameMailboxIff(a: string, b: string)
    ensures Lower(a) == Lower(b) <==>
      |a| == |b|
      && forall i :: 0 <= i < |a| ==> a[i] == b[i] || IsCapitalOf(a[i], b[i]) || IsCapitalOf(b[i], a[i])
  {
    assert |Lower(a)| == |a| && |Lower(b)| == |b|;
    if Lower(a) == Lower(b) {
      forall i | 0 <= i < |a|
        ensures a[i] == b[i] || IsCapitalOf(a[i], b[i]) || IsCapitalOf(b[i], a[i])
      {
        assert Lower(a)[i] == Lower(b)[i];
      }
    }
  }

  /** The lower-cased spellings of a list of emails. */
  ghost function Spellings(emails: seq<string>): set<string> {
    set e | e in emails :: Lower(e)
  }

  /** No two entries name the same mailbox. */
  ghost predicate OncePerMailbox(emails: seq<string>) {
    forall i, j :: 0 <= i < j < |emails| ==> Lower(emails[i]) != Lower(emails[j])
  }

  /** Distinct entries of a list without repeated mailboxes have distinct spellings. */
  lemma MailboxNamesOneEntry(emails: seq<string>, a: string, b: string)
    requires OncePerMailbox(emails)
    requires a in emails && b in emails && Lower(a) == Lower(b)
    ensures a == b
  {
    var i :| 0 <= i < |emails| && emails[i] == a;
    var j :| 0 <= j < |emails| && emails[j] == b;
    assert !(i < j) && !(j < i);
  }
}
