/** A learner's redemptions, indexed by content and policy. */
module RedemptionIndex {
  import opened Wrappers

  datatype Policy = Policy(uuid: string, subsidy: string)

  datatype Transaction = Transaction(uuid: string, content: string, policy: string)

  type Index = map<string, map<Policy, seq<Transaction>>>

  /** The learner's transactions in a subsidy. */
  type Ledger = string -> seq<Transaction>

  function Entry(x: Index, content: string, p: Policy): seq<Transaction> {
    if content in x && p in x[content] then x[content][p] else []
  }

  /** What the entry stands for: the policy's own transactions for the content, in order. */
  function Matching(s: seq<Transaction>, content: string, p: Policy): seq<Transaction> {
    if s == [] then []
    else
      var n := |s| - 1;
      if s[n].content == content && s[n].policy == p.uuid then Matching(s[..n], content, p) + [s[n]]
      else Matching(s[..n], content, p)
  }

  /** A matching transaction stands in its entry at the place given by the number of matching ones before it. */
  lemma {:induction false} MatchingInOrder(s: seq<Transaction>, content: string, p: Policy, i: nat)
    requires i < |s| && s[i].content == content && s[i].policy == p.uuid
    ensures var place := |Matching(s[..i], content, p)|;
      place < |Matching(s, content, p)| && Matching(s, content, p)[place] == s[i]
  {
    var n := |s| - 1;
    if i < n {
      assert s[..n][..i] == s[..i];
      MatchingInOrder(s[..n], content, p, i);
    }
  }

  ghost predicate DistinctPolicies(policies: seq<Policy>) {
    forall p, q :: p in policies && q in policies && p.uuid == q.uuid ==> p == q
  }

  /** Group the policies by their subsidy. */
  method GroupBySubsidy(policies: seq<Policy>) returns (groups: map<string, set<Policy>>)
    ensures forall s :: s in groups <==> exists p :: p in policies && p.subsidy == s
    ensures forall s, p :: s in groups ==> (p in groups[s] <==> p in policies && p.subsidy == s)
  {
    groups := map[];
    for i := 0 to |policies|
      invariant forall s :: s in groups <==> exists p :: p in policies[..i] && p.subsidy == s
      invariant forall s, p :: s in groups ==> (p in groups[s] <==> p in policies[..i] && p.subsidy == s)
    {
      assert policies[..i + 1] == policies[..i] + [policies[i]];
      var s := policies[i].subsidy;
      groups := groups[s := (if s in groups then groups[s] else {}) + {policies[i]}];
    }
    assert policies[..|policies|] == policies;
  }

  /** Append one transaction under its content and policy. */
  function Append(x: Index, p: Policy, t: Transaction): (y: Index)
    ensures forall c, q :: Entry(y, c, q) == Entry(x, c, q) + if c == t.content && q == p then [t] else []
    ensures forall c :: c in y <==> c in x || c == t.content
    ensures forall c, q :: c in y && q in y[c] ==> (c in x && q in x[c]) || (c == t.content && q == p)
  {
    var inner := if t.content in x then x[t.content] else map[];
    x[t.content := inner[p := (if p in inner then inner[p] else []) + [t]]]
  }

  /** No entry is empty, so an entry exists only where something matched. */
  ghost predicate NoEmptyEntries(x: Index) {
    forall c :: c in x ==> x[c] != map[] && forall p :: p in x[c] ==> x[c][p] != []
  }

  /** What a group's subsidy contributes to one entry. */
  function Share(group: set<Policy>, s: seq<Transaction>, content: string, p: Policy): seq<Transaction> {
    if p in group then Matching(s, content, p) else []
  }

  /** The entries of one index extended by the matching transactions of a group of policies. */
  ghost predicate Extended(x: Index, y: Index, group: set<Policy>, s: seq<Transaction>) {
    forall c, p :: Entry(y, c, p) == Entry(x, c, p) + Share(group, s, c, p)
  }

  /** The group's policy named by a transaction, if there is one. */
  ghost predicate IsOwner(group: set<Policy>, t: Transaction, owner: Option<Policy>) {
    forall p :: p in group && p.uuid == t.policy <==> owner == Some(p)
  }

  function AppendTo(x: Index, owner: Option<Policy>, t: Transaction): Index {
    if owner.Some? then Append(x, owner.value, t) else x
  }

  lemma ShareStep(group: set<Policy>, s: seq<Transaction>, i: nat, owner: Option<Policy>, content: string, p: Policy)
    requires i < |s| && IsOwner(group, s[i], owner)
    ensures Share(group, s[..i + 1], content, p)
         == Share(group, s[..i], content, p) + if owner == Some(p) && content == s[i].content then [s[i]] else []
  {
    assert s[..i + 1][..i] == s[..i];
    assert p in group && p.uuid == s[i].policy <==> owner == Some(p);
  }

  lemma EntryStep(x: Index, t: Transaction, owner: Option<Policy>, content: string, p: Policy)
    ensures Entry(AppendTo(x, owner, t), content, p)
         == Entry(x, content, p) + if owner == Some(p) && content == t.content then [t] else []
  {
  }

  /** One transaction appended under its policy of the group, or skipped if the group has none. */
  lemma ExtendedStep(x: Index, y: Index, group: set<Policy>, s: seq<Transaction>, i: nat, owner: Option<Policy>)
    requires i < |s| && Extended(x, y, group, s[..i]) && IsOwner(group, s[i], owner)
    ensures Extended(x, AppendTo(y, owner, s[i]), group, s[..i + 1])
  {
    var after := AppendTo(y, owner, s[i]);
    forall c, p
      ensures Entry(after, c, p) == Entry(x, c, p) + Share(group, s[..i + 1], c, p)
    {
      var before := Share(group, s[..i], c, p);
      var last := if owner == Some(p) && c == s[i].content then [s[i]] else [];
      ShareStep(group, s, i, owner, c, p);
      EntryStep(y, s[i], owner, c, p);
      assert Entry(y, c, p) == Entry(x, c, p) + before;
      assert (Entry(x, c, p) + before) + last == Entry(x, c, p) + (before + last);
    }
  }

  /** Index the transactions of one subsidy among its policies. */
  method IndexSubsidy(x: Index, group: set<Policy>, transactions: seq<Transaction>) returns (y: Index)
    requires forall p, q :: p in group && q in group && p.uuid == q.uuid ==> p == q
    requires NoEmptyEntries(x)
    ensures NoEmptyEntries(y) && Extended(x, y, group, transactions)
  {
    y := x;
    for i := 0 to |transactions|
      invariant NoEmptyEntries(y) && Extended(x, y, group, transactions[..i])
    {
      var t := transactions[i];
      var matching := set p | p in group && p.uuid == t.policy;
      ghost var before, owner: Option<Policy> := y, None;
      if p :| p in matching {
        y := Append(y, p, t);
        owner := Some(p);
      } else {
        assert forall q :: q in group && q.uuid == t.policy ==> q in matching;
      }
      ExtendedStep(x, before, group, transactions, i, owner);
    }
    assert transactions[..|transactions|] == transactions;
  }

  /** The entries once every subsidy but the ones still to do has been indexed. */
  ghost predicate Indexed(x: Index, policies: seq<Policy>, ledger: Ledger, todo: set<string>) {
    forall c, p ::
      Entry(x, c, p) == if p in policies && p.subsidy !in todo then Matching(ledger(p.subsidy), c, p) else []
  }

  lemma IndexedStep(
      x: Index, y: Index, policies: seq<Policy>, ledger: Ledger, todo: set<string>, s: string, group: set<Policy>)
    requires Indexed(x, policies, ledger, todo) && s in todo && Extended(x, y, group, ledger(s))
    requires forall p :: p in group <==> p in policies && p.subsidy == s
    ensures Indexed(y, policies, ledger, todo - {s})
  {
    forall c, p
      ensures Entry(y, c, p) ==
        if p in policies && p.subsidy !in todo - {s} then Matching(ledger(p.subsidy), c, p) else []
    {
      assert Entry(y, c, p) == Entry(x, c, p) + Share(group, ledger(s), c, p);
      assert p in group <==> p in policies && p.subsidy == s;
    }
  }

  /** The index answers, for every content and policy, with the policy's own matching transactions. */
  ghost predicate IndexFor(x: Index, policies: seq<Policy>, ledger: Ledger) {
    forall c, p :: Entry(x, c, p) == if p in policies then Matching(ledger(p.subsidy), c, p) else []
  }

  /**
   The index holds, for every content and policy, exactly the transactions of that policy's own
   subsidy that name the content and the policy, in order, and nothing else.
   */
  method GetRedemptionsByContentAndPolicy(policies: seq<Policy>, ledger: Ledger) returns (index: Index)
    requires DistinctPolicies(policies)
    ensures IndexFor(index, policies, ledger) && NoEmptyEntries(index)
  {
    var groups := GroupBySubsidy(policies);
    index := map[];
    var todo := groups.Keys;
    while todo != {}
      invariant todo <= groups.Keys
      invariant NoEmptyEntries(index)
      invariant Indexed(index, policies, ledger, todo)
      decreases todo
    {
      var s :| s in todo;
      ghost var before := index;
      index := IndexSubsidy(index, groups[s], ledger(s));
      IndexedStep(before, index, policies, ledger, todo, s, groups[s]);
      todo := todo - {s};
    }
  }

  // ---------- every matched transaction is counted once ----------

  /** How many transactions name a policy. */
  function MatchedCount(s: seq<Transaction>, policy: string): nat {
    if s == [] then 0
    else
      var n := |s| - 1;
      MatchedCount(s[..n], policy) + if s[n].policy == policy then 1 else 0
  }

  /** The entries of one policy for some contents, added up. */
  ghost function EntriesOf(x: Index, contents: seq<string>, p: Policy): nat {
    if contents == [] then 0
    else
      var n := |contents| - 1;
      EntriesOf(x, contents[..n], p) + |Entry(x, contents[n], p)|
  }

  ghost function MatchesOf(s: seq<Transaction>, contents: seq<string>, p: Policy): nat {
    if contents == [] then 0
    else
      var n := |contents| - 1;
      MatchesOf(s, contents[..n], p) + |Matching(s, contents[n], p)|
  }

  ghost predicate NoContentTwice(contents: seq<string>) {
    forall i, j :: 0 <= i < j < |contents| ==> contents[i] != contents[j]
  }

  lemma {:induction false} LastTransactionCounts(s: seq<Transaction>, contents: seq<string>, p: Policy)
    requires s != [] && NoContentTwice(contents)
    ensures var n := |s| - 1;
      MatchesOf(s, contents, p)
      == MatchesOf(s[..n], contents, p) + if s[n].policy == p.uuid && s[n].content in contents then 1 else 0
  {
    if contents != [] {
      var k := |contents| - 1;
      LastTransactionCounts(s, contents[..k], p);
      LastContentCounts(s, contents, p);
    }
  }

  lemma LastContentCounts(s: seq<Transaction>, contents: seq<string>, p: Policy)
    requires s != [] && contents != [] && NoContentTwice(contents)
    ensures var n, k := |s| - 1, |contents| - 1;
      && (s[n].content in contents <==> s[n].content in contents[..k] || s[n].content == contents[k])
      && (s[n].content == contents[k] ==> s[n].content !in contents[..k])
      && |Matching(s, contents[k], p)| == |Matching(s[..n], contents[k], p)|
         + if s[n].content == contents[k] && s[n].policy == p.uuid then 1 else 0
  {
    assert contents == contents[..|contents| - 1] + [contents[|contents| - 1]];
  }

  /** Over all contents of a policy's transactions, its filters total its matched transactions. */
  lemma {:induction false} FiltersTotalTheMatches(s: seq<Transaction>, contents: seq<string>, p: Policy)
    requires NoContentTwice(contents)
    requires forall t :: t in s && t.policy == p.uuid ==> t.content in contents
    ensures MatchesOf(s, contents, p) == MatchedCount(s, p.uuid)
  {
    if s == [] {
      NoMatches(contents, p);
    } else {
      var n := |s| - 1;
      assert s == s[..n] + [s[n]];
      FiltersTotalTheMatches(s[..n], contents, p);
      LastTransactionCounts(s, contents, p);
    }
  }

  lemma {:induction false} NoMatches(contents: seq<string>, p: Policy)
    ensures MatchesOf([], contents, p) == 0
  {
    if contents != [] {
      NoMatches(contents[..|contents| - 1], p);
    }
  }

  lemma {:induction false} EntriesAreTheFilters(
      x: Index, policies: seq<Policy>, ledger: Ledger, contents: seq<string>, p: Policy)
    requires IndexFor(x, policies, ledger) && p in policies
    ensures EntriesOf(x, contents, p) == MatchesOf(ledger(p.subsidy), contents, p)
  {
    if contents != [] {
      EntriesAreTheFilters(x, policies, ledger, contents[..|contents| - 1], p);
    }
  }

  /** A transaction that names the policy is in a non-empty filter. */
  lemma {:induction false} MatchedIsFiltered(s: seq<Transaction>, t: Transaction, p: Policy)
    requires t in s && t.policy == p.uuid
    ensures t in Matching(s, t.content, p)
  {
    var n := |s| - 1;
    if s[n] != t {
      assert s == s[..n] + [s[n]];
      MatchedIsFiltered(s[..n], t, p);
    }
  }

  /**
   In the returned index, the entries of a policy over the contents at which it has one add up to the
   transactions of its subsidy that name it.
   */
  lemma EntriesTotalTheMatches(x: Index, policies: seq<Policy>, ledger: Ledger, contents: seq<string>, p: Policy)
    requires IndexFor(x, policies, ledger) && p in policies && NoContentTwice(contents)
    requires forall c :: c in x && p in x[c] ==> c in contents
    ensures EntriesOf(x, contents, p) == MatchedCount(ledger(p.subsidy), p.uuid)
  {
    var s := ledger(p.subsidy);
    forall t | t in s && t.policy == p.uuid
      ensures t.content in contents
    {
      MatchedIsFiltered(s, t, p);
      assert Entry(x, t.content, p) == Matching(s, t.content, p);
    }
    EntriesAreTheFilters(x, policies, ledger, contents, p);
    FiltersTotalTheMatches(s, contents, p);
  }
}
