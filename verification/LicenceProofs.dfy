/** The picked licence is the best one, and one pass activates or auto-applies but never both. */
module LicenceProofs {
  import opened Wrappers
  import opened StableSorting
  import opened Licences

  // ---------- groups ----------

  lemma {:induction false} StatusOfConcat(a: seq<Licence>, b: seq<Licence>, status: string)
    ensures WithStatus(a + b, status) == WithStatus(a, status) + WithStatus(b, status)
  {
    if b == [] {
      assert a + b == a;
    } else {
      var n := |b| - 1;
      assert (a + b)[..|a + b| - 1] == a + b[..n];
      StatusOfConcat(a, b[..n], status);
    }
  }

  lemma {:induction false} FiltersCommute(s: seq<Licence>, status: string, k: int)
    ensures WithKey(WithStatus(s, status), PlanKey, k) == WithStatus(WithKey(s, PlanKey, k), status)
  {
    if s != [] {
      FiltersCommute(s[1..], status, k);
      assert s == [s[0]] + s[1..];
      StatusOfConcat([s[0]], s[1..], status);
      StatusOfConcat([s[0]], WithKey(s[1..], PlanKey, k), status);
      SingleStatus(s[0], status);
      var rest := WithStatus(s[1..], status);
      if s[0].status == status {
        assert WithStatus(s, status) == [s[0]] + rest;
        assert ([s[0]] + rest)[1..] == rest;
      } else {
        assert WithStatus(s, status) == [] + rest == rest;
        assert [] + WithStatus(WithKey(s[1..], PlanKey, k), status) == WithStatus(WithKey(s[1..], PlanKey, k), status);
      }
    }
  }

  lemma SingleStatus(l: Licence, status: string)
    ensures WithStatus([l], status) == if l.status == status then [l] else []
  {
    assert [l][..0] == [];
  }

  lemma {:induction false} FilterOfSortedIsSorted(s: seq<Licence>, status: string)
    requires Sorted(s, PlanKey)
    ensures Sorted(WithStatus(s, status), PlanKey)
  {
    if s != [] {
      var n := |s| - 1;
      FilterOfSortedIsSorted(s[..n], status);
      NothingWithOtherStatus(s[..n], status);
      var rest := WithStatus(s[..n], status);
      assert forall i :: 0 <= i < |rest| ==> rest[i] in rest;
      assert forall l :: l in s[..n] ==> PlanKey(l) <= PlanKey(s[n]);
    }
  }

  /** Grouping the sorted list is sorting each group. */
  lemma GroupsOfSortedAreSortedGroups(results: seq<Licence>, status: string)
    ensures Bucket(Transformed(results).byStatus, status) == Sort(WithStatus(results, status), PlanKey)
  {
    var sorted, filtered := Sort(results, PlanKey), WithStatus(results, status);
    SortIsStable(results, PlanKey);
    SortIsStable(filtered, PlanKey);
    FilterOfSortedIsSorted(sorted, status);
    forall k
      ensures WithKey(WithStatus(sorted, status), PlanKey, k) == WithKey(Sort(filtered, PlanKey), PlanKey, k)
    {
      FiltersCommute(sorted, status, k);
      FiltersCommute(results, status, k);
      assert WithKey(results, PlanKey, k) == WithKey(sorted, PlanKey, k);
      assert WithKey(filtered, PlanKey, k) == WithKey(Sort(filtered, PlanKey), PlanKey, k);
    }
    SortedRearrangementIsUnique(WithStatus(sorted, status), Sort(filtered, PlanKey), PlanKey);
    NothingWithOtherStatus(sorted, status);
  }

  /** The licences of one status whose plan is current, or those whose plan is not, in order. */
  function OfPlan(s: seq<Licence>, status: string, current: bool): seq<Licence> {
    if s == [] then []
    else if s[0].status == status && s[0].current == current then [s[0]] + OfPlan(s[1..], status, current)
    else OfPlan(s[1..], status, current)
  }

  lemma {:induction false} OfPlanHolds(s: seq<Licence>, status: string, current: bool)
    ensures forall l :: l in OfPlan(s, status, current) <==> l in s && l.status == status && l.current == current
  {
    if s != [] {
      OfPlanHolds(s[1..], status, current);
      assert s == [s[0]] + s[1..];
    }
  }

  lemma {:induction false} OfPlanByIndex(s: seq<Licence>, status: string, current: bool)
    ensures forall i :: 0 <= i < |OfPlan(s, status, current)| ==> OfPlan(s, status, current)[i].current == current
  {
    if s != [] {
      OfPlanByIndex(s[1..], status, current);
    }
  }

  /** A licence of another plan goes behind the current ones and before the others. */
  lemma {:induction false} InsertOther(l: Licence, a: seq<Licence>, b: seq<Licence>)
    requires !l.current
    requires forall i :: 0 <= i < |a| ==> a[i].current
    requires forall i :: 0 <= i < |b| ==> !b[i].current
    ensures Insert(l, a + b, PlanKey) == a + ([l] + b)
  {
    if a == [] {
      assert a + b == b && a + ([l] + b) == [l] + b;
      InsertInFront(l, b, PlanKey);
    } else {
      var head, rest := a[0], a[1..];
      InsertOther(l, rest, b);
      InsertBehind(l, head, rest + b, PlanKey);
      assert a + b == [head] + (rest + b);
      assert a + ([l] + b) == [head] + (rest + ([l] + b));
    }
  }

  lemma {:induction false} SortPutsCurrentFirst(s: seq<Licence>, status: string)
    requires forall l :: l in s ==> l.status == status
    ensures Sort(s, PlanKey) == OfPlan(s, status, true) + OfPlan(s, status, false)
  {
    if s != [] {
      var a, b := OfPlan(s[1..], status, true), OfPlan(s[1..], status, false);
      SortPutsCurrentFirst(s[1..], status);
      OfPlanByIndex(s[1..], status, true);
      OfPlanByIndex(s[1..], status, false);
      assert s[0] in s;
      if s[0].current {
        InsertInFront(s[0], a + b, PlanKey);
        assert [s[0]] + (a + b) == ([s[0]] + a) + b;
      } else {
        InsertOther(s[0], a, b);
      }
    }
  }

  lemma {:induction false} OfPlanOfStatus(s: seq<Licence>, status: string, current: bool)
    ensures OfPlan(WithStatus(s, status), status, current) == OfPlan(s, status, current)
  {
    if s != [] {
      OfPlanOfStatus(s[1..], status, current);
      assert s == [s[0]] + s[1..];
      StatusOfConcat([s[0]], s[1..], status);
      SingleStatus(s[0], status);
      var rest := WithStatus(s[1..], status);
      assert ([s[0]] + rest)[1..] == rest && [] + rest == rest;
    }
  }

  /**
   The bucket of a status holds its licences with a current plan, in the order in which they were loaded, and behind
   them its other licences, in the order in which they were loaded.
   */
  lemma BucketsPutCurrentFirst(results: seq<Licence>, status: string)
    ensures var bucket := Bucket(Transformed(results).byStatus, status);
      && bucket == OfPlan(results, status, true) + OfPlan(results, status, false)
      && (forall i, j :: 0 <= i < j < |bucket| && bucket[j].current ==> bucket[i].current)
      && (forall l :: l in bucket <==> l in results && l.status == status)
  {
    var filtered := WithStatus(results, status);
    GroupsOfSortedAreSortedGroups(results, status);
    NothingWithOtherStatus(results, status);
    SortPutsCurrentFirst(filtered, status);
    OfPlanOfStatus(results, status, true);
    OfPlanOfStatus(results, status, false);
    OfPlanHolds(results, status, true);
    OfPlanHolds(results, status, false);
    var current, others := OfPlan(results, status, true), OfPlan(results, status, false);
    assert forall i :: 0 <= i < |current| ==> current[i] in current;
    assert forall i :: 0 <= i < |others| ==> others[i] in others;
  }

  lemma {:induction false} StatusCounts(s: seq<Licence>, l: Licence)
    ensures multiset(WithStatus(s, l.status))[l] == multiset(s)[l]
  {
    if s != [] {
      var n := |s| - 1;
      StatusCounts(s[..n], l);
      assert s == s[..n] + [s[n]];
    }
  }

  /** Every loaded licence is in its own status's bucket as often as it was loaded, and in no other bucket. */
  lemma GroupsArePermutation(results: seq<Licence>, l: Licence, other: string)
    ensures var b := Transformed(results).byStatus;
      && multiset(Bucket(b, l.status))[l] == multiset(results)[l]
      && (other != l.status ==> l !in Bucket(b, other))
      && (other in b <==> exists k :: k in results && k.status == other)
  {
    var sorted := Sort(results, PlanKey);
    SortIsPermutation(results, PlanKey);
    StatusCounts(sorted, l);
    NothingWithOtherStatus(sorted, l.status);
    NothingWithOtherStatus(sorted, other);
    forall k
      ensures k in sorted <==> k in results
    {
      assert multiset(sorted)[k] == multiset(results)[k];
    }
  }

  // ---------- the best licence ----------

  /** Priority of a status; statuses outside the list are never picked. */
  function StatusRank(status: string): nat {
    if status == "activated" then 0 else if status == "assigned" then 1 else if status == "revoked" then 2 else 3
  }

  /**
   Position i holds the best licence: no loaded status has a lower rank than its own; if any licence of its status has
   a current plan, it is the first such licence, and otherwise it is the first licence of its status.
   */
  ghost predicate IsBest(s: seq<Licence>, i: int) {
    && 0 <= i < |s| && StatusRank(s[i].status) < 3
    && (forall j :: 0 <= j < |s| ==> StatusRank(s[i].status) <= StatusRank(s[j].status))
    && IsFirstOfStatus(s, i)
  }

  ghost predicate IsFirstOfStatus(s: seq<Licence>, i: int)
    requires 0 <= i < |s|
  {
    if exists j :: 0 <= j < |s| && s[j].status == s[i].status && s[j].current
    then s[i].current && forall j :: 0 <= j < i && s[j].status == s[i].status ==> !s[j].current
    else forall j :: 0 <= j < i ==> s[j].status != s[i].status
  }

  lemma {:induction false} OfPlanHead(s: seq<Licence>, status: string, current: bool) returns (k: nat)
    requires OfPlan(s, status, current) != []
    ensures k < |s| && s[k] == OfPlan(s, status, current)[0] && s[k].status == status && s[k].current == current
    ensures forall j :: 0 <= j < k && s[j].status == status ==> s[j].current != current
  {
    if s[0].status == status && s[0].current == current {
      k := 0;
    } else {
      var n := OfPlanHead(s[1..], status, current);
      k := n + 1;
      assert forall j :: 1 <= j < k ==> s[j] == s[1..][j - 1];
    }
  }

  /** The head of a bucket is the first licence of its status among the current ones, or else among all. */
  lemma BucketHead(results: seq<Licence>, status: string) returns (k: nat)
    requires Bucket(Transformed(results).byStatus, status) != []
    ensures k < |results| && results[k] == Bucket(Transformed(results).byStatus, status)[0]
    ensures results[k].status == status && IsFirstOfStatus(results, k)
  {
    BucketsPutCurrentFirst(results, status);
    OfPlanHolds(results, status, true);
    if OfPlan(results, status, true) != [] {
      k := OfPlanHead(results, status, true);
    } else {
      k := OfPlanHead(results, status, false);
      assert forall j :: 0 <= j < |results| ==> results[j] in results;
    }
  }

  lemma EmptyBucketMeansNone(results: seq<Licence>, status: string)
    requires Bucket(Transformed(results).byStatus, status) == []
    ensures forall j :: 0 <= j < |results| ==> results[j].status != status
  {
    forall j | 0 <= j < |results|
      ensures results[j].status != status
    {
      GroupsArePermutation(results, results[j], status);
    }
  }

  /** Sorting, grouping and picking by priority refine a plain choice of the best licence. */
  lemma PickIsTheBestLicence(results: seq<Licence>)
    ensures match Transformed(results).best
      case None => forall j :: 0 <= j < |results| ==> results[j].status !in {"activated", "assigned", "revoked"}
      case Some(l) => exists i :: IsBest(results, i) && results[i] == l
  {
    var b := Transformed(results).byStatus;
    if Bucket(b, ACTIVATED) != [] {
      var k := BucketHead(results, ACTIVATED);
      assert IsBest(results, k);
    } else if Bucket(b, ASSIGNED) != [] {
      EmptyBucketMeansNone(results, ACTIVATED);
      var k := BucketHead(results, ASSIGNED);
      assert IsBest(results, k);
    } else if Bucket(b, REVOKED) != [] {
      EmptyBucketMeansNone(results, ACTIVATED);
      EmptyBucketMeansNone(results, ASSIGNED);
      var k := BucketHead(results, REVOKED);
      assert IsBest(results, k);
    } else {
      EmptyBucketMeansNone(results, ACTIVATED);
      EmptyBucketMeansNone(results, ASSIGNED);
      EmptyBucketMeansNone(results, REVOKED);
    }
  }

  // ---------- activation or auto-apply ----------

  lemma {:induction false} EmptyRewriteOnlyOfEmpty(licences: seq<Licence>, activated: seq<Licence>)
    requires licences != []
    ensures RewrittenList(licences, activated) != []
  {
  }

  lemma {:induction false} CurrentHolds(s: seq<Licence>, l: Licence)
    ensures l in Current(s) <==> l in s && l.current
  {
    if s != [] {
      CurrentHolds(s[..|s| - 1], l);
      assert s == s[..|s| - 1] + [s[|s| - 1]];
    }
  }

  lemma {:induction false} CurrentOfCurrent(s: seq<Licence>)
    requires forall i :: 0 <= i < |s| ==> s[i].current
    ensures Current(s) == s
  {
    if s != [] {
      CurrentOfCurrent(s[..|s| - 1]);
      assert s == s[..|s| - 1] + [s[|s| - 1]];
    }
  }

  lemma {:induction false} CurrentBeforeOthers(a: seq<Licence>, b: seq<Licence>)
    requires forall i :: 0 <= i < |a| ==> a[i].current
    requires forall i :: 0 <= i < |b| ==> !b[i].current
    ensures Current(a + b) == a
  {
    if b == [] {
      CurrentOfCurrent(a);
      assert a + b == a;
    } else {
      assert (a + b)[..|a + b| - 1] == a + b[..|b| - 1];
      CurrentBeforeOthers(a, b[..|b| - 1]);
    }
  }

  /** The current licences of a loaded bucket are those of the loaded list, in order. */
  lemma CurrentOfLoaded(results: seq<Licence>, status: string)
    ensures Current(Bucket(Transformed(results).byStatus, status)) == OfPlan(results, status, true)
  {
    BucketsPutCurrentFirst(results, status);
    OfPlanByIndex(results, status, true);
    OfPlanByIndex(results, status, false);
    CurrentBeforeOthers(OfPlan(results, status, true), OfPlan(results, status, false));
  }

  /** A subscription to apply that has days left, and an identity provider or a universal link to apply it through. */
  predicate MayAutoApply(x: Surroundings) {
    && x.linked
    && match x.agreement
       case None => false
       case Some(a) =>
         a.autoApplySubscription && 0 < a.netDaysUntilExpiration && (x.identityProvider || a.universalLink)
  }

  /** What a pass over no licences leaves: the applied licence alone, an error, or nothing new. */
  ghost predicate IsAutoApplied(p: Pass, after: Pass, x: Surroundings) {
    if !MayAutoApply(x) then after == p
    else match x.autoApplied
      case None => after == p.(autoApplyCalls := p.autoApplyCalls + 1, errors := p.errors + 1)
      case Some(l) =>
        after == p.(autoApplyCalls := p.autoApplyCalls + 1,
                    data := Subscriptions([l], map["activated" := [l]], Some(l)))
  }

  /**
   One pass over freshly loaded licences: an activated licence of a current plan ends it; with no licences at all it
   only tries auto-apply; otherwise it only activates the assigned licences of current plans, in loaded order.
   So activation and auto-apply never happen together.
   */
  lemma OnePassActivatesOrApplies(results: seq<Licence>, p: Pass, x: Surroundings)
    requires p.data == Transformed(results)
    ensures var after := Processed(p, x);
      if exists l :: l in results && l.status == "activated" && l.current then after == p
      else if results == [] then IsAutoApplied(p, after, x)
      else
        var r := ActivateAll(OfPlan(results, "assigned", true), x.activate);
        && after.activationCalls == p.activationCalls + r.calls && after.errors == p.errors + r.errors
        && after.autoApplyCalls == p.autoApplyCalls
        && (r.raised ==> after.data == p.data)
        && (!r.raised ==>
              && after.data.licences == RewrittenList(results, r.activated)
              && after.data.byStatus == RebuiltBuckets(p.data.byStatus, r.activated)
              && after.data.best == Extract(after.data.byStatus))
  {
    CurrentOfLoaded(results, ACTIVATED);
    CurrentOfLoaded(results, ASSIGNED);
    OfPlanHolds(results, ACTIVATED, true);
    var a := OfPlan(results, ACTIVATED, true);
    assert a != [] ==> a[0] in a;
    if results == [] {
      assert Sort(results, PlanKey) == [];
      assert p.data == Subscriptions([], map[], None);
    } else {
      EmptyRewriteOnlyOfEmpty(results, ActivateAll(OfPlan(results, ASSIGNED, true), x.activate).activated);
    }
  }

  // ---------- one round of activations ----------

  /** The activation keys that are given, in order. */
  function Keys(s: seq<Licence>): seq<string> {
    if s == [] then []
    else if s[|s| - 1].activationKey.Some? && s[|s| - 1].activationKey.value != ""
    then Keys(s[..|s| - 1]) + [s[|s| - 1].activationKey.value]
    else Keys(s[..|s| - 1])
  }

  /** The round was stopped by the k-th licence, whose activation failed. */
  ghost predicate StopsAt(pending: seq<Licence>, k: int, activate: string -> Option<Licence>) {
    && 0 <= k < |pending|
    && IsKeyed(pending[k]) && activate(pending[k].activationKey.value).None?
    && forall j :: 0 <= j < k && IsKeyed(pending[j]) ==> activate(pending[j].activationKey.value).Some?
  }

  predicate IsKeyed(l: Licence) {
    l.activationKey.Some? && l.activationKey.value != ""
  }

  /** A round that no licence stopped: every given key was called, in order, and answered. */
  ghost predicate IsFinished(pending: seq<Licence>, activate: string -> Option<Licence>, r: Round) {
    && !r.raised && r.calls == Keys(pending) && |r.activated| == |r.calls|
    && r.errors + |r.calls| == |pending|
    && forall l :: l in pending && IsKeyed(l) ==> activate(l.activationKey.value).Some?
  }

  /** A round that the k-th licence stopped: the given keys were called up to and including that licence's. */
  ghost predicate IsStoppedAt(pending: seq<Licence>, k: int, activate: string -> Option<Licence>, r: Round) {
    && StopsAt(pending, k, activate)
    && r.raised && r.calls == Keys(pending[..k + 1]) && |r.activated| + 1 == |r.calls|
    && r.errors + |r.activated| == k + 1
  }

  lemma KeysGrow(s: seq<Licence>, l: Licence)
    ensures Keys(s + [l]) == if IsKeyed(l) then Keys(s) + [l.activationKey.value] else Keys(s)
  {
    assert (s + [l])[..|s|] == s;
  }

  /** One more licence after a round that no licence stopped. */
  lemma OneMoreLicence(s: seq<Licence>, l: Licence, activate: string -> Option<Licence>, r: Round)
    requires IsFinished(s, activate, r)
    ensures !IsKeyed(l) ==> IsFinished(s + [l], activate, r.(errors := r.errors + 1))
    ensures IsKeyed(l) ==>
      var key := l.activationKey.value;
      match activate(key)
      case None =>
        IsStoppedAt(s + [l], |s|, activate, r.(calls := r.calls + [key], errors := r.errors + 1, raised := true))
      case Some(a) => IsFinished(s + [l], activate, r.(calls := r.calls + [key], activated := r.activated + [a]))
  {
    KeysGrow(s, l);
    assert (s + [l])[..|s| + 1] == s + [l];
    assert forall j :: 0 <= j < |s| ==> (s + [l])[j] in s;
  }

  /**
   A round calls the license manager with the given keys, in order, up to the first key that fails; it counts one
   error for every licence without a key that it passes and one for the failure.
   */
  lemma {:induction false} RoundCallsKeysInOrder(pending: seq<Licence>, activate: string -> Option<Licence>)
    ensures var r := ActivateAll(pending, activate);
      if r.raised then exists k :: IsStoppedAt(pending, k, activate, r) else IsFinished(pending, activate, r)
  {
    if pending != [] {
      var n := |pending| - 1;
      var before := ActivateAll(pending[..n], activate);
      RoundCallsKeysInOrder(pending[..n], activate);
      assert pending == pending[..n] + [pending[n]];
      if before.raised {
        var k :| IsStoppedAt(pending[..n], k, activate, before);
        assert pending[..n][..k + 1] == pending[..k + 1];
        assert IsStoppedAt(pending, k, activate, before);
      } else {
        OneMoreLicence(pending[..n], pending[n], activate, before);
      }
    }
  }

  /** Every answer is kept, in the order of the calls. */
  lemma {:induction false} RoundKeepsAnswers(pending: seq<Licence>, activate: string -> Option<Licence>, i: nat)
    requires i < |ActivateAll(pending, activate).activated|
    ensures i < |ActivateAll(pending, activate).calls|
    ensures activate(ActivateAll(pending, activate).calls[i]) == Some(ActivateAll(pending, activate).activated[i])
  {
    var before := ActivateAll(pending[..|pending| - 1], activate);
    RoundCallsKeysInOrder(pending[..|pending| - 1], activate);
    if i < |before.activated| {
      RoundKeepsAnswers(pending[..|pending| - 1], activate, i);
    }
  }

  // ---------- the rebuilt buckets ----------

  /** The license manager answers an activation with the same licence. */
  ghost predicate AnswersForTheSameLicence(pending: seq<Licence>, activate: string -> Option<Licence>) {
    forall l :: l in pending && Given(l.activationKey) && activate(l.activationKey.value).Some?
      ==> activate(l.activationKey.value).value.uuid == l.uuid
  }

  ghost predicate DistinctUuids(s: seq<Licence>) {
    forall i, j :: 0 <= i < j < |s| ==> s[i].uuid != s[j].uuid
  }

  /** Which of the licences a finished round activated. */
  predicate IsActivated(l: Licence, activate: string -> Option<Licence>) {
    Given(l.activationKey) && activate(l.activationKey.value).Some?
  }

  lemma {:induction false} RoundActivates(pending: seq<Licence>, activate: string -> Option<Licence>)
    requires AnswersForTheSameLicence(pending, activate) && !ActivateAll(pending, activate).raised
    ensures forall u ::
      u in Uuids(ActivateAll(pending, activate).activated) <==>
      exists l :: l in pending && l.uuid == u && IsActivated(l, activate)
    ensures DistinctUuids(pending) ==> DistinctUuids(ActivateAll(pending, activate).activated)
  {
    if pending != [] {
      var n := |pending| - 1;
      var rest := pending[..n];
      assert pending == rest + [pending[n]];
      assert forall l :: l in rest ==> l in pending;
      RoundActivates(rest, activate);
      var before, after := ActivateAll(rest, activate).activated, ActivateAll(pending, activate).activated;
      if IsActivated(pending[n], activate) {
        assert after == before + [activate(pending[n].activationKey.value).value];
        assert Uuids(after) == Uuids(before) + [pending[n].uuid];
        if DistinctUuids(pending) {
          assert pending[n].uuid !in Uuids(before);
          assert forall i :: 0 <= i < |before| ==> before[i].uuid == Uuids(before)[i];
        }
      }
    }
  }

  lemma {:induction false} RemainingAre(s: seq<Licence>, activated: seq<Licence>)
    ensures forall l :: l in Remaining(s, activated) <==> l in s && l.uuid !in Uuids(activated)
    ensures DistinctUuids(s) ==> DistinctUuids(Remaining(s, activated))
  {
    if s != [] {
      var n := |s| - 1;
      var before := Remaining(s[..n], activated);
      RemainingAre(s[..n], activated);
      assert s == s[..n] + [s[n]];
      if DistinctUuids(s) {
        forall i | 0 <= i < |before|
          ensures before[i].uuid != s[n].uuid
        {
          assert before[i] in s[..n];
        }
      }
    }
  }

  /**
   When at least one activation succeeds and none raises, the activated and assigned buckets hold
   exactly the uuids of the formerly current assigned licences, each once, with the activated ones moved.
   */
  lemma RoundMovesActivatedLicences(b: Buckets, activate: string -> Option<Licence>)
    requires Current(Bucket(b, ACTIVATED)) == []
    requires var pending := Current(Bucket(b, ASSIGNED));
      && DistinctUuids(pending) && AnswersForTheSameLicence(pending, activate)
      && !ActivateAll(pending, activate).raised && ActivateAll(pending, activate).activated != []
    ensures var pending := Current(Bucket(b, ASSIGNED));
      var after := RebuiltBuckets(b, ActivateAll(pending, activate).activated);
      && DistinctUuids(Bucket(after, ACTIVATED) + Bucket(after, ASSIGNED))
      && (forall u :: u in Uuids(Bucket(after, ACTIVATED)) <==>
            exists l :: l in pending && l.uuid == u && IsActivated(l, activate))
      && (forall l :: l in Bucket(after, ASSIGNED) <==> l in pending && !IsActivated(l, activate))
  {
    var pending := Current(Bucket(b, ASSIGNED));
    var activated := ActivateAll(pending, activate).activated;
    var after := RebuiltBuckets(b, activated);
    RoundActivates(pending, activate);
    RemainingAre(pending, activated);
    assert Current(Bucket(b, ACTIVATED)) + activated == activated;
    assert Bucket(after, ACTIVATED) == activated;
    assert Bucket(after, ASSIGNED) == Remaining(pending, activated);
    forall l | l in pending
      ensures l.uuid in Uuids(activated) <==> IsActivated(l, activate)
    {
      if l.uuid in Uuids(activated) {
        var k :| k in pending && k.uuid == l.uuid && IsActivated(k, activate);
        SameUuidSameLicence(pending, k, l);
      }
    }
    var both := activated + Remaining(pending, activated);
    forall i, j | 0 <= i < j < |both|
      ensures both[i].uuid != both[j].uuid
    {
      if i < |activated| && |activated| <= j {
        assert both[j] in Remaining(pending, activated);
        assert Uuids(activated)[i] == both[i].uuid;
      }
    }
  }

  /** A round puts its licences behind the current activated ones, and touches no other bucket but the assigned one. */
  lemma RoundAddsToActivated(b: Buckets, activated: seq<Licence>, status: string)
    requires status != "assigned"
    ensures var after, all := RebuiltBuckets(b, activated), Current(Bucket(b, status)) + activated;
      if status == "activated" && all != [] then Bucket(after, status) == all
      else (status in after <==> status in b) && Bucket(after, status) == Bucket(b, status)
  {
  }

  lemma UuidIsAmong(activated: seq<Licence>, uuid: string)
    ensures uuid in Uuids(activated) <==> exists a :: a in activated && a.uuid == uuid
  {
    if a :| a in activated && a.uuid == uuid {
      var i :| 0 <= i < |activated| && activated[i] == a;
      assert Uuids(activated)[i] == uuid;
    }
  }

  /** It leaves the current licences that it did not activate in the assigned bucket, and drops an empty bucket. */
  lemma RoundKeepsTheRestAssigned(b: Buckets, activated: seq<Licence>, l: Licence)
    ensures var after := RebuiltBuckets(b, activated);
      && (l in Bucket(after, "assigned") <==>
            l in Bucket(b, "assigned") && l.current && forall a :: a in activated ==> a.uuid != l.uuid)
      && ("assigned" in after <==> Bucket(after, "assigned") != [])
  {
    RemainingAre(Current(Bucket(b, ASSIGNED)), activated);
    CurrentHolds(Bucket(b, ASSIGNED), l);
    UuidIsAmong(activated, l.uuid);
    assert Bucket(RebuiltBuckets(b, activated), ASSIGNED) == Remaining(Current(Bucket(b, ASSIGNED)), activated);
  }

  lemma SameUuidSameLicence(s: seq<Licence>, a: Licence, b: Licence)
    requires DistinctUuids(s) && a in s && b in s && a.uuid == b.uuid
    ensures a == b
  {
  }

  // ---------- the flat list ----------

  /** Every listed licence replaced by its activated form, if it has one. */
  function ReplaceOne(l: Licence, activated: seq<Licence>): Licence {
    if activated == [] then l
    else if l.uuid == activated[0].uuid then activated[0]
    else ReplaceOne(l, activated[1..])
  }

  function Replaced(licences: seq<Licence>, activated: seq<Licence>): seq<Licence> {
    seq(|licences|, i requires 0 <= i < |licences| => ReplaceOne(licences[i], activated))
  }

  /** The inner loop repeats a listed licence once for every activated licence before its own, which it appends last. */
  lemma {:induction false} RewriteRepeats(l: Licence, activated: seq<Licence>, k: nat)
    requires k <= |activated| && forall j :: 0 <= j < k ==> activated[j].uuid != l.uuid
    requires k < |activated| ==> activated[k].uuid == l.uuid
    ensures RewriteOne(l, activated) == seq(k, _ => l) + if k < |activated| then [activated[k]] else []
  {
    if activated != [] && k != 0 {
      RewriteRepeats(l, activated[1..], k - 1);
      assert seq(k, _ => l) == [l] + seq(k - 1, _ => l);
    }
  }

  /** How many entries the inner loop appends for one licence. */
  ghost function EntryCount(l: Licence, activated: seq<Licence>): nat {
    |RewriteOne(l, activated)|
  }

  lemma LastRewrite(licences: seq<Licence>, activated: seq<Licence>)
    requires activated != [] && licences != []
    ensures var n := |licences| - 1;
      1 <= EntryCount(licences[n], activated)
      && |RewriteAll(licences, activated)|
         == |RewriteAll(licences[..n], activated)| + EntryCount(licences[n], activated)
  {
    assert RewriteOne(licences[|licences| - 1], activated) != [];
  }

  lemma {:induction false} RewriteIsNoShorter(licences: seq<Licence>, activated: seq<Licence>)
    requires activated != []
    ensures |licences| <= |RewriteAll(licences, activated)|
  {
    if licences != [] {
      LastRewrite(licences, activated);
      RewriteIsNoShorter(licences[..|licences| - 1], activated);
    }
  }

  lemma LastOrBefore(s: seq<Licence>, l: Licence)
    requires l in s
    ensures l == s[|s| - 1] || l in s[..|s| - 1]
  {
  }

  /** A licence rewritten to two entries makes the whole list longer. */
  lemma {:induction false} RewriteIsLonger(licences: seq<Licence>, activated: seq<Licence>, l: Licence)
    requires activated != [] && l in licences && 2 <= EntryCount(l, activated)
    ensures |licences| < |RewriteAll(licences, activated)|
  {
    var n := |licences| - 1;
    LastRewrite(licences, activated);
    LastOrBefore(licences, l);
    if l == licences[n] {
      RewriteIsNoShorter(licences[..n], activated);
    } else {
      RewriteIsLonger(licences[..n], activated, l);
    }
  }

  lemma {:induction false} SingleRewriteReplaces(licences: seq<Licence>, activated: seq<Licence>)
    requires |activated| == 1
    ensures RewriteAll(licences, activated) == Replaced(licences, activated)
  {
    if licences != [] {
      var n := |licences| - 1;
      SingleRewriteReplaces(licences[..n], activated);
      assert activated[1..] == [];
      assert RewriteOne(licences[n], activated) == [ReplaceOne(licences[n], activated)];
      assert Replaced(licences, activated) == Replaced(licences[..n], activated) + [ReplaceOne(licences[n], activated)];
    }
  }

  /** The flat list is replaced pointwise if and only if at most one licence was activated. */
  lemma FlatListIsReplacedIffOneActivated(licences: seq<Licence>, activated: seq<Licence>)
    requires DistinctUuids(activated)
    requires forall a :: a in activated ==> a.uuid in Uuids(licences)
    ensures RewrittenList(licences, activated) == Replaced(licences, activated) <==> |activated| <= 1
  {
    if activated == [] {
      NothingRewritten(licences);
      assert Replaced(licences, []) == licences;
    } else if |activated| == 1 {
      SingleRewriteReplaces(licences, activated);
      assert RewriteAll(licences, activated) == [] ==> licences == [];
    } else {
      assert activated[1] in activated;
      var k :| 0 <= k < |licences| && Uuids(licences)[k] == activated[1].uuid;
      assert licences[k].uuid == activated[1].uuid != activated[0].uuid;
      assert activated[1..][0] == activated[1];
      assert |RewriteOne(licences[k], activated)| == 2;
      RewriteIsLonger(licences, activated, licences[k]);
    }
  }

  lemma {:induction false} NothingRewritten(licences: seq<Licence>)
    ensures RewriteAll(licences, []) == []
  {
    if licences != [] {
      NothingRewritten(licences[..|licences| - 1]);
    }
  }
}
