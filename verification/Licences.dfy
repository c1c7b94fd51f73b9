/** Subscription licences in the learner portal: grouping, the best licence, activation and auto-apply. */
module Licences {
  import opened Wrappers
  import opened StableSorting

  const ACTIVATED := "activated"
  const ASSIGNED := "assigned"
  const REVOKED := "revoked"

  datatype Licence = Licence(uuid: string, status: string, current: bool, activationKey: Option<string>, plan: string)

  type Buckets = map<string, seq<Licence>>

  // ---------- transforming the loaded licences ----------

  /** Licences of current plans first. */
  function PlanKey(l: Licence): int {
    if l.current then 0 else 1
  }

  function WithStatus(s: seq<Licence>, status: string): seq<Licence> {
    if s == [] then []
    else
      var n := |s| - 1;
      if s[n].status == status then WithStatus(s[..n], status) + [s[n]] else WithStatus(s[..n], status)
  }

  function Current(s: seq<Licence>): seq<Licence> {
    if s == [] then []
    else
      var n := |s| - 1;
      if s[n].current then Current(s[..n]) + [s[n]] else Current(s[..n])
  }

  function Statuses(s: seq<Licence>): set<string> {
    set l | l in s :: l.status
  }

  function Grouped(s: seq<Licence>): Buckets {
    map status | status in Statuses(s) :: WithStatus(s, status)
  }

  function Bucket(b: Buckets, status: string): seq<Licence> {
    if status in b then b[status] else []
  }

  /** The first licence of the first non-empty bucket in priority order. */
  function Extract(b: Buckets): Option<Licence> {
    if Bucket(b, ACTIVATED) != [] then Some(Bucket(b, ACTIVATED)[0])
    else if Bucket(b, ASSIGNED) != [] then Some(Bucket(b, ASSIGNED)[0])
    else if Bucket(b, REVOKED) != [] then Some(Bucket(b, REVOKED)[0])
    else None
  }

  method GroupByStatus(s: seq<Licence>) returns (b: Buckets)
    ensures b == Grouped(s)
  {
    b := map[];
    for i := 0 to |s|
      invariant b == Grouped(s[..i])
    {
      assert s[..i + 1] == s[..i] + [s[i]];
      assert s[..i + 1][..i] == s[..i];
      NothingWithOtherStatus(s[..i], s[i].status);
      if s[i].status !in b {
        b := b[s[i].status := []];
      }
      b := b[s[i].status := b[s[i].status] + [s[i]]];
    }
    assert s[..|s|] == s;
  }

  lemma {:induction false} NothingWithOtherStatus(s: seq<Licence>, status: string)
    ensures forall l :: l in WithStatus(s, status) <==> l in s && l.status == status
    ensures status !in Statuses(s) ==> WithStatus(s, status) == []
  {
    if s != [] {
      NothingWithOtherStatus(s[..|s| - 1], status);
      assert s == s[..|s| - 1] + [s[|s| - 1]];
    }
  }

  // ---------- activation ----------

  /** What a round of activations did: the new licences, the calls, and how it ended. */
  datatype Round = Round(activated: seq<Licence>, calls: seq<string>, errors: nat, raised: bool)

  /** Activate the licences in order; a licence without a key is skipped, an exception ends the round. */
  function ActivateAll(pending: seq<Licence>, activate: string -> Option<Licence>): Round {
    if pending == [] then Round([], [], 0, false)
    else
      var n := |pending| - 1;
      var r, l := ActivateAll(pending[..n], activate), pending[n];
      if r.raised then r
      else if !Given(l.activationKey) then r.(errors := r.errors + 1)
      else
        match activate(l.activationKey.value)
        case None => r.(calls := r.calls + [l.activationKey.value], errors := r.errors + 1, raised := true)
        case Some(a) => r.(calls := r.calls + [l.activationKey.value], activated := r.activated + [a])
  }

  /** What the round does with its k-th licence. */
  lemma ActivateStep(pending: seq<Licence>, k: nat, activate: string -> Option<Licence>)
    requires k < |pending| && !ActivateAll(pending[..k], activate).raised
    ensures var r, key := ActivateAll(pending[..k], activate), pending[k].activationKey;
      ActivateAll(pending[..k + 1], activate) ==
        if !Given(key) then r.(errors := r.errors + 1)
        else if activate(key.value).None? then
          r.(calls := r.calls + [key.value], errors := r.errors + 1, raised := true)
        else r.(calls := r.calls + [key.value], activated := r.activated + [activate(key.value).value])
  {
    assert pending[..k + 1][..k] == pending[..k];
  }

  function Uuids(s: seq<Licence>): seq<string> {
    seq(|s|, i requires 0 <= i < |s| => s[i].uuid)
  }

  /** The licences whose uuid is not among the activated ones. */
  function Remaining(s: seq<Licence>, activated: seq<Licence>): seq<Licence> {
    if s == [] then []
    else
      var n := |s| - 1;
      if s[n].uuid in Uuids(activated) then Remaining(s[..n], activated) else Remaining(s[..n], activated) + [s[n]]
  }

  function WithBucket(b: Buckets, status: string, licences: seq<Licence>): Buckets {
    if licences != [] then b[status := licences] else b - {status}
  }

  /** The buckets after a round: current activated ones plus the new ones, and what is left assigned. */
  function RebuiltBuckets(b: Buckets, activated: seq<Licence>): Buckets {
    var all := Current(Bucket(b, ACTIVATED)) + activated;
    var b' := if all != [] then b[ACTIVATED := all] else b;
    WithBucket(b', ASSIGNED, Remaining(Current(Bucket(b', ASSIGNED)), activated))
  }

  /** The entries the inner loop appends for one listed licence. */
  function RewriteOne(l: Licence, activated: seq<Licence>): seq<Licence> {
    if activated == [] then []
    else if l.uuid == activated[0].uuid then [activated[0]]
    else [l] + RewriteOne(l, activated[1..])
  }

  function RewriteAll(licences: seq<Licence>, activated: seq<Licence>): seq<Licence> {
    if licences == [] then []
    else
      var n := |licences| - 1;
      RewriteAll(licences[..n], activated) + RewriteOne(licences[n], activated)
  }

  /** The flat list after a round; an empty rewrite is not stored. */
  function RewrittenList(licences: seq<Licence>, activated: seq<Licence>): seq<Licence> {
    if RewriteAll(licences, activated) != [] then RewriteAll(licences, activated) else licences
  }

  // ---------- auto-apply ----------

  datatype Agreement = Agreement(autoApplySubscription: bool, netDaysUntilExpiration: int, universalLink: bool)

  /** What the request context and the license manager contribute. */
  datatype Surroundings = Surroundings(
    linked: bool, identityProvider: bool, agreement: Option<Agreement>,
    activate: string -> Option<Licence>, autoApplied: Option<Licence>)

  predicate EligibleForAutoApply(x: Surroundings) {
    && x.agreement.Some?
    && x.agreement.value.autoApplySubscription && 0 < x.agreement.value.netDaysUntilExpiration
    && (x.identityProvider || x.agreement.value.universalLink)
  }

  // ---------- the context data ----------

  datatype Subscriptions = Subscriptions(licences: seq<Licence>, byStatus: Buckets, best: Option<Licence>)

  function Transformed(results: seq<Licence>): Subscriptions {
    var b := Grouped(Sort(results, PlanKey));
    Subscriptions(results, b, Extract(b))
  }

  /** The data and the side effects of one pass. */
  datatype Pass = Pass(data: Subscriptions, activationCalls: seq<string>, autoApplyCalls: nat, errors: nat)

  function Activated(p: Pass, x: Surroundings): Pass {
    var r := ActivateAll(Current(Bucket(p.data.byStatus, ASSIGNED)), x.activate);
    var called := p.(activationCalls := p.activationCalls + r.calls, errors := p.errors + r.errors);
    if r.raised then called
    else
      var b := RebuiltBuckets(p.data.byStatus, r.activated);
      called.(data := Subscriptions(RewrittenList(p.data.licences, r.activated), b, Extract(b)))
  }

  function AutoApplied(p: Pass, x: Surroundings): Pass {
    if p.data.licences != [] || !x.linked || !EligibleForAutoApply(x) then p
    else
      match x.autoApplied
      case None => p.(autoApplyCalls := p.autoApplyCalls + 1, errors := p.errors + 1)
      case Some(l) =>
        p.(autoApplyCalls := p.autoApplyCalls + 1,
           data := Subscriptions(p.data.licences + [l], p.data.byStatus[ACTIVATED := [l]], Some(l)))
  }

  function Processed(p: Pass, x: Surroundings): Pass {
    if Current(Bucket(p.data.byStatus, ACTIVATED)) != [] then p
    else AutoApplied(Activated(p, x), x)
  }

  lemma {:induction false} RaisedStaysRaised(pending: seq<Licence>, k: nat, activate: string -> Option<Licence>)
    requires k <= |pending| && ActivateAll(pending[..k], activate).raised
    ensures ActivateAll(pending, activate) == ActivateAll(pending[..k], activate)
  {
    if k < |pending| {
      assert pending[..|pending| - 1][..k] == pending[..k];
      RaisedStaysRaised(pending[..|pending| - 1], k, activate);
    } else {
      assert pending[..k] == pending;
    }
  }

  /** The nested loop over the flat list. */
  method RewriteLicences(licences: seq<Licence>, activated: seq<Licence>) returns (updated: seq<Licence>)
    ensures updated == RewriteAll(licences, activated)
  {
    updated := [];
    for k := 0 to |licences|
      invariant updated == RewriteAll(licences[..k], activated)
    {
      assert licences[..k + 1][..k] == licences[..k];
      ghost var before := updated;
      var j := 0;
      while j < |activated|
        invariant 0 <= j <= |activated|
        invariant updated + RewriteOne(licences[k], activated[j..]) == before + RewriteOne(licences[k], activated)
        decreases |activated| - j
      {
        assert activated[j..][1..] == activated[j + 1..];
        if licences[k].uuid == activated[j].uuid {
          updated := updated + [activated[j]];
          break;
        }
        updated := updated + [licences[k]];
        j := j + 1;
      }
      assert updated == before + RewriteOne(licences[k], activated);
    }
    assert licences[..|licences|] == licences;
  }

  class LearnerPortalHandler {
    var licences: seq<Licence>
    var byStatus: Buckets
    var best: Option<Licence>
    var activationCalls: seq<string>
    var autoApplyCalls: nat
    var errors: nat

    function State(): Pass
      reads this
    {
      Pass(Subscriptions(licences, byStatus, best), activationCalls, autoApplyCalls, errors)
    }

    constructor ()
      ensures State() == Pass(Subscriptions([], map[], None), [], 0, 0)
    {
      licences, byStatus, best := [], map[], None;
      activationCalls, autoApplyCalls, errors := [], 0, 0;
    }

    method LoadSubscriptionLicenses(results: seq<Licence>)
      modifies this
      ensures State() == old(State()).(data := Transformed(results))
    {
      var ordered := Sort(results, PlanKey);
      licences := results;
      byStatus := GroupByStatus(ordered);
      best := Extract(byStatus);
    }

    method ProcessSubscriptionLicenses(x: Surroundings)
      modifies this
      ensures State() == Processed(old(State()), x)
    {
      if Current(Bucket(byStatus, ACTIVATED)) != [] {
        return;
      }
      CheckAndActivateAssignedLicense(x);
      CheckAndAutoApplyLicense(x);
    }

    method CheckAndActivateAssignedLicense(x: Surroundings)
      modifies this
      ensures State() == Activated(old(State()), x)
    {
      var pending := Current(Bucket(byStatus, ASSIGNED));
      ghost var calls0, errors0 := activationCalls, errors;
      var activated: seq<Licence> := [];
      for k := 0 to |pending|
        invariant var r := ActivateAll(pending[..k], x.activate);
          && r.activated == activated && !r.raised
          && activationCalls == calls0 + r.calls && errors == errors0 + r.errors
        invariant licences == old(licences) && byStatus == old(byStatus) && best == old(best)
        invariant autoApplyCalls == old(autoApplyCalls)
      {
        ActivateStep(pending, k, x.activate);
        var key := pending[k].activationKey;
        if Given(key) {
          activationCalls := activationCalls + [key.value];
          var answer := x.activate(key.value);
          if answer.None? {
            errors := errors + 1;
            RaisedStaysRaised(pending, k + 1, x.activate);
            return;
          }
          activated := activated + [answer.value];
        } else {
          errors := errors + 1;
        }
      }
      assert pending[..|pending|] == pending;
      UpdateContext(activated);
    }

    /** Rebuild the buckets, the flat list and the best licence from the activated licences. */
    method UpdateContext(activated: seq<Licence>)
      modifies this
      ensures byStatus == RebuiltBuckets(old(byStatus), activated) && best == Extract(byStatus)
      ensures licences == RewrittenList(old(licences), activated)
      ensures activationCalls == old(activationCalls) && autoApplyCalls == old(autoApplyCalls) && errors == old(errors)
    {
      var all := Current(Bucket(byStatus, ACTIVATED)) + activated;
      if all != [] {
        byStatus := byStatus[ACTIVATED := all];
      }
      var remaining := Remaining(Current(Bucket(byStatus, ASSIGNED)), activated);
      if remaining != [] {
        byStatus := byStatus[ASSIGNED := remaining];
      } else {
        byStatus := byStatus - {ASSIGNED};
      }
      var updated := RewriteLicences(licences, activated);
      if updated != [] {
        licences := updated;
      }
      best := Extract(byStatus);
    }

    method CheckAndAutoApplyLicense(x: Surroundings)
      modifies this
      ensures State() == AutoApplied(old(State()), x)
    {
      if licences != [] || !x.linked || !EligibleForAutoApply(x) {
        return;
      }
      autoApplyCalls := autoApplyCalls + 1;
      match x.autoApplied {
        case None =>
          errors := errors + 1;
        case Some(l) =>
          licences := licences + [l];
          byStatus := byStatus[ACTIVATED := [l]];
          best := Some(l);
      }
    }
  }
}
