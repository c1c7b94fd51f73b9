/** The daily sweep that retires the email of learners whose assignment timed out. */
module PiiSweep {
  import opened Wrappers
  import opened Assignments
  import opened AssignmentLifecycle
  import opened Expiry
  import opened Positions

  const RETIRED_PREFIX := "retired_user"

  predicate IsRetired(email: string) {
    RETIRED_PREFIX <= email
  }

  /** What the sweep looks up about a row besides its columns. */
  datatype SweepContext = SweepContext(emailSent: bool, expiry: ExpiryContext)

  predicate Eligible(row: Assignment, config: nat) {
    row.config == config && row.state.Expired? && row.expiredAt.Some? && !IsRetired(row.email)
  }

  /** Only after the expiration email, and only when the 90-day timeout is the reason. */
  function ShouldClear(row: Assignment, x: SweepContext, now: int): bool {
    x.emailSent && AutomaticExpiration(SubjectOf(row, x.expiry), now).reason.NinetyDaysPassed?
  }

  /** Everything one sweep reads from outside the table; nonces make the retired emails. */
  datatype Sweep = Sweep(contexts: seq<SweepContext>, nonces: seq<string>, now: int)

  function RetiredEmail(nonce: string): string {
    RETIRED_PREFIX + nonce + "@retired.invalid"
  }

  function Fits(s: Sweep, t: Table): bool {
    |s.contexts| == |t| && |s.nonces| == |t|
  }

  /** The eligible rows of one configuration among the first n. */
  function Queue(t: Table, n: nat, config: nat): (ids: seq<nat>)
    requires n <= |t|
    ensures Within(ids, n) && Increasing(ids)
    ensures forall i: nat :: i in ids <==> i < n && Eligible(t[i], config)
  {
    if n == 0 then []
    else if Eligible(t[n - 1], config) then Queue(t, n - 1, config) + [n - 1]
    else Queue(t, n - 1, config)
  }

  /** The eligible rows of all given configurations, one configuration after the other. */
  function QueueAll(t: Table, configs: seq<nat>): (ids: seq<nat>)
    ensures Within(ids, |t|)
    ensures forall i: nat :: i in ids ==> i < |t| && t[i].config in configs && Eligible(t[i], t[i].config)
  {
    if configs == [] then []
    else
      var n := |configs| - 1;
      assert configs == configs[..n] + [configs[n]];
      QueueAll(t, configs[..n]) + Queue(t, |t|, configs[n])
  }

  function Verdicts(t: Table, s: Sweep): (v: seq<bool>)
    requires Fits(s, t)
    ensures |v| == |t|
  {
    seq(|t|, i requires 0 <= i < |t| => ShouldClear(t[i], s.contexts[i], s.now))
  }

  /** The positions with one verdict, in order. */
  function Chosen(verdicts: seq<bool>, ids: seq<nat>, clear: bool): (r: seq<nat>)
    requires Within(ids, |verdicts|)
    ensures Within(r, |verdicts|)
  {
    if ids == [] then []
    else
      var n := |ids| - 1;
      var rest := Chosen(verdicts, ids[..n], clear);
      if verdicts[ids[n]] == clear then rest + [ids[n]] else rest
  }

  lemma {:induction false} ChosenHaveTheVerdict(verdicts: seq<bool>, ids: seq<nat>, clear: bool)
    requires Within(ids, |verdicts|)
    ensures forall i: nat :: i in Chosen(verdicts, ids, clear) <==> i in ids && i < |verdicts| && verdicts[i] == clear
  {
    if ids != [] {
      var n := |ids| - 1;
      assert ids == ids[..n] + [ids[n]];
      ChosenHaveTheVerdict(verdicts, ids[..n], clear);
    }
  }

  /** The rows one sweep clears, or skips. */
  function SweptIds(t: Table, s: Sweep, configs: seq<nat>, clear: bool): seq<nat>
    requires Fits(s, t)
  {
    Chosen(Verdicts(t, s), QueueAll(t, configs), clear)
  }

  /** The table once the given rows have been cleared. */
  function ClearedTable(t: Table, s: Sweep, ids: seq<nat>): Table
    requires Fits(s, t)
  {
    seq(|t|, i requires 0 <= i < |t| => if i in ids then ClearPii(t[i], RetiredEmail(s.nonces[i])) else t[i])
  }

  datatype Summary = Summary(clearedCount: nat, skippedCount: nat, cleared: seq<nat>, dryRun: bool)

  /** Clearing the rows of other configurations does not change what is eligible here. */
  lemma {:induction false} SameQueue(t: Table, u: Table, n: nat, config: nat)
    requires |t| == |u| && n <= |t|
    requires forall i :: 0 <= i < n ==> (Eligible(t[i], config) <==> Eligible(u[i], config))
    ensures Queue(t, n, config) == Queue(u, n, config)
  {
    if n != 0 {
      SameQueue(t, u, n - 1, config);
    }
  }

  /** What one more queued row adds to the sweep. */
  lemma NextChosen(verdicts: seq<bool>, done: seq<nat>, i: nat)
    requires Within(done, |verdicts|) && i < |verdicts|
    ensures Within(done + [i], |verdicts|)
    ensures Chosen(verdicts, done + [i], verdicts[i]) == Chosen(verdicts, done, verdicts[i]) + [i]
    ensures Chosen(verdicts, done + [i], !verdicts[i]) == Chosen(verdicts, done, !verdicts[i])
  {
    assert (done + [i])[..|done|] == done;
  }

  lemma ClearOneMore(t: Table, s: Sweep, cleared: seq<nat>, i: nat)
    requires Fits(s, t) && i < |t| && i !in cleared
    ensures ClearedTable(t, s, cleared)[i] == t[i]
    ensures ClearedTable(t, s, cleared + [i])
         == ClearedTable(t, s, cleared)[i := ClearPii(t[i], RetiredEmail(s.nonces[i]))]
  {
  }

  /** The state of a sweep after the earlier rows and the first k queued ones. */
  ghost predicate SweptSoFar(t: Table, s: Sweep, earlier: seq<nat>, queue: seq<nat>, k: nat,
                             rows: Table, cleared: seq<nat>, skipped: nat, dryRun: bool)
  {
    && Fits(s, t) && k <= |queue| && Within(earlier + queue[..k], |t|)
    && cleared == Chosen(Verdicts(t, s), earlier + queue[..k], true)
    && skipped == |Chosen(Verdicts(t, s), earlier + queue[..k], false)|
    && rows == if dryRun then t else ClearedTable(t, s, cleared)
  }

  /** The k-th queued row, not met before, is either cleared or skipped. */
  lemma SweptStep(t: Table, s: Sweep, earlier: seq<nat>, queue: seq<nat>, k: nat,
                  rows: Table, cleared: seq<nat>, skipped: nat, dryRun: bool)
    requires SweptSoFar(t, s, earlier, queue, k, rows, cleared, skipped, dryRun)
    requires k < |queue| && Increasing(queue) && queue[k] < |t| && queue[k] !in earlier
    ensures queue[k] < |rows| == |t| && rows[queue[k]] == t[queue[k]]
    ensures var i := queue[k];
      if ShouldClear(rows[i], s.contexts[i], s.now) then
        var next := if dryRun then rows else rows[i := ClearPii(rows[i], RetiredEmail(s.nonces[i]))];
        SweptSoFar(t, s, earlier, queue, k + 1, next, cleared + [i], skipped, dryRun)
      else SweptSoFar(t, s, earlier, queue, k + 1, rows, cleared, skipped + 1, dryRun)
  {
    var done, i := earlier + queue[..k], queue[k];
    assert i !in done;
    assert earlier + queue[..k + 1] == done + [i];
    NextChosen(Verdicts(t, s), done, i);
    ChosenHaveTheVerdict(Verdicts(t, s), done, true);
    ClearOneMore(t, s, cleared, i);
  }

  /** The queue of the next configuration is the same whether or not the earlier ones were swept. */
  lemma NextQueue(t: Table, s: Sweep, configs: seq<nat>, config: nat)
    requires Fits(s, t) && config !in configs
    ensures forall k :: 0 <= k < |Queue(t, |t|, config)| ==> Queue(t, |t|, config)[k] !in QueueAll(t, configs)
    ensures Queue(ClearedTable(t, s, SweptIds(t, s, configs, true)), |t|, config) == Queue(t, |t|, config)
  {
    var done, cleared := QueueAll(t, configs), SweptIds(t, s, configs, true);
    forall k | 0 <= k < |Queue(t, |t|, config)|
      ensures Queue(t, |t|, config)[k] !in done
    {
      assert Queue(t, |t|, config)[k] in Queue(t, |t|, config);
    }
    ChosenHaveTheVerdict(Verdicts(t, s), done, true);
    SameQueue(ClearedTable(t, s, cleared), t, |t|, config);
  }

  /** Every queued row is either cleared or skipped. */
  lemma {:induction false} ClearedPlusSkipped(verdicts: seq<bool>, ids: seq<nat>)
    requires Within(ids, |verdicts|)
    ensures multiset(Chosen(verdicts, ids, true)) + multiset(Chosen(verdicts, ids, false)) == multiset(ids)
    ensures |Chosen(verdicts, ids, true)| + |Chosen(verdicts, ids, false)| == |ids|
  {
    if ids != [] {
      var n := |ids| - 1;
      assert ids == ids[..n] + [ids[n]];
      ClearedPlusSkipped(verdicts, ids[..n]);
    }
  }

  /** The queue holds exactly the eligible rows of distinct configurations, each once. */
  lemma {:induction false} QueueHoldsEligibleRowsOnce(t: Table, configs: seq<nat>)
    requires Distinct(configs)
    ensures forall i: nat :: i < |t| && t[i].config in configs && Eligible(t[i], t[i].config) ==>
      i in QueueAll(t, configs)
    ensures Distinct(QueueAll(t, configs))
  {
    if configs != [] {
      var n := |configs| - 1;
      assert configs == configs[..n] + [configs[n]];
      QueueHoldsEligibleRowsOnce(t, configs[..n]);
      var before, here := QueueAll(t, configs[..n]), Queue(t, |t|, configs[n]);
      forall j, k | 0 <= j < |before| && 0 <= k < |here|
        ensures before[j] != here[k]
      {
        assert before[j] in before && here[k] in here;
      }
    }
  }

  /** A later sweep, whatever it reads, clears none of the rows an earlier real sweep cleared. */
  lemma ClearedRowsAreNotClearedAgain(t: Table, configs: seq<nat>, s: Sweep, later: Sweep, again: seq<nat>, i: nat)
    requires Fits(s, t) && Fits(later, t) && i in SweptIds(t, s, configs, true)
    ensures var after := ClearedTable(t, s, SweptIds(t, s, configs, true));
      i !in QueueAll(after, again) && i !in SweptIds(after, later, again, true)
  {
    var after := ClearedTable(t, s, SweptIds(t, s, configs, true));
    ChosenHaveTheVerdict(Verdicts(t, s), QueueAll(t, configs), true);
    ChosenHaveTheVerdict(Verdicts(after, later), QueueAll(after, again), true);
    assert after[i].email == RetiredEmail(s.nonces[i]);
    assert IsRetired(after[i].email);
  }

  // ---------- which rows are swept ----------

  /** The ninety days end strictly before the subsidy and before the enrollment deadline, as far as there are any. */
  ghost predicate TimesOutFirst(row: Assignment, x: ExpiryContext, now: int) {
    var s := Subject(row.allocatedAt, row.preferredRun, x.fromCreditRequest, x.subsidyExpiration, x.metadata);
    && (x.subsidyExpiration.Some? ==> row.allocatedAt + 7776000 < x.subsidyExpiration.value)
    && forall d :: IsEnrollmentDeadline(s, now, Some(d)) ==> row.allocatedAt + 7776000 < d
  }

  /** An expired row whose learner was told, whose email is not retired yet, and which timed out first. */
  ghost predicate IsToBeSwept(row: Assignment, x: SweepContext, configs: seq<nat>, now: int) {
    && row.config in configs && row.state == AssignmentState.Expired && row.expiredAt.Some?
    && !("retired_user" <= row.email)
    && x.emailSent && TimesOutFirst(row, x.expiry, now)
  }

  lemma TimeoutIsTheReasonIff(row: Assignment, x: ExpiryContext, now: int)
    ensures AutomaticExpiration(SubjectOf(row, x), now).reason.NinetyDaysPassed? <==> TimesOutFirst(row, x, now)
  {
    var s := SubjectOf(row, x);
    ExpirationIsTheEarliestDate(s, now);
    StrategiesFindTheDeadline(s, now);
    forall d | IsEnrollmentDeadline(s, now, Some(d))
      ensures EnrollmentDeadline(s, now) == Some(d)
    {
      DeadlineIsUnique(s, now, Some(d), EnrollmentDeadline(s, now));
    }
  }

  /** A sweep replaces the email of exactly the rows to be swept, by a retired one, and changes nothing else. */
  lemma SweepClearsIff(t: Table, s: Sweep, configs: seq<nat>, i: nat)
    requires Fits(s, t) && Distinct(configs) && i < |t|
    ensures i in SweptIds(t, s, configs, true) <==> IsToBeSwept(t[i], s.contexts[i], configs, s.now)
    ensures ClearedTable(t, s, SweptIds(t, s, configs, true))[i] ==
      if IsToBeSwept(t[i], s.contexts[i], configs, s.now)
      then t[i].(email := "retired_user" + s.nonces[i] + "@retired.invalid") else t[i]
  {
    ChosenHaveTheVerdict(Verdicts(t, s), QueueAll(t, configs), true);
    QueueHoldsEligibleRowsOnce(t, configs);
    TimeoutIsTheReasonIff(t[i], s.contexts[i].expiry, s.now);
  }
}
