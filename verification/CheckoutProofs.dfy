/** Reservations stay exclusive and states follow the table, over whole runs. */
module CheckoutProofs {
  import opened Wrappers
  import opened CheckoutIntents

  // ---------- invariants ----------

  /** Two intents that hold the same non-empty slug or name. */
  ghost predicate Share(a: Intent, b: Intent) {
    || (a.slug.Some? && a.slug.value != "" && a.slug == b.slug)
    || (a.name.Some? && a.name.value != "" && a.name == b.name)
  }

  /** No two non-expired intents share a slug or a name. */
  ghost predicate Exclusive(m: Intents) {
    forall u, v :: u in m && v in m && u != v && !m[u].state.Expired? && !m[v].state.Expired? ==> !Share(m[u], m[v])
  }

  /** Every intent has both a slug and a name, or neither. */
  ghost predicate Paired(m: Intents) {
    forall u :: u in m ==>
      (m[u].slug.Some? && m[u].slug.value != "" <==> m[u].name.Some? && m[u].name.value != "")
  }

  /** An intent with a workflow has been paid. */
  ghost predicate LinkedArePaid(m: Intents) {
    forall u :: u in m && m[u].workflow.Some? ==> !m[u].state.Created? && !m[u].state.Expired?
  }

  ghost predicate WorkflowsUnique(m: Intents) {
    forall u, v :: u in m && v in m && u != v && m[u].workflow.Some? ==> m[u].workflow != m[v].workflow
  }

  ghost predicate Inv(m: Intents) {
    Exclusive(m) && Paired(m) && LinkedArePaid(m) && WorkflowsUnique(m)
  }

  // ---------- the conflict rule ----------

  /** Another user's live reservation has this slug or this name. */
  ghost predicate TakenByAnother(m: Intents, r: Reservation, now: int) {
    exists v :: v in m && v != r.user && IsLive(m[v], now) && Names(m[v], r)
  }

  /** Neither expired nor an overdue reservation. */
  predicate IsLive(i: Intent, now: int) {
    i.state != IntentState.Expired && !(i.state == Created && i.expiresAt <= now)
  }

  predicate Names(i: Intent, r: Reservation) {
    || (r.slug.Some? && r.slug.value != "" && i.slug == r.slug)
    || (r.name.Some? && r.name.value != "" && i.name == r.name)
  }

  /** A slug is requested that the user's intent does not hold together with the requested name. */
  predicate AsksForNewPair(m: Intents, r: Reservation) {
    && r.slug.Some? && r.slug.value != ""
    && (r.user in m ==> m[r.user].slug != r.slug || m[r.user].name != r.name)
  }

  predicate PairIsGiven(r: Reservation) {
    (r.slug.Some? && r.slug.value != "") <==> (r.name.Some? && r.name.value != "")
  }

  predicate HasState(m: Intents, user: UserId, states: set<IntentState>) {
    user in m && m[user].state in states
  }

  /**
   create_intent fails exactly so: half a pair is given; or the user's intent has failed; or, for a user without a
   paid or failed intent, a new pair is asked for and another user's live reservation has its slug or its name.
   */
  lemma CreateFailsIff(m: Intents, r: Reservation, now: int)
    ensures CreateIntent(m, r, now) == Failure(IncompletePair) <==> !PairIsGiven(r)
    ensures CreateIntent(m, r, now) == Failure(FailedCheckoutIntentConflict) <==>
      PairIsGiven(r)
      && HasState(m, r.user, {ErroredBackoffice, ErroredFulfillmentStalled, ErroredProvisioning})
    ensures CreateIntent(m, r, now) == Failure(SlugReservationConflict) <==>
      PairIsGiven(r) && AsksForNewPair(m, r) && TakenByAnother(m, r, now)
      && !HasState(m, r.user, {Paid, Fulfilled, ErroredBackoffice, ErroredFulfillmentStalled, ErroredProvisioning})
  {
    var swept := Swept(m, now);
    if TakenByAnother(m, r, now) {
      var v :| v in m && v != r.user && IsLive(m[v], now) && Names(m[v], r);
      assert Blocks(swept, v, r.slug, r.name, Some(r.user));
    } else {
      forall u | u in swept
        ensures !Blocks(swept, u, r.slug, r.name, Some(r.user))
      {
        assert u != r.user && IsLive(m[u], now) ==> !Names(m[u], r);
      }
    }
  }

  /** After a successful reservation no reservation is overdue and pairs are still complete. */
  lemma SuccessLeavesNothingOverdue(m: Intents, r: Reservation, now: int)
    requires CreateIntent(m, r, now).Success?
    ensures forall u :: u in CreateIntent(m, r, now).value && CreateIntent(m, r, now).value[u].state == Created ==>
      now < CreateIntent(m, r, now).value[u].expiresAt
    ensures Paired(m) ==> Paired(CreateIntent(m, r, now).value)
    ensures CreateIntent(m, r, now).value.Keys == m.Keys + {r.user}
  {
  }

  // ---------- exclusivity ----------

  /** Reviving an expired intent with its old pair, which someone else has reserved meanwhile. */
  ghost predicate RevivesTakenPair(m: Intents, r: Reservation, now: int) {
    var swept := Swept(m, now);
    var own := Own(swept, r.user);
    && own.Some? && own.value.state.Expired? && !MustReserve(own, r)
    && !CanReserve(swept, own.value.slug, own.value.name, Some(r.user))
  }

  lemma SweepKeepsInv(m: Intents, now: int)
    requires Inv(m)
    ensures Inv(Swept(m, now))
  {
    SameHoldersKeepInv(m, Swept(m, now));
  }

  /** Changing nothing but states and texts, from created to expired or from paid to stalled, keeps the invariant. */
  lemma SameHoldersKeepInv(m: Intents, next: Intents)
    requires Inv(m) && next.Keys == m.Keys
    requires forall u :: u in m ==>
      next[u].slug == m[u].slug && next[u].name == m[u].name && next[u].workflow == m[u].workflow
    requires forall u :: u in m ==>
      next[u].state == m[u].state || (m[u].state == Created && next[u].state == IntentState.Expired)
      || (m[u].state == Paid && next[u].state == ErroredFulfillmentStalled)
    ensures Inv(next)
  {
    forall u, v | u in next && v in next && u != v && !next[u].state.Expired? && !next[v].state.Expired?
      ensures !Share(next[u], next[v])
    {
      assert !Share(m[u], m[v]);
    }
  }

  /** What the user's intent holds after a successful reservation. */
  lemma ReservedPair(m: Intents, r: Reservation, now: int)
    requires CreateIntent(m, r, now).Success?
    ensures var own := Own(Swept(m, now), r.user);
      (own.Some? && IsSuccess(own.value.state) ==> CreateIntent(m, r, now).value == Swept(m, now))
    ensures var swept, own := Swept(m, now), Own(Swept(m, now), r.user);
      var next := CreateIntent(m, r, now).value;
      !(own.Some? && IsSuccess(own.value.state)) ==>
        && r.user in next
        && next == swept[r.user := next[r.user]]
        && next[r.user].state.Created?
        && (MustReserve(own, r) ==>
             next[r.user].slug == r.slug && next[r.user].name == r.name
             && CanReserve(swept, r.slug, r.name, Some(r.user)))
        && (!MustReserve(own, r) && own.Some? ==>
             next[r.user].slug == own.value.slug && next[r.user].name == own.value.name)
        && (!MustReserve(own, r) && own.None? ==> !Given(next[r.user].slug) && !Given(next[r.user].name))
  {
  }

  /** Writing one intent keeps exclusivity exactly when no other active intent holds its pair. */
  lemma OneReservation(m: Intents, user: UserId, i: Intent)
    requires Exclusive(m) && !i.state.Expired?
    ensures Exclusive(m[user := i]) <==> CanReserve(m, i.slug, i.name, Some(user))
  {
    var next := m[user := i];
    if Exclusive(next) {
      forall u | u in m
        ensures !Blocks(m, u, i.slug, i.name, Some(user))
      {
        if u != user && !m[u].state.Expired? {
          assert !Share(next[u], next[user]);
        }
      }
    }
    if CanReserve(m, i.slug, i.name, Some(user)) {
      forall u, v | u in next && v in next && u != v && !next[u].state.Expired? && !next[v].state.Expired?
        ensures !Share(next[u], next[v])
      {
        if v == user {
          assert !Blocks(m, u, i.slug, i.name, Some(user));
        } else if u == user {
          assert !Blocks(m, v, i.slug, i.name, Some(user));
        } else {
          assert !Share(m[u], m[v]);
        }
      }
    }
  }

  /** A successful create_intent keeps reservations exclusive unless, and only unless, it revives a taken pair. */
  lemma CreateKeepsExclusiveIff(m: Intents, r: Reservation, now: int)
    requires Exclusive(m) && CreateIntent(m, r, now).Success?
    ensures Exclusive(CreateIntent(m, r, now).value) <==> !RevivesTakenPair(m, r, now)
  {
    var swept, own := Swept(m, now), Own(Swept(m, now), r.user);
    var next := CreateIntent(m, r, now).value;
    ReservedPair(m, r, now);
    assert Exclusive(swept);
    if !(own.Some? && IsSuccess(own.value.state)) {
      OneReservation(swept, r.user, next[r.user]);
      if !MustReserve(own, r) && own.Some? && !own.value.state.Expired? {
        assert swept[r.user := own.value] == swept;
        OneReservation(swept, r.user, own.value);
      }
    }
  }

  lemma CreateKeepsInv(m: Intents, r: Reservation, now: int)
    requires Inv(m) && CreateIntent(m, r, now).Success? && !RevivesTakenPair(m, r, now)
    ensures Inv(CreateIntent(m, r, now).value)
  {
    CreateKeepsExclusiveIff(m, r, now);
    SuccessLeavesNothingOverdue(m, r, now);
    SweepKeepsInv(m, now);
  }

  /** The session path checks both names before reserving, so it never revives a taken pair. */
  lemma ValidatedSessionsReviveNothingTaken(m: Intents, q: SessionRequest, now: int)
    requires q.Coherent() && Validates(m, q)
    ensures !RevivesTakenPair(m, q.AsReservation(), now)
  {
    var swept, r := Swept(m, now), q.AsReservation();
    forall u | u in swept
      ensures !Blocks(swept, u, r.slug, r.name, Some(r.user))
    {
      assert !Blocks(m, u, Some(q.slug), None, q.validatorUser);
      assert !Blocks(m, u, None, Some(q.name), q.validatorUser);
    }
  }

  lemma SessionKeepsInv(m: Intents, q: SessionRequest, now: int)
    requires Inv(m) && q.Coherent()
    ensures Inv(CreateSession(m, q, now))
  {
    if Validates(m, q) && CreateIntent(m, q.AsReservation(), now).Success? {
      ValidatedSessionsReviveNothingTaken(m, q, now);
      CreateKeepsInv(m, q.AsReservation(), now);
      var next := CreateIntent(m, q.AsReservation(), now).value;
      if q.stripe.Some? {
        SameReservationKeepsInv(next, q.user, WithStripeIds(next[q.user], q.stripe.value.0, q.stripe.value.1, now));
      }
    }
  }

  /** Changing an intent without touching its pair, its workflow or whether it is active. */
  lemma SameReservationKeepsInv(m: Intents, user: UserId, i: Intent)
    requires Inv(m) && user in m
    requires i.slug == m[user].slug && i.name == m[user].name
    requires i.state == m[user].state && i.workflow == m[user].workflow
    ensures Inv(m[user := i])
  {
    PaidChangeKeepsInv(m, user, i);
  }

  /** An active intent may change state among the active ones, and take a free workflow once paid. */
  lemma PaidChangeKeepsInv(m: Intents, user: UserId, i: Intent)
    requires Inv(m) && user in m
    requires i.slug == m[user].slug && i.name == m[user].name
    requires m[user].state.Expired? ==> i.state.Expired?
    requires i.workflow.Some? ==> !i.state.Created? && !i.state.Expired? && WorkflowFree(m, user, i.workflow)
    ensures Inv(m[user := i])
  {
    var next := m[user := i];
    forall u, v | u in next && v in next && u != v && !next[u].state.Expired? && !next[v].state.Expired?
      ensures !Share(next[u], next[v])
    {
      assert !Share(m[u], m[v]);
    }
  }

  lemma MarkKeepsInv(m: Intents, user: UserId, k: Mark, now: int)
    requires Inv(m)
    ensures Inv(MarkIntent(m, user, k, now))
  {
    if user in m && CanMark(m[user], k) && WorkflowFree(m, user, NewWorkflow(k)) {
      PaidChangeKeepsInv(m, user, Marked(m[user], k, now));
    }
  }

  /** An update request opens an expired intent whose pair someone else has reserved meanwhile. */
  ghost predicate ReopensTakenPair(m: Intents, user: UserId, state: IntentState) {
    && user in m && m[user].state.Expired? && state.Created?
    && !CanReserve(m, m[user].slug, m[user].name, Some(user))
  }

  /** An update request keeps reservations exclusive if and only if it does not reopen a taken pair. */
  lemma PatchKeepsExclusiveIff(m: Intents, user: UserId, state: IntentState, now: int)
    requires Exclusive(m)
    ensures Exclusive(PatchState(m, user, state, now)) <==> !ReopensTakenPair(m, user, state)
  {
    if user in m && IsValidStateTransition(m[user].state, state) {
      var i := m[user].(state := state, modified := now);
      if !state.Expired? {
        OneReservation(m, user, i);
        if !m[user].state.Expired? {
          assert m[user := m[user]] == m;
          OneReservation(m, user, m[user]);
        }
      }
    }
  }

  lemma PatchKeepsInv(m: Intents, user: UserId, state: IntentState, now: int)
    requires Inv(m) && !ReopensTakenPair(m, user, state)
    ensures Inv(PatchState(m, user, state, now))
  {
    PatchKeepsExclusiveIff(m, user, state, now);
  }

  // ---------- runs ----------

  datatype Step =
    | CreateStep(r: Reservation, now: int)
    | SessionStep(q: SessionRequest, now: int)
    | SweepStep(now: int)
    | StallStep(threshold: nat, now: int)
    | MarkStep(user: UserId, k: Mark, now: int)
    | LinkStep(user: UserId, slug: string, workflow: nat, enterprise: string, now: int)
    | ErrorStep(user: UserId, workflow: nat, message: string, now: int)
    | FulfillStep(user: UserId, workflow: nat, now: int)
    | PatchStep(user: UserId, state: IntentState, now: int)

  function Apply(m: Intents, s: Step): Intents {
    match s
    case CreateStep(r, now) => if CreateIntent(m, r, now).Success? then CreateIntent(m, r, now).value else m
    case SessionStep(q, now) => CreateSession(m, q, now)
    case SweepStep(now) => Swept(m, now)
    case StallStep(threshold, now) => StallSwept(m, threshold, now)
    case MarkStep(u, k, now) => MarkIntent(m, u, k, now)
    case LinkStep(u, slug, w, e, now) => LinkIntent(m, u, slug, w, e, now)
    case ErrorStep(u, w, message, now) => ErrorLinked(m, u, w, message, now)
    case FulfillStep(u, w, now) => FulfillLinked(m, u, w, now)
    case PatchStep(u, state, now) => PatchState(m, u, state, now)
  }

  function Run(m: Intents, steps: seq<Step>): Intents {
    if steps == [] then m else Apply(Run(m, steps[..|steps| - 1]), steps[|steps| - 1])
  }

  /** The two ways out: a direct create_intent, or an update request, that revives a taken pair. */
  ghost predicate Careful(m: Intents, s: Step) {
    match s
    case CreateStep(r, now) => !RevivesTakenPair(m, r, now)
    case SessionStep(q, _) => q.Coherent()
    case PatchStep(u, state, _) => !ReopensTakenPair(m, u, state)
    case _ => true
  }

  lemma StepKeepsInv(m: Intents, s: Step)
    requires Inv(m) && Careful(m, s)
    ensures Inv(Apply(m, s))
  {
    match s {
      case CreateStep(r, now) => if CreateIntent(m, r, now).Success? { CreateKeepsInv(m, r, now); }
      case SessionStep(q, now) => SessionKeepsInv(m, q, now);
      case SweepStep(now) => SweepKeepsInv(m, now);
      case StallStep(threshold, now) => SameHoldersKeepInv(m, StallSwept(m, threshold, now));
      case MarkStep(u, k, now) => MarkKeepsInv(m, u, k, now);
      case PatchStep(u, state, now) => PatchKeepsInv(m, u, state, now);
      case _ => WorkflowStepKeepsInv(m, s);
    }
  }

  lemma WorkflowStepKeepsInv(m: Intents, s: Step)
    requires Inv(m) && (s.LinkStep? || s.ErrorStep? || s.FulfillStep?)
    ensures Inv(Apply(m, s))
  {
    if Apply(m, s) != m {
      PaidChangeKeepsInv(m, s.user, Apply(m, s)[s.user]);
    }
  }

  /** Over every run, active reservations stay exclusive, pairs complete and linked intents paid. */
  lemma {:induction false} RunsKeepReservationsExclusive(m: Intents, steps: seq<Step>)
    requires Inv(m)
    requires forall k :: 0 <= k < |steps| ==> Careful(Run(m, steps[..k]), steps[k])
    ensures Inv(Run(m, steps))
  {
    if steps != [] {
      var n := |steps| - 1;
      forall k | 0 <= k < n
        ensures Careful(Run(m, steps[..n][..k]), steps[..n][k])
      {
        assert steps[..n][..k] == steps[..k];
      }
      RunsKeepReservationsExclusive(m, steps[..n]);
      StepKeepsInv(Run(m, steps[..n]), steps[n]);
    }
  }

  /**
   Every run of checkout sessions, sweeps, marks and workflow steps keeps reservations exclusive,
   so the provisioning lookup by slug never has two answers.
   */
  lemma SessionRunsKeepLookupsUnambiguous(m: Intents, steps: seq<Step>, slug: string, u: UserId, v: UserId)
    requires Inv(m)
    requires forall s :: s in steps ==>
      !s.CreateStep? && (s.SessionStep? ==> s.q.Coherent()) && (s.PatchStep? ==> !s.state.Created?)
    ensures Inv(Run(m, steps))
    ensures FulfillableForSlug(Run(m, steps), u, slug) && FulfillableForSlug(Run(m, steps), v, slug) ==> u == v
  {
    forall k | 0 <= k < |steps|
      ensures Careful(Run(m, steps[..k]), steps[k])
    {
      assert steps[k] in steps;
    }
    RunsKeepReservationsExclusive(m, steps);
    if FulfillableForSlug(Run(m, steps), u, slug) && FulfillableForSlug(Run(m, steps), v, slug) {
      FulfillableLookupIsUnambiguous(Run(m, steps), slug, u, v);
    }
  }

  /** The provisioning lookup by slug has at most one answer. */
  lemma FulfillableLookupIsUnambiguous(m: Intents, slug: string, u: UserId, v: UserId)
    requires Inv(m) && FulfillableForSlug(m, u, slug) && FulfillableForSlug(m, v, slug)
    ensures u == v
  {
    SharersAreOne(m, u, v);
  }

  lemma SharersAreOne(m: Intents, u: UserId, v: UserId)
    requires Exclusive(m) && u in m && v in m && !m[u].state.Expired? && !m[v].state.Expired?
    ensures Share(m[u], m[v]) ==> u == v
  {
  }

  // ---------- the state table ----------

  /** Where an intent may go: nowhere, or one of ten moves. */
  predicate MayMove(before: IntentState, after: IntentState) {
    || after == before
    || (before == Created && (after == Paid || after == IntentState.Expired))
    || (before == Paid && (after == Fulfilled || after == ErroredBackoffice
                           || after == ErroredFulfillmentStalled || after == ErroredProvisioning))
    || (before == ErroredBackoffice && after == Fulfilled)
    || (before == ErroredFulfillmentStalled && after == Fulfilled)
    || (before == ErroredProvisioning && after == Fulfilled)
    || (before == IntentState.Expired && after == Created)
  }

  /** The steps that go through the table: everything but the unchecked workflow writes. */
  predicate TableStep(s: Step) {
    !s.ErrorStep? && !s.FulfillStep?
  }

  lemma StepFollowsTheTable(m: Intents, s: Step, u: UserId)
    requires TableStep(s) && u in m
    ensures u in Apply(m, s) && MayMove(m[u].state, Apply(m, s)[u].state)
  {
    match s {
      case CreateStep(r, now) => CreateFollowsTheTable(m, r, now, u);
      case SessionStep(q, now) =>
        if Validates(m, q) { CreateFollowsTheTable(m, q.AsReservation(), now, u); }
      case _ =>
    }
  }

  lemma CreateFollowsTheTable(m: Intents, r: Reservation, now: int, u: UserId)
    requires u in m
    ensures CreateIntent(m, r, now).Success? ==>
      u in CreateIntent(m, r, now).value
      && MayMove(m[u].state, CreateIntent(m, r, now).value[u].state)
      && (CreateIntent(m, r, now).value[u].state == m[u].state || m[u].state.Created? || m[u].state.Expired?)
  {
  }

  /** How many state changes are still possible once paid. */
  function Rank(state: IntentState): nat {
    if state.Paid? then 2 else if state.Fulfilled? then 0 else 1
  }

  predicate IsPaidOrLater(state: IntentState) {
    !state.Created? && !state.Expired?
  }

  /** The number of steps of a run that change one intent's state. */
  ghost function Changes(m: Intents, steps: seq<Step>, u: UserId): nat {
    if steps == [] then 0
    else
      var n := |steps| - 1;
      var before := Run(m, steps[..n]);
      var after := Apply(before, steps[n]);
      Changes(m, steps[..n], u) + if u in before && u in after && before[u].state != after[u].state then 1 else 0
  }

  /** Over any run of table-checked steps an intent traces a path in the transition table. */
  lemma {:induction false} RunsFollowTheTable(m: Intents, steps: seq<Step>, u: UserId)
    requires u in m && forall k :: 0 <= k < |steps| ==> TableStep(steps[k])
    ensures u in Run(m, steps)
    ensures forall k :: 0 <= k < |steps| ==> FollowsTable(m, steps, u, k)
  {
    if steps != [] {
      var n := |steps| - 1;
      RunsFollowTheTable(m, steps[..n], u);
      StepFollowsTheTable(Run(m, steps[..n]), steps[n], u);
      forall k | 0 <= k < n
        ensures FollowsTable(m, steps, u, k)
      {
        assert FollowsTable(m, steps[..n], u, k);
        assert steps[..n][..k] == steps[..k] && steps[..n][k] == steps[k];
      }
      assert FollowsTable(m, steps, u, n);
    }
  }

  lemma AllowedMovesLoseRank(before: IntentState, after: IntentState)
    requires IsPaidOrLater(before) && MayMove(before, after)
    ensures IsPaidOrLater(after) && (before == after || Rank(after) < Rank(before))
  {
  }

  /** Once paid, an intent never goes back to created or expired, and at most two state changes follow. */
  lemma {:induction false} PaidIntentsOnlyMoveForward(m: Intents, steps: seq<Step>, u: UserId)
    requires u in m && IsPaidOrLater(m[u].state) && forall k :: 0 <= k < |steps| ==> TableStep(steps[k])
    ensures u in Run(m, steps) && IsPaidOrLater(Run(m, steps)[u].state)
    ensures Changes(m, steps, u) + Rank(Run(m, steps)[u].state) <= Rank(m[u].state) <= 2
  {
    if steps != [] {
      var n := |steps| - 1;
      var before := Run(m, steps[..n]);
      PaidIntentsOnlyMoveForward(m, steps[..n], u);
      StepFollowsTheTable(before, steps[n], u);
      AllowedMovesLoseRank(before[u].state, Apply(before, steps[n])[u].state);
    }
  }

  /** The unchecked workflow writes included, no step of any run takes a paid intent back to created or expired. */
  lemma {:induction false} PaidStaysPaidInEveryRun(m: Intents, steps: seq<Step>, u: UserId)
    requires u in m && IsPaidOrLater(m[u].state)
    ensures u in Run(m, steps) && IsPaidOrLater(Run(m, steps)[u].state)
  {
    if steps != [] {
      var n := |steps| - 1;
      var before, s := Run(m, steps[..n]), steps[n];
      PaidStaysPaidInEveryRun(m, steps[..n], u);
      if TableStep(s) {
        StepFollowsTheTable(before, s, u);
        AllowedMovesLoseRank(before[u].state, Apply(before, s)[u].state);
      }
    }
  }

  /**
   The unchecked workflow writes follow the table exactly from these states: an error from paid or
   already errored provisioning, a fulfilment from every state a linked intent can be in.
   */
  lemma WorkflowWritesFollowTheTableIff(m: Intents, u: UserId, workflow: nat, message: string, now: int)
    requires u in m && m[u].workflow == Some(workflow)
    ensures u in ErrorLinked(m, u, workflow, message, now) && u in FulfillLinked(m, u, workflow, now)
    ensures MayMove(m[u].state, ErrorLinked(m, u, workflow, message, now)[u].state)
       <==> m[u].state.Paid? || m[u].state.ErroredProvisioning?
    ensures MayMove(m[u].state, FulfillLinked(m, u, workflow, now)[u].state)
       <==> IsPaidOrLater(m[u].state)
    ensures LinkedArePaid(m) ==> IsPaidOrLater(m[u].state)
  {
    assert ErrorLinked(m, u, workflow, message, now)[u].state == ErroredProvisioning;
    assert FulfillLinked(m, u, workflow, now)[u].state == Fulfilled;
  }

  ghost predicate FollowsTable(m: Intents, steps: seq<Step>, u: UserId, k: int)
    requires 0 <= k < |steps|
  {
    var before := Run(m, steps[..k]);
    var after := Apply(before, steps[k]);
    u in before && u in after && MayMove(before[u].state, after[u].state)
  }

  // ---------- Stripe identifiers ----------

  /** Replaying mark_as_paid on a paid intent never changes the stored Stripe identifiers. */
  lemma {:induction false} ReplayedPaymentsKeepStripeIds(m: Intents, u: UserId, replays: seq<Step>)
    requires u in m && m[u].state.Paid?
    requires forall k :: 0 <= k < |replays| ==> replays[k].MarkStep? && replays[k].k.MarkPaid?
    ensures u in Run(m, replays) && Run(m, replays)[u].state.Paid?
    ensures Run(m, replays)[u].sessionId == m[u].sessionId && Run(m, replays)[u].customerId == m[u].customerId
  {
    if replays != [] {
      ReplayedPaymentsKeepStripeIds(m, u, replays[..|replays| - 1]);
    }
  }

  /**
   Another checkout session by the same user leaves a paid intent paid, but keeps its stored
   session id only if Stripe answers with no session or with the same one.
   */
  lemma NewSessionKeepsPaidSessionIdIff(m: Intents, q: SessionRequest, now: int)
    requires Validates(m, q) && q.user in m && m[q.user].state.Paid?
    ensures q.user in CreateSession(m, q, now) && CreateSession(m, q, now)[q.user].state.Paid?
    ensures CreateSession(m, q, now)[q.user].sessionId == m[q.user].sessionId
       <==> q.stripe.None? || q.stripe.value.0 == "" || Some(q.stripe.value.0) == m[q.user].sessionId
  {
    assert CreateIntent(m, q.AsReservation(), now) == Success(Swept(m, now));
  }
}
