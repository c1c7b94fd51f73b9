/**
 Checkout intents: the reservation of slugs and names, the state table and the
 operations that move an intent. A user has at most one intent, so the user's id
 stands for the row.
 */
module CheckoutIntents {
  import opened Wrappers

  const RESERVATION_SECONDS := 24 * 60 * 60

  type UserId = nat

  datatype IntentState =
    | Created | Paid | Fulfilled | ErroredBackoffice | ErroredFulfillmentStalled | ErroredProvisioning | Expired

  /** ALLOWED_CHECKOUT_INTENT_STATE_TRANSITIONS. */
  function AllowedTransitions(state: IntentState): set<IntentState> {
    match state
    case Created => {Paid, Expired}
    case Paid => {Fulfilled, ErroredBackoffice, ErroredFulfillmentStalled, ErroredProvisioning}
    case ErroredBackoffice => {Fulfilled}
    case ErroredFulfillmentStalled => {Fulfilled}
    case ErroredProvisioning => {Fulfilled}
    case Expired => {Created}
    case Fulfilled => {}
  }

  predicate IsValidStateTransition(current: IntentState, next: IntentState) {
    current == next || next in AllowedTransitions(current)
  }

  predicate IsSuccess(state: IntentState) {
    state.Paid? || state.Fulfilled?
  }

  predicate IsFailure(state: IntentState) {
    state.ErroredBackoffice? || state.ErroredFulfillmentStalled? || state.ErroredProvisioning?
  }

  predicate IsFulfillable(state: IntentState) {
    Fulfilled in AllowedTransitions(state)
  }

  datatype Intent = Intent(
    state: IntentState,
    name: Option<string>,
    slug: Option<string>,
    quantity: nat,
    expiresAt: int,
    modified: int,
    country: Option<string>,
    terms: Option<map<string, string>>,
    enterpriseUuid: Option<string>,
    customerId: Option<string>,
    sessionId: Option<string>,
    workflow: Option<nat>,
    provisioningError: Option<string>)

  type Intents = map<UserId, Intent>

  // ---------- expiry sweep ----------

  predicate Overdue(i: Intent, now: int) {
    i.state.Created? && i.expiresAt <= now
  }

  function Sweep(i: Intent, now: int): Intent {
    if Overdue(i, now) then i.(state := Expired) else i
  }

  function Swept(m: Intents, now: int): Intents {
    map u | u in m :: Sweep(m[u], now)
  }

  // ---------- reservation ----------

  /** The intent holds this slug or this name; an absent or empty argument matches nothing. */
  predicate Holds(i: Intent, slug: Option<string>, name: Option<string>) {
    (Given(slug) && i.slug == slug) || (Given(name) && i.name == name)
  }

  predicate Blocks(m: Intents, u: UserId, slug: Option<string>, name: Option<string>, exclude: Option<UserId>)
    requires u in m
  {
    Holds(m[u], slug, name) && !m[u].state.Expired? && exclude != Some(u)
  }

  predicate CanReserve(m: Intents, slug: Option<string>, name: Option<string>, exclude: Option<UserId>) {
    forall u :: u in m ==> !Blocks(m, u, slug, name, exclude)
  }

  datatype IntentError = IncompletePair | SlugReservationConflict | FailedCheckoutIntentConflict

  /** The arguments of create_intent. */
  datatype Reservation = Reservation(
    user: UserId, quantity: nat, slug: Option<string>, name: Option<string>,
    country: Option<string>, terms: Option<map<string, string>>)

  function Or(a: Option<string>, b: Option<string>): Option<string> {
    if Given(a) then a else b
  }

  function MergedTerms(before: Option<map<string, string>>, more: Option<map<string, string>>): map<string, string> {
    (if before.Some? then before.value else map[]) + (if more.Some? then more.value else map[])
  }

  function Patched(i: Intent, r: Reservation, now: int): Intent {
    i.(state := Created, quantity := r.quantity, expiresAt := now + RESERVATION_SECONDS,
       slug := Or(r.slug, i.slug), name := Or(r.name, i.name), country := Or(r.country, i.country),
       terms := Some(MergedTerms(i.terms, r.terms)), modified := now)
  }

  function NewIntent(r: Reservation, now: int): Intent {
    Intent(Created, r.name, r.slug, r.quantity, now + RESERVATION_SECONDS, now, r.country, r.terms,
           None, None, None, None, None)
  }

  /** The user's own intent after the sweep, if any. */
  function Own(m: Intents, user: UserId): Option<Intent> {
    if user in m then Some(m[user]) else None
  }

  /** A slug was asked for and it or its name differs from what the user's intent already holds. */
  predicate MustReserve(own: Option<Intent>, r: Reservation) {
    Given(r.slug) && (own.None? || r.slug != own.value.slug || r.name != own.value.name)
  }

  /** create_intent on a table, all or nothing: a failure also undoes the sweep. */
  function CreateIntent(m: Intents, r: Reservation, now: int): Result<Intents, IntentError> {
    var swept := Swept(m, now);
    var own := Own(swept, r.user);
    if Given(r.slug) != Given(r.name) then Failure(IncompletePair)
    else if own.Some? && IsSuccess(own.value.state) then Success(swept)
    else if own.Some? && IsFailure(own.value.state) then Failure(FailedCheckoutIntentConflict)
    else if MustReserve(own, r) && !CanReserve(swept, r.slug, r.name, Some(r.user)) then
      Failure(SlugReservationConflict)
    else Success(swept[r.user := if own.Some? then Patched(own.value, r, now) else NewIntent(r, now)])
  }

  // ---------- checkout session ----------

  /** A free-trial checkout request, with the verdict of the checks that do not read intents. */
  datatype SessionRequest = SessionRequest(
    user: UserId,
    validatorUser: Option<UserId>,
    slug: string,
    name: string,
    quantity: nat,
    otherChecksPass: bool,
    stripe: Option<(string, Option<string>)>)
  {
    /** The validator knows the requesting user, or no user yet. */
    predicate Coherent() {
      validatorUser.None? || validatorUser == Some(user)
    }

    function AsReservation(): Reservation {
      Reservation(user, quantity, Some(slug), Some(name), None, None)
    }
  }

  /** The slug and name handlers: both given, and neither held by another active intent. */
  predicate Validates(m: Intents, q: SessionRequest) {
    && q.otherChecksPass
    && q.slug != "" && q.name != ""
    && CanReserve(m, Some(q.slug), None, q.validatorUser)
    && CanReserve(m, None, Some(q.name), q.validatorUser)
  }

  function WithStripeIds(i: Intent, session: string, customer: Option<string>, now: int): Intent {
    i.(sessionId := if session != "" then Some(session) else i.sessionId,
       customerId := if Given(customer) then customer else i.customerId,
       modified := now)
  }

  /** Validate, reserve, and record the Stripe identifiers when the session was created. */
  function CreateSession(m: Intents, q: SessionRequest, now: int): Intents {
    if !Validates(m, q) then m
    else
      match CreateIntent(m, q.AsReservation(), now)
      case Failure(_) => m
      case Success(next) =>
        if q.stripe.None? || q.user !in next then next
        else next[q.user := WithStripeIds(next[q.user], q.stripe.value.0, q.stripe.value.1, now)]
  }

  // ---------- table-checked marks ----------

  datatype Mark =
    | MarkPaid(session: Option<string>, customer: Option<string>)
    | MarkFulfilled(workflow: Option<nat>)
    | MarkBackofficeError(message: string)
    | MarkProvisioningError(message: string, workflow: Option<nat>)

  function Target(k: Mark): IntentState {
    match k
    case MarkPaid(_, _) => Paid
    case MarkFulfilled(_) => Fulfilled
    case MarkBackofficeError(_) => ErroredBackoffice
    case MarkProvisioningError(_, _) => ErroredProvisioning
  }

  /** A paid intent refuses Stripe identifiers other than its own. */
  predicate SameStripeIds(i: Intent, k: Mark) {
    k.MarkPaid? && i.state.Paid? ==>
      (Given(k.session) ==> k.session == i.sessionId) && (Given(k.customer) ==> k.customer == i.customerId)
  }

  predicate CanMark(i: Intent, k: Mark) {
    IsValidStateTransition(i.state, Target(k)) && SameStripeIds(i, k)
  }

  function Marked(i: Intent, k: Mark, now: int): Intent {
    var j := i.(state := Target(k), modified := now);
    match k
    case MarkPaid(session, customer) =>
      j.(sessionId := Or(session, i.sessionId), customerId := Or(customer, i.customerId))
    case MarkFulfilled(w) => j.(workflow := if w.Some? then w else i.workflow)
    case MarkBackofficeError(e) => j.(provisioningError := Some(e))
    case MarkProvisioningError(e, w) => j.(provisioningError := Some(e), workflow := if w.Some? then w else i.workflow)
  }

  /** No other intent is linked to this workflow (a one-to-one column). */
  predicate WorkflowFree(m: Intents, user: UserId, workflow: Option<nat>) {
    workflow.None? || forall u :: u in m && u != user ==> m[u].workflow != workflow
  }

  /** The workflow a mark wants to store, if any. */
  function NewWorkflow(k: Mark): Option<nat> {
    match k
    case MarkFulfilled(w) => w
    case MarkProvisioningError(_, w) => w
    case _ => None
  }

  /** One mark: refused by the table, by the Stripe id guard or by the workflow column, or written. */
  function MarkIntent(m: Intents, user: UserId, k: Mark, now: int): Intents {
    if user in m && CanMark(m[user], k) && WorkflowFree(m, user, NewWorkflow(k))
    then m[user := Marked(m[user], k, now)]
    else m
  }

  // ---------- the update endpoint ----------

  /** An update request may move the state along the table; nothing else about the intent is checked. */
  function PatchState(m: Intents, user: UserId, state: IntentState, now: int): Intents {
    if user in m && IsValidStateTransition(m[user].state, state)
    then m[user := m[user].(state := state, modified := now)]
    else m
  }

  // ---------- stalled fulfilments ----------

  predicate Stalled(i: Intent, threshold: nat, now: int) {
    i.state.Paid? && i.modified <= now - threshold
  }

  function Stall(i: Intent, threshold: nat, now: int): Intent {
    if Stalled(i, threshold, now)
    then i.(state := ErroredFulfillmentStalled, provisioningError := Some("Fulfillment stalled"), modified := now)
    else i
  }

  function StallSwept(m: Intents, threshold: nat, now: int): Intents {
    map u | u in m :: Stall(m[u], threshold, now)
  }

  // ---------- provisioning workflow steps ----------

  predicate FulfillableForSlug(m: Intents, u: UserId, slug: string) {
    u in m && Holds(m[u], Some(slug), None) && IsFulfillable(m[u].state)
  }

  /** Link a workflow to the fulfillable intent found for the slug. */
  function LinkIntent(m: Intents, u: UserId, slug: string, workflow: nat, enterprise: string, now: int): Intents {
    if FulfillableForSlug(m, u, slug) && WorkflowFree(m, u, Some(workflow))
    then m[u := m[u].(workflow := Some(workflow), enterpriseUuid := Some(enterprise), modified := now)]
    else m
  }

  /** Error or fulfil the intent linked to a workflow, whatever its state. */
  function ErrorLinked(m: Intents, u: UserId, workflow: nat, message: string, now: int): Intents {
    if u in m && m[u].workflow == Some(workflow)
    then m[u := m[u].(state := ErroredProvisioning, provisioningError := Some(message), modified := now)]
    else m
  }

  function FulfillLinked(m: Intents, u: UserId, workflow: nat, now: int): Intents {
    if u in m && m[u].workflow == Some(workflow) then m[u := m[u].(state := Fulfilled, modified := now)] else m
  }

  // ---------- the table in place ----------

  class CheckoutTable {
    var intents: Intents

    constructor ()
      ensures intents == map[]
    {
      intents := map[];
    }

    method CleanupExpired(now: int)
      modifies this
      ensures intents == Swept(old(intents), now)
    {
      var todo := intents.Keys;
      ghost var before := intents;
      while todo != {}
        invariant todo <= before.Keys == intents.Keys
        invariant forall u :: u in before ==> intents[u] == if u in todo then before[u] else Sweep(before[u], now)
        decreases todo
      {
        var u :| u in todo;
        if intents[u].state.Created? && intents[u].expiresAt <= now {
          intents := intents[u := intents[u].(state := Expired)];
        }
        todo := todo - {u};
      }
    }

    /** Reserve a slug and name for a user, or leave the table as it was. */
    method CreateIntentFor(r: Reservation, now: int) returns (e: Result<Intent, IntentError>)
      modifies this
      ensures CreateIntent(old(intents), r, now).Failure? ==>
        intents == old(intents) && e == Failure(CreateIntent(old(intents), r, now).error)
      ensures CreateIntent(old(intents), r, now).Success? ==>
        && intents == CreateIntent(old(intents), r, now).value
        && r.user in intents && e == Success(intents[r.user])
    {
      var savepoint := intents;
      CleanupExpired(now);
      if Given(r.slug) != Given(r.name) {
        intents := savepoint;
        return Failure(IncompletePair);
      }
      if r.user in intents {
        if IsSuccess(intents[r.user].state) {
          return Success(intents[r.user]);
        }
        if IsFailure(intents[r.user].state) {
          intents := savepoint;
          return Failure(FailedCheckoutIntentConflict);
        }
      }
      var mustReserve := false;
      if Given(r.slug) {
        if r.user in intents {
          mustReserve := r.slug != intents[r.user].slug || r.name != intents[r.user].name;
        } else {
          mustReserve := true;
        }
      }
      if mustReserve && !CanReserve(intents, r.slug, r.name, Some(r.user)) {
        intents := savepoint;
        return Failure(SlugReservationConflict);
      }
      if r.user in intents {
        intents := intents[r.user := Patched(intents[r.user], r, now)];
      } else {
        intents := intents[r.user := NewIntent(r, now)];
      }
      e := Success(intents[r.user]);
    }

    /** Validate, reserve, then store the Stripe identifiers of the created session. */
    method CreateFreeTrialCheckoutSession(q: SessionRequest, now: int) returns (reserved: bool)
      modifies this
      ensures intents == CreateSession(old(intents), q, now)
      ensures reserved <==> Validates(old(intents), q) && CreateIntent(old(intents), q.AsReservation(), now).Success?
    {
      if !Validates(intents, q) {
        return false;
      }
      var e := CreateIntentFor(q.AsReservation(), now);
      if e.Failure? {
        return false;
      }
      if q.stripe.Some? {
        UpdateStripeIdentifiers(q.user, q.stripe.value.0, q.stripe.value.1, now);
      }
      reserved := true;
    }

    method UpdateStripeIdentifiers(user: UserId, session: string, customer: Option<string>, now: int)
      requires user in intents
      modifies this
      ensures intents == old(intents)[user := WithStripeIds(old(intents)[user], session, customer, now)]
    {
      var i := intents[user];
      if session != "" {
        i := i.(sessionId := Some(session));
      }
      if Given(customer) {
        i := i.(customerId := customer);
      }
      intents := intents[user := i.(modified := now)];
    }

    method MarkAsPaid(user: UserId, session: Option<string>, customer: Option<string>, now: int) returns (ok: bool)
      requires user in intents
      modifies this
      ensures ok <==> CanMark(old(intents)[user], MarkPaid(session, customer))
      ensures ok <==>
        var i := old(intents)[user];
        || i.state == Created
        || (i.state == Paid
            && (Given(session) ==> i.sessionId == session) && (Given(customer) ==> i.customerId == customer))
      ensures ok ==>
        && user in intents && intents[user].state == Paid
        && (Given(session) ==> intents[user].sessionId == session)
        && (Given(customer) ==> intents[user].customerId == customer)
      ensures intents == MarkIntent(old(intents), user, MarkPaid(session, customer), now)
    {
      var i := intents[user];
      if !IsValidStateTransition(i.state, Paid) {
        return false;
      }
      if Given(session) && i.state.Paid? && session != i.sessionId {
        return false;
      }
      if Given(customer) && i.state.Paid? && customer != i.customerId {
        return false;
      }
      i := i.(state := Paid);
      if Given(session) {
        i := i.(sessionId := session);
      }
      if Given(customer) {
        i := i.(customerId := customer);
      }
      intents := intents[user := i.(modified := now)];
      ok := true;
    }

    /** The other three marks share one shape: the table, then the columns, then the workflow constraint. */
    method MarkOutcome(user: UserId, k: Mark, now: int) returns (ok: bool)
      requires user in intents && !k.MarkPaid?
      modifies this
      ensures intents == MarkIntent(old(intents), user, k, now)
      ensures ok <==> CanMark(old(intents)[user], k) && WorkflowFree(old(intents), user, NewWorkflow(k))
    {
      var i := intents[user];
      if !IsValidStateTransition(i.state, Target(k)) {
        return false;
      }
      i := i.(state := Target(k), modified := now);
      match k {
        case MarkFulfilled(w) =>
          i := if w.Some? then i.(workflow := w) else i;
        case MarkBackofficeError(message) =>
          i := i.(provisioningError := Some(message));
        case MarkProvisioningError(message, w) =>
          i := i.(provisioningError := Some(message));
          i := if w.Some? then i.(workflow := w) else i;
      }
      ok := WorkflowFree(intents, user, NewWorkflow(k));
      if ok {
        intents := intents[user := i];
      }
    }

    /** Every stalled paid intent becomes errored; their users are returned. */
    method MarkStalledFulfillmentIntents(threshold: nat, now: int) returns (updated: set<UserId>)
      modifies this
      ensures intents == StallSwept(old(intents), threshold, now)
      ensures updated == set u | u in old(intents) && Stalled(old(intents)[u], threshold, now)
    {
      updated := set u | u in intents && Stalled(intents[u], threshold, now);
      var todo := updated;
      ghost var before := intents;
      while todo != {}
        invariant todo <= updated && intents.Keys == before.Keys
        invariant forall u :: u in before ==>
          intents[u] == if u in todo then before[u] else Stall(before[u], threshold, now)
        decreases todo
      {
        var u :| u in todo;
        intents := intents[u := Stall(intents[u], threshold, now)];
        todo := todo - {u};
      }
    }

    /** Link a workflow to a fulfillable intent for the slug, if there is one. */
    method LinkCheckoutIntent(slug: string, workflow: nat, enterprise: string, now: int) returns (found: Option<UserId>)
      modifies this
      ensures found.None? ==>
        intents == old(intents) && forall u :: u in intents ==> !FulfillableForSlug(intents, u, slug)
      ensures found.Some? ==>
        && FulfillableForSlug(old(intents), found.value, slug)
        && intents == LinkIntent(old(intents), found.value, slug, workflow, enterprise, now)
    {
      var candidates := set u | u in intents && FulfillableForSlug(intents, u, slug);
      if u :| u in candidates {
        found := Some(u);
        intents := LinkIntent(intents, u, slug, workflow, enterprise, now);
      } else {
        found := None;
        assert forall u :: u in intents ==> u !in candidates;
      }
    }

    /** The intent linked to a workflow, if there is one. */
    method FindLinked(workflow: nat) returns (found: Option<UserId>)
      ensures found.Some? ==> found.value in intents && intents[found.value].workflow == Some(workflow)
      ensures found.None? ==> forall u :: u in intents ==> intents[u].workflow != Some(workflow)
    {
      var candidates := set u | u in intents && intents[u].workflow == Some(workflow);
      if u :| u in candidates {
        found := Some(u);
      } else {
        found := None;
        assert forall u :: u in intents ==> u !in candidates;
      }
    }

    /** Record a provisioning error on the linked intent; without one the step fails. */
    method ErrorCheckoutIntent(workflow: nat, message: string, now: int) returns (found: Option<UserId>)
      modifies this
      ensures found.None? ==>
        intents == old(intents) && forall u :: u in intents ==> intents[u].workflow != Some(workflow)
      ensures found.Some? ==>
        && found.value in old(intents) && old(intents)[found.value].workflow == Some(workflow)
        && intents == ErrorLinked(old(intents), found.value, workflow, message, now)
    {
      found := FindLinked(workflow);
      if found.Some? {
        var i := intents[found.value];
        i := i.(provisioningError := Some(message));
        i := i.(state := ErroredProvisioning);
        intents := intents[found.value := i.(modified := now)];
      }
    }

    /** Fulfil the linked intent; without one the step fails. */
    method FulfillCheckoutIntent(workflow: nat, now: int) returns (found: Option<UserId>)
      modifies this
      ensures found.None? ==>
        intents == old(intents) && forall u :: u in intents ==> intents[u].workflow != Some(workflow)
      ensures found.Some? ==>
        && found.value in old(intents) && old(intents)[found.value].workflow == Some(workflow)
        && intents == FulfillLinked(old(intents), found.value, workflow, now)
    {
      found := FindLinked(workflow);
      if found.Some? {
        var i := intents[found.value].(state := Fulfilled);
        intents := intents[found.value := i.(modified := now)];
      }
    }
  }
}
