/** What each operation on a checkout intent accepts, by the intent's state, and what it then writes. */
module CheckoutOutcomes {
  import opened Wrappers
  import opened CheckoutIntents
  import opened CheckoutProofs

  predicate IsGiven(text: Option<string>) {
    text.Some? && text.value != ""
  }

  function Preferring(text: Option<string>, stored: Option<string>): Option<string> {
    if IsGiven(text) then text else stored
  }

  // ---------- marks ----------

  /** Created, or already paid with the same identifiers as far as any are given. */
  predicate TakesPayment(i: Intent, session: Option<string>, customer: Option<string>) {
    || i.state == Created
    || (i.state == Paid
        && (IsGiven(session) ==> i.sessionId == session) && (IsGiven(customer) ==> i.customerId == customer))
  }

  /**
   A payment is accepted from created, and from paid with the same identifiers, and from no other state. It then
   leaves the intent paid and carrying every given identifier; a refused one changes nothing.
   */
  lemma PaymentIsAcceptedIff(m: Intents, u: UserId, session: Option<string>, customer: Option<string>, now: int)
    requires u in m
    ensures CanMark(m[u], MarkPaid(session, customer)) <==> TakesPayment(m[u], session, customer)
    ensures MarkIntent(m, u, MarkPaid(session, customer), now) ==
      if TakesPayment(m[u], session, customer) then
        m[u := m[u].(state := Paid, sessionId := Preferring(session, m[u].sessionId),
                     customerId := Preferring(customer, m[u].customerId), modified := now)]
      else m
  {
  }

  /** The states from which each of the other marks is accepted. */
  function Sources(k: Mark): set<IntentState>
    requires !k.MarkPaid?
  {
    match k
    case MarkFulfilled(_) => {Paid, Fulfilled, ErroredBackoffice, ErroredFulfillmentStalled, ErroredProvisioning}
    case MarkBackofficeError(_) => {Paid, ErroredBackoffice}
    case MarkProvisioningError(_, _) => {Paid, ErroredProvisioning}
  }

  predicate NoOtherHas(m: Intents, u: UserId, workflow: nat) {
    forall v :: v in m && v != u ==> m[v].workflow != Some(workflow)
  }

  /** The workflow that comes with a mark is not another intent's. */
  predicate WorkflowFits(m: Intents, u: UserId, k: Mark) {
    match k
    case MarkFulfilled(Some(w)) => NoOtherHas(m, u, w)
    case MarkProvisioningError(_, Some(w)) => NoOtherHas(m, u, w)
    case _ => true
  }

  /**
   A mark of fulfilment is accepted from paid, fulfilled and the three errored states, an error mark from paid and its
   own state, unless its workflow is another intent's. Each then writes its state, its message and its workflow.
   */
  lemma OutcomeIsAcceptedIff(m: Intents, u: UserId, k: Mark, now: int)
    requires u in m && !k.MarkPaid?
    ensures MarkIntent(m, u, k, now) ==
      if m[u].state in Sources(k) && WorkflowFits(m, u, k) then
        m[u := match k
          case MarkFulfilled(w) =>
            m[u].(state := Fulfilled, workflow := if w.Some? then w else m[u].workflow, modified := now)
          case MarkBackofficeError(message) =>
            m[u].(state := ErroredBackoffice, provisioningError := Some(message), modified := now)
          case MarkProvisioningError(message, w) =>
            m[u].(state := ErroredProvisioning, provisioningError := Some(message),
                  workflow := if w.Some? then w else m[u].workflow, modified := now)]
      else m
  {
  }

  // ---------- update requests, stalled intents, workflow steps ----------

  /** An update request is accepted along the ten moves, or to the state the intent has, and writes the state. */
  lemma UpdateIsAcceptedIff(m: Intents, u: UserId, state: IntentState, now: int)
    requires u in m
    ensures PatchState(m, u, state, now) ==
      if MayMove(m[u].state, state) then m[u := m[u].(state := state, modified := now)] else m
  {
  }

  /** Exactly the paid intents not modified within the threshold become stalled. */
  lemma StallsIff(m: Intents, threshold: nat, now: int, u: UserId)
    requires u in m
    ensures StallSwept(m, threshold, now).Keys == m.Keys
    ensures var after := StallSwept(m, threshold, now)[u];
      if m[u].state == Paid && threshold <= now - m[u].modified
      then after.state == ErroredFulfillmentStalled && after.provisioningError.Some?
           && after == m[u].(state := after.state, provisioningError := after.provisioningError, modified := now)
      else after == m[u]
  {
  }

  /** Paid or errored, under the slug. */
  predicate IsFulfillableFor(m: Intents, u: UserId, slug: string) {
    && u in m && slug != "" && m[u].slug == Some(slug)
    && m[u].state in {Paid, ErroredBackoffice, ErroredFulfillmentStalled, ErroredProvisioning}
  }

  lemma FulfillableIff(m: Intents, u: UserId, slug: string)
    ensures FulfillableForSlug(m, u, slug) <==> IsFulfillableFor(m, u, slug)
  {
  }

  /**
   Linking reaches a paid or errored intent of the slug, unless another intent has the workflow; the error and the
   fulfil step reach the intent with the workflow in whatever state it is.
   */
  lemma WorkflowStepsWrite(
      m: Intents, u: UserId, slug: string, workflow: nat, enterprise: string, message: string, now: int)
    requires u in m
    ensures LinkIntent(m, u, slug, workflow, enterprise, now) ==
      if IsFulfillableFor(m, u, slug) && NoOtherHas(m, u, workflow)
      then m[u := m[u].(workflow := Some(workflow), enterpriseUuid := Some(enterprise), modified := now)] else m
    ensures ErrorLinked(m, u, workflow, message, now) ==
      if m[u].workflow == Some(workflow)
      then m[u := m[u].(state := ErroredProvisioning, provisioningError := Some(message), modified := now)] else m
    ensures FulfillLinked(m, u, workflow, now) ==
      if m[u].workflow == Some(workflow) then m[u := m[u].(state := Fulfilled, modified := now)] else m
  {
    FulfillableIff(m, u, slug);
  }

  // ---------- reservations ----------

  /** A created intent whose reservation has run out becomes expired; no other changes. */
  lemma SweepExpiresIff(m: Intents, now: int, u: UserId)
    requires u in m
    ensures Swept(m, now).Keys == m.Keys
    ensures Swept(m, now)[u] ==
      if m[u].state == Created && m[u].expiresAt <= now then m[u].(state := IntentState.Expired) else m[u]
  {
  }

  /** All the terms of both, the newer ones where both have a key. */
  ghost predicate IsMerged(terms: map<string, string>, stored: Option<map<string, string>>,
                           more: Option<map<string, string>>)
  {
    forall k :: if more.Some? && k in more.value then k in terms && terms[k] == more.value[k]
                else if stored.Some? && k in stored.value then k in terms && terms[k] == stored.value[k]
                else k !in terms
  }

  /** Reserved for twenty-four hours at the requested quantity. */
  predicate IsReservedBy(i: Intent, r: Reservation, now: int) {
    i.state == Created && i.quantity == r.quantity && i.expiresAt == now + 86400 && i.modified == now
  }

  /** What was given replaces what was stored, terms are merged, and everything else is kept. */
  ghost predicate IsUpdatedBy(before: Intent, after: Intent, r: Reservation) {
    && after.slug == Preferring(r.slug, before.slug) && after.name == Preferring(r.name, before.name)
    && after.country == Preferring(r.country, before.country)
    && after.terms.Some? && IsMerged(after.terms.value, before.terms, r.terms)
    && after.enterpriseUuid == before.enterpriseUuid && after.customerId == before.customerId
    && after.sessionId == before.sessionId && after.workflow == before.workflow
    && after.provisioningError == before.provisioningError
  }

  predicate IsNewFor(i: Intent, r: Reservation) {
    && i.slug == r.slug && i.name == r.name && i.country == r.country && i.terms == r.terms
    && i.enterpriseUuid == None && i.customerId == None && i.sessionId == None && i.workflow == None
    && i.provisioningError == None
  }

  /**
   A successful create_intent leaves a paid or fulfilled intent of the user as it is. Otherwise the user's intent is
   reserved for a day: a stored one keeps what the request does not give. The others are only swept.
   */
  lemma CreateWrites(m: Intents, r: Reservation, now: int)
    requires CreateIntent(m, r, now).Success?
    ensures var next := CreateIntent(m, r, now).value;
      && next.Keys == m.Keys + {r.user}
      && (forall u :: u in m && u != r.user ==> next[u] == Swept(m, now)[u])
      && if HasState(m, r.user, {Paid, Fulfilled}) then next[r.user] == m[r.user]
         else IsReservedBy(next[r.user], r, now)
              && if r.user in m then IsUpdatedBy(m[r.user], next[r.user], r) else IsNewFor(next[r.user], r)
  {
    if r.user in m && !HasState(m, r.user, {Paid, Fulfilled}) {
      MergedTermsAreMerged(m[r.user].terms, r.terms);
    }
  }

  lemma MergedTermsAreMerged(stored: Option<map<string, string>>, more: Option<map<string, string>>)
    ensures IsMerged(MergedTerms(stored, more), stored, more)
  {
  }

  // ---------- checkout sessions ----------

  /** The other checks pass, and no non-expired intent but the validating user's holds the slug or the name. */
  predicate IsValid(m: Intents, q: SessionRequest) {
    && q.otherChecksPass && q.slug != "" && q.name != ""
    && forall u :: u in m && m[u].state != IntentState.Expired && q.validatorUser != Some(u) ==>
         m[u].slug != Some(q.slug) && m[u].name != Some(q.name)
  }

  lemma ValidatesIff(m: Intents, q: SessionRequest)
    ensures Validates(m, q) <==> IsValid(m, q)
  {
    if Validates(m, q) {
      forall u | u in m && m[u].state != IntentState.Expired && q.validatorUser != Some(u)
        ensures m[u].slug != Some(q.slug) && m[u].name != Some(q.name)
      {
        assert !Blocks(m, u, Some(q.slug), None, q.validatorUser);
        assert !Blocks(m, u, None, Some(q.name), q.validatorUser);
      }
    }
  }

  /** The reservation that a checkout session asks for. */
  function SessionReservation(q: SessionRequest): Reservation {
    Reservation(q.user, q.quantity, Some(q.slug), Some(q.name), None, None)
  }

  /** The identifiers that Stripe answered with, where it did. */
  function WithSession(i: Intent, session: string, customer: Option<string>, now: int): Intent {
    i.(sessionId := if session == "" then i.sessionId else Some(session),
       customerId := Preferring(customer, i.customerId), modified := now)
  }

  /**
   A checkout session changes the table if and only if it is valid and its pair can be reserved; it then reserves the
   pair and, when Stripe answers, stores the identifiers of the answer with the user's intent.
   */
  lemma SessionWrites(m: Intents, q: SessionRequest, now: int)
    ensures var reserved := CreateIntent(m, SessionReservation(q), now);
      reserved.Success? ==> q.user in reserved.value
    ensures var reserved := CreateIntent(m, SessionReservation(q), now);
      CreateSession(m, q, now) ==
        if !IsValid(m, q) || reserved.Failure? then m
        else match q.stripe
          case None => reserved.value
          case Some((session, customer)) =>
            reserved.value[q.user := WithSession(reserved.value[q.user], session, customer, now)]
  {
    ValidatesIff(m, q);
  }

  // ---------- no fulfilment without payment ----------

  /** The step takes a payment for the user's created intent, or is an update request that calls it paid. */
  predicate IsPayment(m: Intents, s: Step, u: UserId) {
    && u in m && m[u].state == Created
    && ((s.MarkStep? && s.user == u && s.k.MarkPaid?) || (s.PatchStep? && s.user == u && s.state == Paid))
  }

  lemma StepKeepsLinkedPaid(m: Intents, s: Step)
    requires LinkedArePaid(m)
    ensures LinkedArePaid(Apply(m, s))
  {
    match s {
      case CreateStep(r, now) => if CreateIntent(m, r, now).Success? { CreateWrites(m, r, now); }
      case SessionStep(q, now) => SessionKeepsLinkedPaid(m, q, now);
      case _ =>
    }
  }

  lemma SessionKeepsLinkedPaid(m: Intents, q: SessionRequest, now: int)
    requires LinkedArePaid(m)
    ensures LinkedArePaid(CreateSession(m, q, now))
  {
    SessionWrites(m, q, now);
    if CreateIntent(m, SessionReservation(q), now).Success? {
      CreateWrites(m, SessionReservation(q), now);
    }
  }

  /** Only a payment takes an intent into paid or beyond. */
  lemma OnlyPaymentsPay(m: Intents, s: Step, u: UserId)
    requires LinkedArePaid(m) && !(u in m && IsPaidOrLater(m[u].state))
    requires u in Apply(m, s) && IsPaidOrLater(Apply(m, s)[u].state)
    ensures IsPayment(m, s, u)
  {
    match s {
      case CreateStep(r, now) => CreateWrites(m, r, now);
      case SessionStep(q, now) =>
        SessionWrites(m, q, now);
        if CreateIntent(m, SessionReservation(q), now).Success? {
          CreateWrites(m, SessionReservation(q), now);
        }
      case _ =>
    }
  }

  /** Some step of the run is a payment, in the table that the steps before it left. */
  ghost predicate SomeStepPays(m: Intents, steps: seq<Step>, u: UserId) {
    steps != [] &&
    var n := |steps| - 1;
    SomeStepPays(m, steps[..n], u) || IsPayment(Run(m, steps[..n]), steps[n], u)
  }

  lemma {:induction false} RunsKeepLinkedPaid(m: Intents, steps: seq<Step>)
    requires LinkedArePaid(m)
    ensures LinkedArePaid(Run(m, steps))
  {
    if steps != [] {
      RunsKeepLinkedPaid(m, steps[..|steps| - 1]);
      StepKeepsLinkedPaid(Run(m, steps[..|steps| - 1]), steps[|steps| - 1]);
    }
  }

  /**
   Over every run, checked and unchecked writes together, an intent that ends paid, fulfilled or failed without having
   been so at the start has taken a payment, or been called paid by an update request, on the way.
   */
  lemma {:induction false} NothingIsFulfilledUnpaid(m: Intents, steps: seq<Step>, u: UserId)
    requires LinkedArePaid(m) && !(u in m && IsPaidOrLater(m[u].state))
    requires u in Run(m, steps) && IsPaidOrLater(Run(m, steps)[u].state)
    ensures SomeStepPays(m, steps, u)
  {
    var n := |steps| - 1;
    var before := Run(m, steps[..n]);
    if u in before && IsPaidOrLater(before[u].state) {
      NothingIsFulfilledUnpaid(m, steps[..n], u);
    } else {
      RunsKeepLinkedPaid(m, steps[..n]);
      OnlyPaymentsPay(before, steps[n], u);
    }
  }
}
