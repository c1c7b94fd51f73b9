/** What one delivery of a Stripe event does: which payment, which renewal, which record, and when it raises. */
module StripeDeliveries {
  import opened Wrappers
  import opened CheckoutIntents
  import opened CheckoutOutcomes
  import opened StripeEvents
  import opened StripeEventProofs

  /** The event names an intent that exists. */
  predicate Knows(b: Billing, e: Event) {
    e.intent.Some? && e.intent.value in b.intents
  }

  // ---------- payments ----------

  /** A paid invoice of a known intent that takes the payment. */
  predicate Pays(b: Billing, e: Event) {
    e.kind.InvoicePaid? && Knows(b, e) && TakesPayment(b.intents[e.intent.value], None, e.customer)
  }

  lemma HandlerPays(b: Billing, d: Delivery)
    ensures Handle(b, d).0.intents ==
      if Pays(b, d.event) then MarkIntent(b.intents, d.event.intent.value, MarkPaid(None, d.event.customer), d.now)
      else b.intents
  {
    if d.event.kind.InvoicePaid? && Knows(b, d.event) {
      PaymentIsAcceptedIff(b.intents, d.event.intent.value, None, d.event.customer, d.now);
    }
  }

  /** Exactly so a delivery makes an intent paid, with the event's customer if it has one; no other intent changes. */
  lemma DeliveryPaysIff(b: Billing, d: Delivery)
    ensures Deliver(b, d).0.intents ==
      if Pays(b, d.event) then
        var u := d.event.intent.value;
        b.intents[u := b.intents[u].(state := Paid, modified := d.now,
                                     customerId := Preferring(d.event.customer, b.intents[u].customerId))]
      else b.intents
  {
    HandlerPays(Persist(b, d.event), d);
    if Pays(b, d.event) {
      PaymentIsAcceptedIff(b.intents, d.event.intent.value, None, d.event.customer, d.now);
    }
  }

  // ---------- records ----------

  /** The record made of an event that is not stored yet: invoices have no status, and the customer must match. */
  function FirstRecord(b: Billing, e: Event): EventRecord {
    var matched := Knows(b, e) && b.intents[e.intent.value].customerId == e.customer;
    EventRecord(e.kind, e.created, if e.kind.InvoicePaid? then None else e.status,
                if matched then e.intent else None, false)
  }

  /** The handler links its event to the intent it names. */
  predicate Links(b: Billing, e: Event) {
    match e.kind
    case InvoicePaid => Pays(b, e)
    case TrialWillEnd => Knows(b, e)
    case SubscriptionCreated => Knows(b, e)
    case SubscriptionUpdated => Knows(b, e)
    case _ => false
  }

  predicate HasRecord(kind: EventType) {
    kind != PaymentMethodAttached && kind != Unregistered
  }

  lemma HandlerLinks(b: Billing, d: Delivery)
    ensures Handle(b, d).0.events ==
      if Links(b, d.event) then Link(b, d.event.id, d.event.intent.value).events else b.events
  {
    if d.event.kind.InvoicePaid? && Knows(b, d.event) {
      PaymentIsAcceptedIff(b.intents, d.event.intent.value, None, d.event.customer, d.now);
    }
    if d.event.kind.SubscriptionUpdated? && Knows(b, d.event) {
      var linked := Link(b, d.event.id, d.event.intent.value);
      assert ProcessRenewal(linked, d.event.intent.value, d).0.events == linked.events;
    }
  }

  /**
   A delivery touches the record of its own event only: the first delivery's data stay, a missing intent is filled in
   by a handler that links, and the record is handled once a delivery has not raised.
   */
  lemma DeliveryRecords(b: Billing, d: Delivery)
    ensures var e := d.event;
      var before := if e.id in b.events then b.events[e.id] else FirstRecord(b, e);
      Deliver(b, d).0.events ==
        if !HasRecord(e.kind) then b.events
        else b.events[e.id := before.(
          intent := if before.intent.None? && Links(b, e) then e.intent else before.intent,
          handled := before.handled || Deliver(b, d).1.Done?)]
  {
    var e, p := d.event, Persist(b, d.event);
    var before := if e.id in b.events then b.events[e.id] else FirstRecord(b, e);
    HandlerLinks(p, d);
    assert Links(p, e) <==> Links(b, e);
    if HasRecord(e.kind) {
      assert p.events == b.events[e.id := before];
    }
  }

  // ---------- renewals ----------

  /** The prior record's subscription was in its trial. */
  predicate WasTrialing(b: Billing, prior: Option<EventId>) {
    prior.Some? && prior.value in b.events && b.events[prior.value].status == Some("trialing")
  }

  /** The subscription of a known intent goes from its trial to active. */
  predicate TurnsPaid(b: Billing, d: Delivery) {
    && d.event.kind.SubscriptionUpdated? && Knows(b, d.event)
    && WasTrialing(b, d.prior) && d.event.status == Some("active")
  }

  /** The intent's last unprocessed renewal. */
  predicate IsNext(b: Billing, intent: Option<UserId>, i: int) {
    && 0 <= i < |b.renewals| && Some(b.renewals[i].intent) == intent && !b.renewals[i].processed
    && forall j :: i < j < |b.renewals| && Some(b.renewals[j].intent) == intent ==> b.renewals[j].processed
  }

  /** No other renewal carries the event. */
  predicate IsFreeFor(b: Billing, i: int, event: EventId) {
    forall j :: 0 <= j < |b.renewals| && j != i ==> b.renewals[j].event != event
  }

  lemma NextIsTheNewest(b: Billing, u: UserId)
    ensures match NewestUnprocessed(b.renewals, |b.renewals|, u)
      case None => forall i :: !IsNext(b, Some(u), i)
      case Some(k) => IsNext(b, Some(u), k) && forall i :: IsNext(b, Some(u), i) ==> i == k
  {
  }

  lemma RecordedStatus(b: Billing, d: Delivery)
    requires d.event.kind.SubscriptionUpdated? && d.event.intent.Some?
    ensures var linked := Link(Persist(b, d.event), d.event.id, d.event.intent.value);
      PriorStatus(linked.events, d.prior) == Some("trialing") && d.event.status == Some("active")
      <==> WasTrialing(b, d.prior) && d.event.status == Some("active")
  {
  }

  /** A stored record of the intent from strictly before this time. */
  predicate IsEarlier(b: Billing, id: EventId, intent: UserId, created: int) {
    id in b.events && b.events[id].intent == Some(intent) && b.events[id].created < created
  }

  /**
   The prior record that a new update of a known intent is compared with is the intent's latest strictly earlier one,
   whatever was delivered since; without an earlier one there is none.
   */
  lemma PriorIsTheLatestEarlier(b: Billing, e: Event, prior: Option<EventId>)
    requires e.kind.SubscriptionUpdated? && Knows(b, e) && e.id !in b.events
    requires IsPrior(Link(Persist(b, e), e.id, e.intent.value).events, e.intent.value, e.created, prior)
    ensures prior.None? ==> forall id :: !IsEarlier(b, id, e.intent.value, e.created)
    ensures prior.Some? ==>
      && IsEarlier(b, prior.value, e.intent.value, e.created)
      && forall id :: IsEarlier(b, id, e.intent.value, e.created) ==>
           b.events[id].created <= b.events[prior.value].created
  {
    var events := Link(Persist(b, e), e.id, e.intent.value).events;
    forall id
      ensures IsEarlier(b, id, e.intent.value, e.created)
         <==> id in events && Precedes(events[id], e.intent.value, e.created)
    {
    }
  }

  /** What a delivery leaves of the renewals and the calls. */
  ghost predicate Leaves(b: Billing, d: Delivery, renewals: seq<Renewal>, calls: seq<ProcessingCall>) {
    Deliver(b, d).0.renewals == renewals && Deliver(b, d).0.calls == calls
  }

  /**
   When a subscription turns paid, the intent's last unprocessed renewal, unless another renewal carries the event,
   takes the event; if the license manager answers, one call is made for it and it is processed.
   */
  lemma TrialToPaidProcessesOne(b: Billing, d: Delivery, i: nat)
    requires TurnsPaid(b, d) && IsNext(b, d.event.intent, i) && IsFreeFor(b, i, d.event.id)
    ensures var taken := b.renewals[i].(event := d.event.id, subscription := d.event.subscription);
      if d.licenseManagerOk then
        Deliver(b, d).1.Done?
        && Leaves(b, d, b.renewals[i := taken.(processed := true)], b.calls + [ProcessingCall(i, d.event.id)])
      else Deliver(b, d).1.Raised? && Leaves(b, d, b.renewals[i := taken], b.calls)
  {
    RecordedStatus(b, d);
    NextIsTheNewest(b, d.event.intent.value);
  }

  /** Whether there is a next renewal that can take the event. */
  predicate CanProcess(b: Billing, d: Delivery) {
    exists i :: 0 <= i < |b.renewals| && IsNext(b, d.event.intent, i) && IsFreeFor(b, i, d.event.id)
  }

  lemma UpdateOtherwiseProcessesNothing(b: Billing, d: Delivery)
    requires d.event.kind.SubscriptionUpdated? && Knows(b, d.event) && !(TurnsPaid(b, d) && CanProcess(b, d))
    ensures Leaves(b, d, b.renewals, b.calls)
  {
    RecordedStatus(b, d);
    NextIsTheNewest(b, d.event.intent.value);
  }

  /** In every other case a delivery leaves the renewals and the calls as they were. */
  lemma OtherwiseNothingIsProcessed(b: Billing, d: Delivery)
    requires !(TurnsPaid(b, d) && CanProcess(b, d))
    ensures Leaves(b, d, b.renewals, b.calls)
  {
    if d.event.kind.SubscriptionUpdated? && Knows(b, d.event) {
      UpdateOtherwiseProcessesNothing(b, d);
    }
  }

  /** A delivery keeps what makes its event due: the intent and the status of the prior record. */
  lemma StaysDue(b: Billing, d: Delivery)
    requires TurnsPaid(b, d)
    ensures TurnsPaid(Deliver(b, d).0, d)
  {
    DeliveryPaysIff(b, d);
    DeliveryRecords(b, d);
  }

  /** A redelivery after a failed call of the license manager processes the renewal that the failed one had taken. */
  lemma FailedCallIsRetried(b: Billing, d: Delivery, again: Delivery, i: nat)
    requires TurnsPaid(b, d) && IsNext(b, d.event.intent, i) && IsFreeFor(b, i, d.event.id)
    requires !d.licenseManagerOk && again.licenseManagerOk && again.event == d.event && again.prior == d.prior
    ensures var failed := Deliver(b, d).0;
      && Deliver(b, d).1.Raised? && failed.calls == b.calls
      && Deliver(failed, again).1.Done?
      && Deliver(failed, again).0.calls == b.calls + [ProcessingCall(i, d.event.id)]
      && Deliver(failed, again).0.renewals
         == b.renewals[i := b.renewals[i].(event := d.event.id, subscription := d.event.subscription,
                                           processed := true)]
  {
    TrialToPaidProcessesOne(b, d, i);
    StaysDue(b, d);
    TrialToPaidProcessesOne(Deliver(b, d).0, again, i);
  }

  // ---------- outcomes ----------

  /**
   A delivery raises exactly so: a paid invoice of a known intent that refuses the payment, unless it is to be
   graceful; a created or updated subscription of an unknown intent; a subscription turning paid whose next renewal
   cannot take the event or is not processed; any other created or updated subscription when a remote step fails.
   */
  lemma DeliveryRaisesIff(b: Billing, d: Delivery)
    ensures Deliver(b, d).1.Raised? <==>
      match d.event.kind
      case InvoicePaid => Knows(b, d.event) && !Pays(b, d.event) && !d.graceful
      case SubscriptionCreated => !Knows(b, d.event) || !d.remoteOk
      case SubscriptionUpdated =>
        if !Knows(b, d.event) then true
        else if TurnsPaid(b, d) then
          exists i :: IsNext(b, d.event.intent, i) && !(IsFreeFor(b, i, d.event.id) && d.licenseManagerOk)
        else !d.remoteOk
      case _ => false
  {
    if d.event.kind.InvoicePaid? && Knows(b, d.event) {
      PaymentIsAcceptedIff(b.intents, d.event.intent.value, None, d.event.customer, d.now);
    }
    if d.event.kind.SubscriptionUpdated? && Knows(b, d.event) {
      RecordedStatus(b, d);
      NextIsTheNewest(b, d.event.intent.value);
    }
  }

  // ---------- runs ----------

  predicate IsProcessed(b: Billing, i: nat) {
    i < |b.renewals| && b.renewals[i].processed
  }

  /** The step delivers an update that turns the subscription of the renewal's intent paid, and processes it. */
  predicate IsProcessing(b: Billing, s: Step, i: nat) {
    && s.DeliverStep? && TurnsPaid(b, s.d) && s.d.licenseManagerOk
    && IsNext(b, s.d.event.intent, i) && IsFreeFor(b, i, s.d.event.id)
  }

  lemma StepProcessesIff(b: Billing, s: Step, i: nat)
    ensures IsProcessed(Apply(b, s), i) <==> IsProcessed(b, i) || IsProcessing(b, s, i)
  {
    if s.DeliverStep? {
      if TurnsPaid(b, s.d) && CanProcess(b, s.d) {
        var j: nat :| j < |b.renewals| && IsNext(b, s.d.event.intent, j) && IsFreeFor(b, j, s.d.event.id);
        TrialToPaidProcessesOne(b, s.d, j);
        assert IsNext(b, s.d.event.intent, i) ==> i == j;
      } else {
        OtherwiseNothingIsProcessed(b, s.d);
      }
    }
  }

  /** Some step of the run processes the renewal, in the state the steps before it left. */
  ghost predicate SomeStepProcesses(b: Billing, steps: seq<Step>, i: nat) {
    steps != [] &&
    var n := |steps| - 1;
    SomeStepProcesses(b, steps[..n], i) || IsProcessing(Run(b, steps[..n]), steps[n], i)
  }

  /**
   Over every sequence of deliveries and tracked renewals, a renewal ends processed if and only if it was so at the
   start or some delivery found its intent's subscription turning paid, with this renewal next and its event free, and
   the license manager answered.
   */
  lemma {:induction false} RunsProcessIffTurnedPaid(b: Billing, steps: seq<Step>, i: nat)
    ensures IsProcessed(Run(b, steps), i) <==> IsProcessed(b, i) || SomeStepProcesses(b, steps, i)
  {
    if steps != [] {
      var n := |steps| - 1;
      RunsProcessIffTurnedPaid(b, steps[..n], i);
      StepProcessesIff(Run(b, steps[..n]), steps[n], i);
    }
  }
}
