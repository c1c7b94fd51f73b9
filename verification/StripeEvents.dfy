/**
 Handling Stripe events: one stored record per event, payment marks, and the
 processing of trial-to-paid renewals through the license manager.
 */
module StripeEvents {
  import opened Wrappers
  import opened CheckoutIntents

  type EventId = string

  datatype EventType =
    | InvoicePaid | TrialWillEnd | SubscriptionCreated | SubscriptionUpdated | SubscriptionDeleted
    | PaymentMethodAttached | Unregistered

  datatype Event = Event(
    id: EventId,
    kind: EventType,
    created: int,
    customer: Option<string>,
    intent: Option<UserId>,
    subscription: string,
    status: Option<string>)

  /** The stored event together with the summary columns derived from it. */
  datatype EventRecord = EventRecord(
    kind: EventType, created: int, status: Option<string>, intent: Option<UserId>, handled: bool)

  datatype Renewal = Renewal(intent: UserId, planRenewal: int, event: EventId, subscription: string, processed: bool)

  /** A successful call of the license manager: which renewal it processed, for which event. */
  datatype ProcessingCall = ProcessingCall(renewal: nat, event: EventId)

  datatype Billing = Billing(
    intents: Intents,
    events: map<EventId, EventRecord>,
    renewals: seq<Renewal>,
    calls: seq<ProcessingCall>)

  /** One delivery: the event, and how its surroundings answer. */
  datatype Delivery = Delivery(
    event: Event,
    prior: Option<EventId>,
    licenseManagerOk: bool,
    remoteOk: bool,
    graceful: bool,
    now: int)

  datatype Outcome = Done | Raised

  // ---------- records ----------

  /** Invoices and subscription events carry a subscription and are stored. */
  predicate IsStored(kind: EventType) {
    !kind.PaymentMethodAttached? && !kind.Unregistered?
  }

  /** The status column is filled from subscription events only. */
  function SummaryStatus(e: Event): Option<string> {
    if e.kind.InvoicePaid? then None else e.status
  }

  /** The intent named by the event, if its Stripe customer matches. */
  function MatchingIntent(m: Intents, e: Event): Option<UserId> {
    if e.intent.Some? && e.intent.value in m && m[e.intent.value].customerId == e.customer then e.intent else None
  }

  /** Get or create: an event that is already stored is left as it is. */
  function Persist(b: Billing, e: Event): Billing {
    if !IsStored(e.kind) || e.id in b.events then b
    else
      var record := EventRecord(e.kind, e.created, SummaryStatus(e), MatchingIntent(b.intents, e), false);
      b.(events := b.events[e.id := record])
  }

  /** Point a stored event at an intent, unless it already points at one. */
  function Link(b: Billing, id: EventId, intent: UserId): Billing {
    if id in b.events && b.events[id].intent.None?
    then b.(events := b.events[id := b.events[id].(intent := Some(intent))])
    else b
  }

  /** A record of the intent from before this time. */
  predicate Precedes(r: EventRecord, intent: UserId, created: int) {
    r.intent == Some(intent) && r.created < created
  }

  /** A latest summary of the intent strictly before the event, if there is any. */
  ghost predicate IsPrior(events: map<EventId, EventRecord>, intent: UserId, created: int, prior: Option<EventId>) {
    match prior
    case None => forall id :: id in events ==> !Precedes(events[id], intent, created)
    case Some(p) =>
      && p in events && Precedes(events[p], intent, created)
      && forall id :: id in events && Precedes(events[id], intent, created) ==> events[id].created <= events[p].created
  }

  function PriorStatus(events: map<EventId, EventRecord>, prior: Option<EventId>): Option<string> {
    if prior.Some? && prior.value in events then events[prior.value].status else None
  }

  // ---------- renewals ----------

  /** The newest unprocessed renewal of an intent among the first n. */
  function NewestUnprocessed(renewals: seq<Renewal>, n: nat, intent: UserId): (r: Option<nat>)
    requires n <= |renewals|
    ensures r.Some? ==> r.value < n && !renewals[r.value].processed && renewals[r.value].intent == intent
    ensures r.Some? ==> forall i :: r.value < i < n && renewals[i].intent == intent ==> renewals[i].processed
    ensures r.None? ==> forall i :: 0 <= i < n && renewals[i].intent == intent ==> renewals[i].processed
  {
    if n == 0 then None
    else if renewals[n - 1].intent == intent && !renewals[n - 1].processed then Some(n - 1)
    else NewestUnprocessed(renewals, n - 1, intent)
  }

  /** The one-to-one column: no other renewal carries the event. */
  predicate EventFree(renewals: seq<Renewal>, i: nat, event: EventId) {
    forall j :: 0 <= j < |renewals| && j != i ==> renewals[j].event != event
  }

  /** Attach the event to the newest unprocessed renewal, then process it. */
  function ProcessRenewal(b: Billing, intent: UserId, d: Delivery): (Billing, Outcome) {
    match NewestUnprocessed(b.renewals, |b.renewals|, intent)
    case None => (b, Done)
    case Some(i) =>
      if !EventFree(b.renewals, i, d.event.id) then (b, Raised)
      else
        var attached := b.renewals[i].(event := d.event.id, subscription := d.event.subscription);
        if !d.licenseManagerOk then (b.(renewals := b.renewals[i := attached]), Raised)
        else (b.(renewals := b.renewals[i := attached.(processed := true)],
                 calls := b.calls + [ProcessingCall(i, d.event.id)]), Done)
  }

  // ---------- handlers ----------

  function HandleInvoicePaid(b: Billing, d: Delivery): (Billing, Outcome) {
    var e := d.event;
    if e.intent.None? || e.intent.value !in b.intents then (b, Done)
    else if !CanMark(b.intents[e.intent.value], MarkPaid(None, e.customer)) then
      (b, if d.graceful then Done else Raised)
    else
      var paid := b.(intents := MarkIntent(b.intents, e.intent.value, MarkPaid(None, e.customer), d.now));
      (Link(paid, e.id, e.intent.value), Done)
  }

  function HandleSubscriptionUpdated(b: Billing, d: Delivery): (Billing, Outcome) {
    var e := d.event;
    if e.intent.None? || e.intent.value !in b.intents then (b, Raised)
    else
      var linked := Link(b, e.id, e.intent.value);
      if PriorStatus(linked.events, d.prior) == Some("trialing") && e.status == Some("active")
      then ProcessRenewal(linked, e.intent.value, d)
      else (linked, if d.remoteOk then Done else Raised)
  }

  function Handle(b: Billing, d: Delivery): (Billing, Outcome) {
    var e := d.event;
    match e.kind
    case InvoicePaid => HandleInvoicePaid(b, d)
    case TrialWillEnd =>
      if e.intent.None? || e.intent.value !in b.intents then (b, Done) else (Link(b, e.id, e.intent.value), Done)
    case SubscriptionCreated =>
      if e.intent.None? || e.intent.value !in b.intents then (b, Raised)
      else (Link(b, e.id, e.intent.value), if d.remoteOk then Done else Raised)
    case SubscriptionUpdated => HandleSubscriptionUpdated(b, d)
    case SubscriptionDeleted => (b, Done)
    case PaymentMethodAttached => (b, Done)
    case Unregistered => (b, Done)
  }

  function MarkHandled(b: Billing, id: EventId): Billing {
    if id in b.events then b.(events := b.events[id := b.events[id].(handled := true)]) else b
  }

  /** Persist, handle, and mark the stored record as handled unless the handler raised. */
  function Deliver(b: Billing, d: Delivery): (Billing, Outcome) {
    var (after, outcome) := Handle(Persist(b, d.event), d);
    (if outcome.Done? && IsStored(d.event.kind) then MarkHandled(after, d.event.id) else after, outcome)
  }

  // ---------- the handlers in place ----------

  class StripeEventHandler {
    const checkout: CheckoutTable
    var events: map<EventId, EventRecord>
    var renewals: seq<Renewal>
    var calls: seq<ProcessingCall>

    constructor (checkout: CheckoutTable)
      ensures this.checkout == checkout && State() == Billing(checkout.intents, map[], [], [])
    {
      this.checkout := checkout;
      events, renewals, calls := map[], [], [];
    }

    ghost function State(): Billing
      reads this, checkout
    {
      Billing(checkout.intents, events, renewals, calls)
    }

    /** Dispatch one event to its handler; an exception leaves whatever was already saved. */
    method Dispatch(e: Event, licenseManagerOk: bool, remoteOk: bool, graceful: bool, now: int)
      returns (outcome: Outcome, prior: Option<EventId>)
      modifies this, checkout
      ensures (State(), outcome) == Deliver(old(State()), Delivery(e, prior, licenseManagerOk, remoteOk, graceful, now))
      ensures e.kind.SubscriptionUpdated? && e.intent.Some? && e.intent.value in old(checkout.intents) ==>
        IsPrior(Link(Persist(old(State()), e), e.id, e.intent.value).events, e.intent.value, e.created, prior)
    {
      outcome, prior := Outcome.Done, None;
      PersistStripeEvent(e);
      if e.kind.InvoicePaid? {
        outcome := HandlePaidInvoice(e, graceful, now);
      } else if e.kind.TrialWillEnd? {
        if e.intent.Some? && e.intent.value in checkout.intents {
          LinkEventData(e.id, e.intent.value);
        }
      } else if e.kind.SubscriptionCreated? || e.kind.SubscriptionUpdated? {
        if e.intent.None? || e.intent.value !in checkout.intents {
          return Raised, None;
        }
        LinkEventData(e.id, e.intent.value);
        outcome := if remoteOk then Outcome.Done else Raised;
        if e.kind.SubscriptionUpdated? {
          prior := FindPriorSummary(e.intent.value, e.created);
          if PriorStatus(events, prior) == Some("trialing") && e.status == Some("active") {
            outcome := ProcessTrialToPaidRenewal(e.intent.value, e, licenseManagerOk);
          }
        }
      }
      if outcome.Done? && IsStored(e.kind) && e.id in events {
        events := events[e.id := events[e.id].(handled := true)];
      }
    }

    method PersistStripeEvent(e: Event)
      modifies this
      ensures State() == Persist(old(State()), e)
    {
      if IsStored(e.kind) && e.id !in events {
        var intent := MatchingIntent(checkout.intents, e);
        events := events[e.id := EventRecord(e.kind, e.created, SummaryStatus(e), intent, false)];
      }
    }

    method LinkEventData(id: EventId, intent: UserId)
      modifies this
      ensures State() == Link(old(State()), id, intent)
    {
      if id in events && events[id].intent.None? {
        events := events[id := events[id].(intent := Some(intent))];
      }
    }

    method HandlePaidInvoice(e: Event, graceful: bool, now: int) returns (outcome: Outcome)
      modifies this, checkout
      ensures forall prior, lm, remote ::
        (State(), outcome) == HandleInvoicePaid(old(State()), Delivery(e, prior, lm, remote, graceful, now))
    {
      if e.intent.None? || e.intent.value !in checkout.intents {
        return Outcome.Done;
      }
      var ok := checkout.MarkAsPaid(e.intent.value, None, e.customer, now);
      if !ok {
        return if graceful then Outcome.Done else Raised;
      }
      LinkEventData(e.id, e.intent.value);
      outcome := Outcome.Done;
    }

    /** Scan the stored events for the latest one of the intent before the given time. */
    method FindPriorSummary(intent: UserId, created: int) returns (prior: Option<EventId>)
      ensures IsPrior(events, intent, created, prior)
    {
      prior := None;
      var todo := events.Keys;
      while todo != {}
        invariant todo <= events.Keys
        invariant IsPrior(events - todo, intent, created, prior)
        decreases todo
      {
        var id :| id in todo;
        ghost var seen := events - todo;
        if Precedes(events[id], intent, created)
           && (prior.None? || events[prior.value].created < events[id].created) {
          prior := Some(id);
        }
        todo := todo - {id};
        assert forall x :: x in events - todo ==> x == id || x in seen;
      }
      assert events - todo == events;
    }

    /** Attach the event, call the license manager, then mark the renewal as processed. */
    method ProcessTrialToPaidRenewal(intent: UserId, e: Event, licenseManagerOk: bool) returns (outcome: Outcome)
      modifies this
      ensures forall prior, remote, graceful, now ::
        (State(), outcome)
        == ProcessRenewal(old(State()), intent, Delivery(e, prior, licenseManagerOk, remote, graceful, now))
    {
      var target := NewestUnprocessed(renewals, |renewals|, intent);
      if target.None? {
        return Outcome.Done;
      }
      var i := target.value;
      if !EventFree(renewals, i, e.id) {
        return Raised;
      }
      renewals := renewals[i := renewals[i].(event := e.id, subscription := e.subscription)];
      if !licenseManagerOk {
        return Raised;
      }
      calls := calls + [ProcessingCall(i, e.id)];
      renewals := renewals[i := renewals[i].(processed := true)];
      assert renewals == old(renewals)[i := renewals[i]];
      outcome := Outcome.Done;
    }
  }
}
