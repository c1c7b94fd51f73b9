/** Redelivered and reordered Stripe events never process a renewal twice. */
module StripeEventProofs {
  import opened Wrappers
  import opened CheckoutIntents
  import opened StripeEvents

  // ---------- invariants ----------

  /** The one-to-one column between renewals and events. */
  ghost predicate EventsUnique(renewals: seq<Renewal>) {
    forall i, j :: 0 <= i < j < |renewals| ==> renewals[i].event != renewals[j].event
  }

  /** Every call processed the renewal it names, which still carries the call's event. */
  ghost predicate CallsOnRecord(b: Billing) {
    forall c :: c in b.calls ==>
      c.renewal < |b.renewals| && b.renewals[c.renewal].processed && b.renewals[c.renewal].event == c.event
  }

  ghost predicate NoRenewalTwice(calls: seq<ProcessingCall>) {
    forall i, j :: 0 <= i < j < |calls| ==> calls[i].renewal != calls[j].renewal
  }

  /** Every processed renewal was processed by a call on record. */
  ghost predicate ProcessedByCalls(b: Billing) {
    forall i :: 0 <= i < |b.renewals| && b.renewals[i].processed ==> ProcessingCall(i, b.renewals[i].event) in b.calls
  }

  ghost predicate Inv(b: Billing) {
    EventsUnique(b.renewals) && CallsOnRecord(b) && NoRenewalTwice(b.calls) && ProcessedByCalls(b)
  }

  // ---------- steps ----------

  datatype Step = DeliverStep(d: Delivery) | TrackRenewalStep(r: Renewal)

  /** Provisioning adds an unprocessed renewal, unless its event is already taken. */
  function TrackRenewal(b: Billing, r: Renewal): Billing {
    if r.processed || !EventFree(b.renewals, |b.renewals|, r.event) then b
    else b.(renewals := b.renewals + [r])
  }

  function Apply(b: Billing, s: Step): Billing {
    match s
    case DeliverStep(d) => Deliver(b, d).0
    case TrackRenewalStep(r) => TrackRenewal(b, r)
  }

  function Run(b: Billing, steps: seq<Step>): Billing {
    if steps == [] then b else Apply(Run(b, steps[..|steps| - 1]), steps[|steps| - 1])
  }

  /** The same renewals and the same record of calls. */
  ghost predicate SameLedger(a: Billing, b: Billing) {
    a.renewals == b.renewals && a.calls == b.calls
  }

  /** The ledger moved as one renewal processing for this intent moves it. */
  ghost predicate Processed(b: Billing, d: Delivery, intent: UserId, after: Billing) {
    SameLedger(after, ProcessRenewal(b, intent, d).0)
  }

  lemma ProcessingIgnoresEvents(a: Billing, b: Billing, intent: UserId, d: Delivery)
    requires SameLedger(a, b)
    ensures SameLedger(ProcessRenewal(a, intent, d).0, ProcessRenewal(b, intent, d).0)
  {
  }

  lemma UpdateTouchesRenewalsOnce(b: Billing, d: Delivery)
    ensures var after := HandleSubscriptionUpdated(b, d).0;
      SameLedger(after, b) || (d.event.intent.Some? && Processed(b, d, d.event.intent.value, after))
  {
    if d.event.intent.Some? {
      var linked := Link(b, d.event.id, d.event.intent.value);
      assert SameLedger(linked, b);
      ProcessingIgnoresEvents(linked, b, d.event.intent.value, d);
    }
  }

  lemma HandlingTouchesRenewalsOnce(b: Billing, d: Delivery)
    ensures var after := Handle(b, d).0;
      SameLedger(after, b) || (d.event.intent.Some? && Processed(b, d, d.event.intent.value, after))
  {
    if d.event.kind.SubscriptionUpdated? {
      UpdateTouchesRenewalsOnce(b, d);
    } else {
      assert SameLedger(Handle(b, d).0, b);
    }
  }

  /** Renewals and calls are only touched by renewal processing. */
  lemma DeliveryTouchesRenewalsOnce(b: Billing, d: Delivery)
    ensures var after := Deliver(b, d).0;
      SameLedger(after, b) || (d.event.intent.Some? && Processed(b, d, d.event.intent.value, after))
  {
    var p := Persist(b, d.event);
    assert SameLedger(p, b);
    HandlingTouchesRenewalsOnce(p, d);
    assert SameLedger(Deliver(b, d).0, Handle(p, d).0);
    if d.event.intent.Some? {
      ProcessingIgnoresEvents(p, b, d.event.intent.value, d);
    }
  }

  lemma ProcessingKeepsInv(b: Billing, intent: UserId, d: Delivery)
    requires Inv(b)
    ensures Inv(ProcessRenewal(b, intent, d).0)
  {
    var after := ProcessRenewal(b, intent, d).0;
    var target := NewestUnprocessed(b.renewals, |b.renewals|, intent);
    if target.Some? && after != b {
      var i := target.value;
      assert forall c :: c in b.calls ==> c.renewal != i;
      forall j, k | 0 <= j < k < |after.renewals|
        ensures after.renewals[j].event != after.renewals[k].event
      {
      }
      if d.licenseManagerOk {
        var call := ProcessingCall(i, d.event.id);
        assert after.calls == b.calls + [call];
        assert call in after.calls;
        assert forall k :: 0 <= k < |b.calls| ==> b.calls[k] in b.calls;
        forall k | 0 <= k < |after.renewals| && after.renewals[k].processed
          ensures ProcessingCall(k, after.renewals[k].event) in after.calls
        {
          if k != i {
            assert ProcessingCall(k, b.renewals[k].event) in b.calls;
          }
        }
      }
    }
  }

  lemma StepKeepsInv(b: Billing, s: Step)
    requires Inv(b)
    ensures Inv(Apply(b, s))
  {
    match s {
      case DeliverStep(d) =>
        DeliveryTouchesRenewalsOnce(b, d);
        var after := Deliver(b, d).0;
        if !SameLedger(after, b) {
          ProcessingKeepsInv(b, d.event.intent.value, d);
        }
      case TrackRenewalStep(r) =>
    }
  }

  lemma {:induction false} RunsKeepInv(b: Billing, steps: seq<Step>)
    requires Inv(b)
    ensures Inv(Run(b, steps))
  {
    if steps != [] {
      RunsKeepInv(b, steps[..|steps| - 1]);
      StepKeepsInv(Run(b, steps[..|steps| - 1]), steps[|steps| - 1]);
    }
  }

  /**
   Over every sequence of deliveries, repeats and reorderings included: the successful processing
   calls name each renewal at most once, name exactly the processed renewals, and no event
   appears in two of them.
   */
  lemma RedeliveryNeverProcessesTwice(b: Billing, steps: seq<Step>)
    requires Inv(b)
    ensures var calls := Run(b, steps).calls;
      && (forall i, j :: 0 <= i < j < |calls| ==>
            calls[i].renewal != calls[j].renewal && calls[i].event != calls[j].event)
      && (forall i: nat :: i < |Run(b, steps).renewals| ==>
            (Run(b, steps).renewals[i].processed <==> exists c :: c in calls && c.renewal == i))
  {
    RunsKeepInv(b, steps);
    var after := Run(b, steps);
    forall i, j | 0 <= i < j < |after.calls|
      ensures after.calls[i].renewal != after.calls[j].renewal && after.calls[i].event != after.calls[j].event
    {
      assert after.calls[i] in after.calls && after.calls[j] in after.calls;
    }
    forall i: nat | i < |after.renewals| && after.renewals[i].processed
      ensures exists c :: c in after.calls && c.renewal == i
    {
      assert ProcessingCall(i, after.renewals[i].event) in after.calls;
    }
  }

  /** An event that has processed a renewal processes nothing when it is delivered again. */
  lemma RedeliveredEventProcessesNothing(b: Billing, d: Delivery)
    requires Inv(b) && exists c :: c in b.calls && c.event == d.event.id
    ensures Deliver(b, d).0.calls == b.calls && Deliver(b, d).0.renewals == b.renewals
  {
    var c :| c in b.calls && c.event == d.event.id;
    assert forall i :: 0 <= i < |b.renewals| && !b.renewals[i].processed ==> !EventFree(b.renewals, i, d.event.id) by {
      assert b.renewals[c.renewal].event == d.event.id;
    }
    DeliveryTouchesRenewalsOnce(b, d);
  }

  // ---------- tracked renewals ----------

  /** No renewal is lost, moved, or handed to another intent or plan. */
  ghost predicate RenewalsKept(b: Billing, after: Billing) {
    && |b.renewals| <= |after.renewals|
    && forall i :: 0 <= i < |b.renewals| ==>
         && after.renewals[i].intent == b.renewals[i].intent
         && after.renewals[i].planRenewal == b.renewals[i].planRenewal
         && (b.renewals[i].processed ==> after.renewals[i].processed)
  }

  lemma {:induction false} RunsKeepRenewals(b: Billing, steps: seq<Step>)
    ensures RenewalsKept(b, Run(b, steps))
  {
    if steps != [] {
      var n := |steps| - 1;
      RunsKeepRenewals(b, steps[..n]);
      StepKeepsRenewals(Run(b, steps[..n]), steps[n]);
    }
  }

  lemma ProcessingKeepsRenewals(b: Billing, intent: UserId, d: Delivery)
    ensures RenewalsKept(b, ProcessRenewal(b, intent, d).0)
  {
  }

  lemma StepKeepsRenewals(b: Billing, s: Step)
    ensures RenewalsKept(b, Apply(b, s))
  {
    if s.DeliverStep? {
      DeliveryTouchesRenewalsOnce(b, s.d);
      var after := Deliver(b, s.d).0;
      if !SameLedger(after, b) {
        ProcessingKeepsRenewals(b, s.d.event.intent.value, s.d);
        assert after.renewals == ProcessRenewal(b, s.d.event.intent.value, s.d).0.renewals;
      }
    }
  }

  /** A new unprocessed renewal whose event no other carries is tracked, and stays with its intent in every run. */
  lemma TrackedRenewalsStay(b: Billing, r: Renewal, steps: seq<Step>)
    requires !r.processed && forall j :: 0 <= j < |b.renewals| ==> b.renewals[j].event != r.event
    ensures var after, i := Run(Apply(b, TrackRenewalStep(r)), steps), |b.renewals|;
      i < |after.renewals| && after.renewals[i].intent == r.intent && after.renewals[i].planRenewal == r.planRenewal
  {
    RunsKeepRenewals(Apply(b, TrackRenewalStep(r)), steps);
    assert Apply(b, TrackRenewalStep(r)).renewals == b.renewals + [r];
  }

  // ---------- stored events ----------

  /** Stored payloads are those of the first delivery, and a link is never changed. */
  ghost predicate EventsKept(b: Billing, after: Billing) {
    forall id :: id in b.events ==>
      && id in after.events
      && after.events[id].kind == b.events[id].kind
      && after.events[id].created == b.events[id].created
      && after.events[id].status == b.events[id].status
      && (b.events[id].intent.Some? ==> after.events[id].intent == b.events[id].intent)
      && (b.events[id].handled ==> after.events[id].handled)
  }

  lemma DeliveryKeepsEvents(b: Billing, d: Delivery)
    ensures EventsKept(b, Deliver(b, d).0)
    ensures Deliver(b, d).0.events.Keys == b.events.Keys + if IsStored(d.event.kind) then {d.event.id} else {}
  {
    var p := Persist(b, d.event);
    assert EventsKept(b, p);
    HandlingKeepsEvents(p, d);
  }

  lemma HandlingKeepsEvents(b: Billing, d: Delivery)
    ensures EventsKept(b, Handle(b, d).0)
    ensures Handle(b, d).0.events.Keys == b.events.Keys
  {
    if d.event.kind.InvoicePaid? {
      assert EventsKept(b, HandleInvoicePaid(b, d).0);
    } else if d.event.kind.SubscriptionUpdated? {
      UpdatesKeepEvents(b, d);
    }
  }

  lemma UpdatesKeepEvents(b: Billing, d: Delivery)
    ensures EventsKept(b, HandleSubscriptionUpdated(b, d).0)
    ensures HandleSubscriptionUpdated(b, d).0.events.Keys == b.events.Keys
  {
    if d.event.intent.Some? {
      var linked := Link(b, d.event.id, d.event.intent.value);
      assert EventsKept(b, linked) && linked.events.Keys == b.events.Keys;
      assert ProcessRenewal(linked, d.event.intent.value, d).0.events == linked.events;
    }
  }

  ghost function StoredIds(steps: seq<Step>): set<EventId> {
    set s | s in steps && s.DeliverStep? && IsStored(s.d.event.kind) :: s.d.event.id
  }

  /** One record per delivered event id, holding the first payload, whatever is delivered afterwards. */
  lemma {:induction false} OneRecordPerEvent(b: Billing, steps: seq<Step>)
    ensures EventsKept(b, Run(b, steps))
    ensures Run(b, steps).events.Keys == b.events.Keys + StoredIds(steps)
  {
    if steps != [] {
      var n := |steps| - 1;
      var before := Run(b, steps[..n]);
      OneRecordPerEvent(b, steps[..n]);
      StepAddsItsEvent(before, steps[n]);
      KeptTwice(b, before, Run(b, steps));
      StoredIdsStep(steps);
    }
  }

  /** The event id a step stores, if it stores one. */
  ghost function StoredId(s: Step): set<EventId> {
    if s.DeliverStep? && IsStored(s.d.event.kind) then {s.d.event.id} else {}
  }

  lemma StepAddsItsEvent(b: Billing, s: Step)
    ensures EventsKept(b, Apply(b, s))
    ensures Apply(b, s).events.Keys == b.events.Keys + StoredId(s)
  {
    if s.DeliverStep? {
      DeliveryKeepsEvents(b, s.d);
    }
  }

  lemma KeptTwice(a: Billing, b: Billing, c: Billing)
    requires EventsKept(a, b) && EventsKept(b, c)
    ensures EventsKept(a, c)
  {
  }

  lemma StoredIdsStep(steps: seq<Step>)
    requires steps != []
    ensures var n := |steps| - 1; StoredIds(steps) == StoredIds(steps[..n]) + StoredId(steps[n])
  {
    assert steps == steps[..|steps| - 1] + [steps[|steps| - 1]];
  }
}
