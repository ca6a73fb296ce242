/** The bulk generator. Every random draw is an arbitrary value of its range, so what is proved holds
    for every seed. */
module BulkGenerator {
  import opened Text
  import opened BulkBook

  const HOUR := 3_600_000

  const DAY := 86_400_000

  method Draw(min: int, max: int) returns (n: int)
    requires min <= max
    ensures min <= n <= max
  {
    n :| min <= n <= max;
  }

  /** The full course of a parcel: picked up, one to three legs, perhaps an exception, delivered. */
  function Journey(legs: nat, exception: bool): seq<TrackingCode> {
    [PickedUp] + seq(legs, _ => InTransit) + (if exception then [ExceptionScan] else []) + [OutForDelivery, Delivered]
  }

  /** How far a parcel has got: a non-empty beginning of some journey, the whole of it only when old. What
      is left, or done, is as many stages as its age allows. */
  ghost predicate TrackedSoFar(codes: seq<TrackingCode>, age: int, legs: nat, exception: bool) {
    && 1 <= legs <= 3
    && codes != [] && codes <= Journey(legs, exception)
    && var left := |Journey(legs, exception)| - |codes|;
       if age > 12 * 86_400_000 then left == 0
       else if age > 8 * 86_400_000 then left <= 1
       else if age > 5 * 86_400_000 then 1 <= left <= 2
       else if age > 2 * 86_400_000 then 2 <= |codes| <= 3
       else 1 <= |codes| <= 2
  }

  method TrackingChain(age: int) returns (codes: seq<TrackingCode>, ghost legs: nat, ghost exception: bool)
    ensures TrackedSoFar(codes, age, legs, exception)
    ensures codes != [] && codes[0] == PickedUp
    ensures age > 12 * 86_400_000 ==> codes[|codes| - 1] == Delivered
    ensures codes[|codes| - 1] == Delivered ==> 4 <= |codes| <= 7 && age > 8 * 86_400_000
  {
    var drawn := Draw(1, 3);
    var delayed: bool := *;
    legs, exception := drawn, delayed;
    var chain := [PickedUp];
    for i := 0 to drawn
      invariant chain == [PickedUp] + seq(i, _ => InTransit)
    {
      chain := chain + [InTransit];
    }
    if delayed {
      chain := chain + [ExceptionScan];
    }
    chain := chain + [OutForDelivery, Delivered];
    assert chain == Journey(legs, exception);
    if age > 12 * DAY {
      codes := chain;
    } else if age > 8 * DAY {
      var whole: bool := *;
      codes := if whole then chain else chain[..|chain| - 1];
    } else if age > 5 * DAY {
      var cut := Draw(1, 2);
      codes := chain[..|chain| - cut];
    } else {
      var extra := Draw(0, 1);
      codes := if age > 2 * DAY then chain[..2 + extra] else chain[..1 + extra];
    }
    JourneyEnds(codes, legs, exception);
  }

  /** The stages of a journey are in order of the parcel's way, each leg one and no other twice. */
  lemma JourneyStages(legs: nat, exception: bool, i: nat)
    requires i < |Journey(legs, exception)|
    ensures |Journey(legs, exception)| == legs + if exception then 4 else 3
    ensures var code := Journey(legs, exception)[i];
            && (code == PickedUp <==> i == 0) && (code == InTransit <==> 1 <= i <= legs)
            && (code == ExceptionScan <==> exception && i == legs + 1)
            && (code == OutForDelivery <==> i == |Journey(legs, exception)| - 2)
            && (code == Delivered <==> i == |Journey(legs, exception)| - 1)
  {
  }

  /** A beginning of a journey starts at the pick-up, and ends delivered only when it is the whole. */
  lemma JourneyEnds(codes: seq<TrackingCode>, legs: nat, exception: bool)
    requires codes != [] && codes <= Journey(legs, exception)
    ensures codes[0] == PickedUp
    ensures codes[|codes| - 1] == Delivered <==> codes == Journey(legs, exception)
  {
    var journey := Journey(legs, exception);
    assert journey[..|journey| - 1] ==
           [PickedUp] + seq(legs, _ => InTransit) + (if exception then [ExceptionScan] else []) + [OutForDelivery];
    assert forall i | 0 <= i < |journey| - 1 :: journey[..|journey| - 1][i] == journey[i] != Delivered;
  }

  /** What an accepted quote adds, all of it about the one order. */
  lemma AcceptedIsSound(options: seq<RateOption>, quote: Quote, request: Option<PickupRequest>, pickup: Option<Pickup>,
                        shipped: Shipped, known: set<Id>, sequence: nat, next: Id, next': Id)
    requires quote.id == next < next' && quote.customer in known
    requires quote.status == Accepted && quote.order == Some(shipped.order.id)
    requires quote.customer == shipped.order.customer
    requires options != [] <==> quote.selectedOption.Some?
    requires forall o | o in options :: o.quote == quote.id
    requires quote.selectedOption.Some? ==> RateOption(quote.selectedOption.value, quote.id) in options
    requires request.Some? <==> quote.selectedOption.Some?
    requires request.Some? ==>
               request.value == PickupRequest(request.value.id, quote.id, quote.customer, RequestCompleted, quote.order)
    requires pickup.Some? <==> quote.selectedOption.None?
    requires pickup.Some? ==> pickup.value.quote == quote.id && pickup.value.order == shipped.order.id
    requires ShippedSound(shipped, known, sequence, next, next')
    requires EntryIdsApart(Entry(options, quote, request, pickup, Some(shipped)), next, next')
    ensures EntrySound(Entry(options, quote, request, pickup, Some(shipped)), known, sequence, next, next')
  {
    hide ShippedSound, EntryIdsApart;
  }

  /** Identifiers drawn one after the other are apart in every collection. */
  lemma AcceptedIdsApart(e: Entry, next: Id, optioned: Id, middle: Id, next': Id)
    requires e.shipped.Some? && next <= optioned <= middle < next' && Rising(e.options, OptionId, next, optioned)
    requires e.request.Some? ==> next <= e.request.value.id < next'
    requires e.pickup.Some? ==> next <= e.pickup.value.id < next'
    requires middle <= e.shipped.value.number.id < next' && Rising(e.shipped.value.chain, EventId, middle, next')
    requires Rising(Listed(e.shipped.value.invoice), PendingId, middle, next')
    ensures EntryIdsApart(e, next, next')
  {
  }

  /** The first scan is five to forty hours after the booking, each later one four to thirty after that
      before it. */
  ghost predicate ScannedSince(chain: seq<TrackingEvent>, createdAt: int) {
    && (chain != [] ==> 18_000_000 <= chain[0].time - createdAt <= 144_000_000)
    && forall i | 0 <= i < |chain| - 1 :: 14_400_000 <= chain[i + 1].time - chain[i].time <= 108_000_000
  }

  lemma NothingScanned(createdAt: int)
    ensures ScannedSince([], createdAt)
  {
  }

  lemma ScanAdded(chain: seq<TrackingEvent>, e: TrackingEvent, createdAt: int)
    requires ScannedSince(chain, createdAt)
    requires if chain == [] then 18_000_000 <= e.time - createdAt <= 144_000_000
             else 14_400_000 <= e.time - chain[|chain| - 1].time <= 108_000_000
    ensures ScannedSince(chain + [e], createdAt)
  {
  }

  /** Scans that far apart rise in time. */
  lemma {:induction false} ScansRise(chain: seq<TrackingEvent>, createdAt: int, i: nat, j: nat)
    requires ScannedSince(chain, createdAt) && i < j < |chain|
    ensures chain[i].time < chain[j].time
  {
    if i + 1 < j {
      ScansRise(chain, createdAt, i, j - 1);
    }
    assert 14_400_000 <= chain[j - 1 + 1].time - chain[j - 1].time;
  }

  /** The customer's own quote, billed as long after it was asked for as the draws of its path allow: seven
      to 137 hours when priced, eleven to 232 when priced by hand. */
  ghost predicate AskedBy(entry: Entry, customer: Id, createdAt: int) {
    && entry.quote.customer == customer
    && (entry.shipped.Some? && entry.shipped.value.invoice.Some? ==>
          if entry.quote.selectedOption.Some? then
            25_200_000 <= entry.shipped.value.invoice.value.date - createdAt <= 493_200_000
          else 39_600_000 <= entry.shipped.value.invoice.value.date - createdAt <= 835_200_000)
  }

  lemma BilledInTime(entry: Entry, createdAt: int, hours: int, billMin: int, billMax: int)
    requires if entry.quote.selectedOption.Some? then 6 <= hours <= 89 && 1 == billMin && billMax == 48
             else 9 <= hours <= 160 && 2 == billMin && billMax == 72
    requires entry.shipped.Some? && entry.shipped.value.invoice.Some? ==>
               var billed := entry.shipped.value.invoice.value.date - createdAt - hours * HOUR;
               billMin * HOUR <= billed <= billMax * HOUR
    ensures AskedBy(entry, entry.quote.customer, createdAt)
  {
  }

  /** The entry of a quote accepted by hand, with its pickup, and of one accepted after pricing, with its
      request. `drawn` was the next identifier when the quote had its own and its options theirs. */
  lemma ManualIsSound(quote: Quote, pickup: Pickup, shipped: Shipped, known: set<Id>, sequence: nat, createdAt: int,
                      elapsed: int, drawn: Id, next: Id)
    requires quote == Quote(quote.id, quote.customer, Accepted, None, Some(drawn)) && quote.id < drawn
    requires quote.customer in known && pickup == Pickup(drawn + 1, quote.id, drawn)
    requires FulfilledFor(quote, shipped, known, sequence, createdAt + elapsed * HOUR, 2, 72, drawn, next)
    requires 9 <= elapsed <= 160
    ensures var entry := Entry([], quote, None, Some(pickup), Some(shipped));
            EntrySound(entry, known, sequence, quote.id, next) && AskedBy(entry, quote.customer, createdAt)
  {
    hide ShippedSound, EntrySound, EntryIdsApart, Rising;
    var entry := Entry([], quote, None, Some(pickup), Some(shipped));
    NothingRises<RateOption>(OptionId, quote.id, drawn);
    BilledInTime(entry, createdAt, elapsed, 2, 72);
    AcceptedIdsApart(entry, quote.id, drawn, drawn + 2, next);
    AcceptedIsSound([], quote, None, Some(pickup), shipped, known, sequence, quote.id, next);
  }

  lemma PricedIsSound(options: seq<RateOption>, quote: Quote, request: PickupRequest, shipped: Shipped, known: set<Id>,
                      sequence: nat, createdAt: int, elapsed: int, drawn: Id, next: Id)
    requires quote == Quote(quote.id, quote.customer, Accepted, quote.selectedOption, Some(drawn + 1))
    requires quote.id < drawn && quote.customer in known
    requires quote.selectedOption.Some? && RateOption(quote.selectedOption.value, quote.id) in options
    requires (forall o | o in options :: o.quote == quote.id) && Rising(options, OptionId, quote.id, drawn)
    requires request == PickupRequest(drawn, quote.id, quote.customer, RequestCompleted, quote.order)
    requires FulfilledFor(quote, shipped, known, sequence, createdAt + elapsed * HOUR, 1, 48, drawn, next)
    requires 6 <= elapsed <= 89
    ensures var entry := Entry(options, quote, Some(request), None, Some(shipped));
            EntrySound(entry, known, sequence, quote.id, next) && AskedBy(entry, quote.customer, createdAt)
  {
    hide ShippedSound, EntrySound, EntryIdsApart, Rising;
    var entry := Entry(options, quote, Some(request), None, Some(shipped));
    BilledInTime(entry, createdAt, elapsed, 1, 48);
    AcceptedIdsApart(entry, quote.id, drawn, drawn + 2, next);
    AcceptedIsSound(options, quote, Some(request), None, shipped, known, sequence, quote.id, next);
  }

  /** The order of the quote, made with identifiers after its own, with its invoice in time. */
  ghost predicate FulfilledFor(quote: Quote, shipped: Shipped, known: set<Id>, sequence: nat, createdAt: int,
                               billMin: int, billMax: int, drawn: Id, next: Id) {
    && quote.order == Some(shipped.order.id) && quote.customer == shipped.order.customer
    && ShippedSound(shipped, known, sequence, quote.id, next)
    && drawn + 2 <= shipped.number.id < next && Rising(shipped.chain, EventId, drawn + 2, next)
    && Rising(Listed(shipped.invoice), PendingId, drawn + 2, next)
    && (shipped.invoice.Some? ==>
          createdAt + billMin * HOUR <= shipped.invoice.value.date <= createdAt + billMax * HOUR)
  }

  /** Each new customer of the wave in turn, then three returning ones of the pool for every five new, as
      far as the pool goes. */
  ghost predicate OwnersOf(owners: seq<Id>, customers: seq<Customer>, pool: seq<Id>) {
    var wanted := (6 * |customers| + 5) / 10;
    && |owners| == |customers| + (if |pool| < wanted then |pool| else wanted)
    && (forall i | 0 <= i < |customers| :: owners[i] == customers[i].id)
    && forall i | |customers| <= i < |owners| :: owners[i] in pool
  }

  /** The first `n` owners have asked for a quote each, and nobody but owners for any. */
  ghost predicate Asked(owners: seq<Id>, n: nat, quotes: seq<Quote>) {
    && (forall k | 0 <= k < n && k < |owners| :: exists q | q in quotes :: q.customer == owners[k])
    && forall q | q in quotes :: q.customer in owners
  }

  /** Invoices fall between seven hours after the wave's first moment and 232 after its last. */
  ghost predicate InWindow(pending: seq<PendingInvoice>, from: int, to: int) {
    forall p | p in pending :: from + 25_200_000 <= p.date <= to + 835_200_000
  }

  lemma NothingAsked(owners: seq<Id>, from: int, to: int)
    ensures Asked(owners, 0, []) && InWindow([], from, to)
  {
  }

  lemma AskedNext(owners: seq<Id>, i: nat, first: bool, before: Book, e: Entry, createdAt: int, from: int, to: int)
    requires i < |owners| && AskedBy(e, owners[i], createdAt) && from <= createdAt <= to
    requires Asked(owners, if first then i else i + 1, before.quotes) && InWindow(before.pending, from, to)
    ensures var after := Posted(before, e);
            Asked(owners, i + 1, after.quotes) && |after.quotes| == |before.quotes| + 1
              && InWindow(after.pending, from, to)
  {
    var after := Posted(before, e);
    assert e.quote in after.quotes;
    assert forall q | q in before.quotes :: q in after.quotes;
  }

  /** The row buffers of a wave with the counters its functions advance in place. */
  class Wave {
    var customers: seq<Customer>
    var quotes: seq<Quote>
    var options: seq<RateOption>
    var requests: seq<PickupRequest>
    var orders: seq<Order>
    var pickups: seq<Pickup>
    var shipments: seq<Shipment>
    var numbers: seq<TrackingNumber>
    var events: seq<TrackingEvent>
    var pending: seq<PendingInvoice>
    var shipmentSeq: nat
    var phoneCounter: nat
    var nextId: Id

    ghost function Rows(): Book
      reads this
    {
      Book(customers, quotes, options, requests, orders, pickups, shipments, numbers, events, pending)
    }

    constructor (shipmentSeq: nat, phoneCounter: nat, nextId: Id)
      ensures Rows() == EMPTY_BOOK
      ensures this.shipmentSeq == shipmentSeq && this.phoneCounter == phoneCounter && this.nextId == nextId
    {
      customers, quotes, options, requests, orders := [], [], [], [], [];
      pickups, shipments, numbers, events, pending := [], [], [], [], [];
      this.shipmentSeq, this.phoneCounter, this.nextId := shipmentSeq, phoneCounter, nextId;
    }

    /** An order, its shipment under the next sequence number, and its tracking number. */
    method BookShipment(orderId: Id, customer: Id, status: OrderStatus, lastCode: TrackingCode)
      returns (order: Order, shipment: Shipment, number: TrackingNumber)
      modifies this`orders, this`shipments, this`numbers, this`shipmentSeq, this`nextId
      ensures orders == old(orders) + [order] && shipments == old(shipments) + [shipment]
      ensures numbers == old(numbers) + [number]
      ensures order == Order(orderId, customer, status)
      ensures shipment == Shipment(old(nextId), orderId, old(shipmentSeq) + 1, lastCode)
      ensures number == TrackingNumber(old(nextId) + 1, shipment.id)
      ensures shipmentSeq == old(shipmentSeq) + 1 && nextId == old(nextId) + 2
    {
      shipmentSeq := shipmentSeq + 1;
      order := Order(orderId, customer, status);
      shipment := Shipment(nextId, orderId, shipmentSeq, lastCode);
      number := TrackingNumber(nextId + 1, nextId);
      nextId := nextId + 2;
      orders := orders + [order];
      shipments := shipments + [shipment];
      numbers := numbers + [number];
    }

    method DrawOpenStatus() returns (status: OrderStatus)
      ensures status != Completed
    {
      var pending: bool, cancelled: bool := *, *;
      status := if pending then Pending else if cancelled then Cancelled else Confirmed;
    }

    method MakeOrderAndShipment(orderId: Id, customer: Id, createdAt: int, now: int, ghost known: set<Id>,
                                ghost first: Id)
      returns (cancelled: bool, ghost made: Shipped)
      requires customer in known && first <= orderId < nextId
      modifies this`orders, this`shipments, this`numbers, this`events, this`shipmentSeq, this`nextId
      ensures Rows() == Dispatched(old(Rows()), made)
      ensures ShippedSound(made, known, old(shipmentSeq) + 1, first, nextId)
      ensures made.invoice.None? && made.order.id == orderId && made.order.customer == customer
      ensures ScannedSince(made.chain, createdAt)
      ensures now - createdAt > 12 * 86_400_000 ==> made.order.status == Completed
      ensures made.order.status == Completed ==> now - createdAt > 8 * 86_400_000
      ensures cancelled == (made.order.status == Cancelled)
      ensures old(nextId) <= made.number.id < nextId && Rising(made.chain, EventId, old(nextId), nextId)
      ensures shipmentSeq == old(shipmentSeq) + 1 && nextId >= old(nextId)
    {
      var codes, legs, exception := TrackingChain(now - createdAt);
      JourneyEnds(codes, legs, exception);
      hide Journey, ChainCoherent, TrackedSoFar, ScannedSince;
      var lastCode := codes[|codes| - 1];
      var status := Completed;
      if lastCode != Delivered {
        status := DrawOpenStatus();
      }
      var order, shipment, number := BookShipment(orderId, customer, status, lastCode);
      ghost var chain := AddEvents(shipment, number, codes, createdAt);
      made := Shipped(order, shipment, number, chain, None);
      cancelled := status == Cancelled;
      assert pending + Listed(made.invoice) == pending;
    }

    method AddEvents(shipment: Shipment, number: TrackingNumber, codes: seq<TrackingCode>, createdAt: int)
      returns (ghost chain: seq<TrackingEvent>)
      requires codes != [] && codes[0] == PickedUp && codes[|codes| - 1] == shipment.currentStatus
      modifies this`events, this`nextId
      ensures events == old(events) + chain && nextId >= old(nextId)
      ensures ChainCoherent(shipment, number, chain) && ScannedSince(chain, createdAt)
      ensures |chain| == |codes| && forall i | 0 <= i < |codes| :: chain[i].status == codes[i]
      ensures Rising(chain, EventId, old(nextId), nextId)
    {
      hide ScannedSince, Rising;
      var first := Draw(1, 10);
      var eventTime := createdAt + first * HOUR;
      chain := [];
      NothingScanned(createdAt);
      NothingRises<TrackingEvent>(EventId, nextId, nextId);
      for i := 0 to |codes|
        invariant nextId >= old(nextId)
        invariant |chain| == i && events == old(events) + chain
        invariant forall k | 0 <= k < i ::
                    chain[k].status == codes[k] && chain[k].shipment == shipment.id && chain[k].number == number.id
        invariant ScannedSince(chain, createdAt) && Rising(chain, EventId, old(nextId), nextId)
        invariant eventTime == if i == 0 then createdAt + first * HOUR else chain[i - 1].time
      {
        var hours := Draw(4, 30);
        eventTime := eventTime + hours * HOUR;
        var event := TrackingEvent(nextId, shipment.id, number.id, codes[i], eventTime);
        nextId := nextId + 1;
        events := events + [event];
        ScanAdded(chain, event, createdAt);
        OneRises(event, EventId, nextId - 1, nextId);
        RisingOfConcat(chain, [event], EventId, old(nextId), nextId - 1, nextId);
        chain := chain + [event];
      }
      forall i, j | 0 <= i < j < |chain|
        ensures chain[i].time < chain[j].time
      {
        ScansRise(chain, createdAt, i, j);
      }
    }

    /** A cancelled order is never billed, and not every other order is. */
    method QueueInvoice(orderId: Id, customer: Id, date: int, orderCancelled: bool)
      returns (ghost queued: Option<PendingInvoice>)
      modifies this`pending, this`nextId
      ensures pending == old(pending) + Listed(queued) && nextId >= old(nextId)
      ensures Rising(Listed(queued), PendingId, old(nextId), nextId)
      ensures queued.Some? ==>
                !orderCancelled && queued.value.order == orderId && queued.value.customer == customer
                  && queued.value.date == date
    {
      queued := None;
      if orderCancelled {
        return;
      }
      var billed: bool := *;
      if billed {
        var invoice := PendingInvoice(nextId, orderId, customer, date);
        nextId := nextId + 1;
        pending := pending + [invoice];
        queued := Some(invoice);
      }
    }

    /** The path with no priced option: staff price it by hand, if anyone does. */
    method GenerateManualQuote(quoteId: Id, customer: Id, createdAt: int, now: int, ghost known: set<Id>)
      returns (ghost entry: Entry)
      requires quoteId < nextId && customer in known
      modifies this
      ensures Rows() == Posted(old(Rows()), entry)
      ensures KeepsCounters(entry) && AskedBy(entry, customer, createdAt)
      ensures EntrySound(entry, known, old(shipmentSeq) + 1, quoteId, nextId)
    {
      var outcome: QuoteStatus :| outcome in {Accepted, Quoted, NeedsManualReview, QuoteRejected};
      if outcome == Accepted {
        entry := AcceptManualQuote(quoteId, customer, createdAt, now, known);
      } else {
        var quote := Quote(quoteId, customer, outcome, None, None);
        quotes := quotes + [quote];
        entry := Entry([], quote, None, None, None);
      }
    }

    method AcceptManualQuote(quoteId: Id, customer: Id, createdAt: int, now: int, ghost known: set<Id>)
      returns (ghost entry: Entry)
      requires quoteId < nextId && customer in known
      modifies this
      ensures Rows() == Posted(old(Rows()), entry)
      ensures KeepsCounters(entry) && AskedBy(entry, customer, createdAt)
      ensures EntrySound(entry, known, old(shipmentSeq) + 1, quoteId, nextId)
    {
      hide ShippedSound, EntrySound, EntryIdsApart, Rising, AskedBy;
      var orderId, pickupId := nextId, nextId + 1;
      nextId := nextId + 2;
      var quotedAfter := Draw(2, 40);
      var acceptedAfter := Draw(1, 48);
      var confirmedAfter := Draw(6, 72);
      var elapsed := quotedAfter + acceptedAfter + confirmedAfter;
      var confirmedAt := createdAt + elapsed * HOUR;
      var quote := Quote(quoteId, customer, Accepted, None, Some(orderId));
      quotes := quotes + [quote];
      var pickup := Pickup(pickupId, quoteId, orderId);
      pickups := pickups + [pickup];
      ghost var shipped := Fulfil(orderId, customer, confirmedAt, now, 2, 72, known, quoteId);
      entry := Entry([], quote, None, Some(pickup), Some(shipped));
      assert options + [] == options && requests + [] == requests;
      ManualIsSound(quote, pickup, shipped, known, shipmentSeq, createdAt, elapsed, orderId, nextId);
    }

    /** The order of an accepted quote, with its shipment, its tracking and perhaps its invoice. */
    method Fulfil(orderId: Id, customer: Id, createdAt: int, now: int, billMin: int, billMax: int, ghost known: set<Id>,
                  ghost first: Id)
      returns (ghost shipped: Shipped)
      requires billMin <= billMax
      requires customer in known && first <= orderId < nextId
      modifies this`orders, this`shipments, this`numbers, this`events, this`pending, this`shipmentSeq, this`nextId
      ensures Rows() == Dispatched(old(Rows()), shipped)
      ensures shipmentSeq == old(shipmentSeq) + 1 && nextId >= old(nextId)
      ensures shipped.order.id == orderId && shipped.order.customer == customer
      ensures shipped.invoice.Some? ==>
                createdAt + billMin * HOUR <= shipped.invoice.value.date <= createdAt + billMax * HOUR
      ensures ShippedSound(shipped, known, shipmentSeq, first, nextId)
      ensures old(nextId) <= shipped.number.id < nextId && Rising(shipped.chain, EventId, old(nextId), nextId)
      ensures Rising(Listed(shipped.invoice), PendingId, old(nextId), nextId)
    {
      hide ChainCoherent;
      var cancelled, made := MakeOrderAndShipment(orderId, customer, createdAt, now, known, first);
      var billedAfter := Draw(billMin, billMax);
      var queued := QueueInvoice(orderId, customer, createdAt + billedAfter * HOUR, cancelled);
      shipped := made.(invoice := queued);
    }

    twostate predicate KeepsCounters(entry: Entry)
      reads this
    {
      && nextId >= old(nextId) && phoneCounter == old(phoneCounter)
      && shipmentSeq == old(shipmentSeq) + if entry.shipped.Some? then 1 else 0
    }

    /** One option row per provider that can price the parcel. */
    method AddOptions(quoteId: Id, count: nat) returns (optionRows: seq<RateOption>)
      modifies this`options, this`nextId
      ensures options == old(options) + optionRows && nextId >= old(nextId)
      ensures |optionRows| == count && forall o | o in optionRows :: o.quote == quoteId
      ensures Rising(optionRows, OptionId, old(nextId), nextId)
    {
      optionRows := [];
      for i := 0 to count
        invariant |optionRows| == i && forall o | o in optionRows :: o.quote == quoteId
        invariant options == old(options) && nextId >= old(nextId) && Rising(optionRows, OptionId, old(nextId), nextId)
      {
        optionRows := optionRows + [RateOption(nextId, quoteId)];
        nextId := nextId + 1;
      }
      options := options + optionRows;
    }

    /** The engine's priced path, from options to whatever the customer did with them. */
    method GenerateQuoteChain(customer: Id, createdAt: int, now: int, ghost known: set<Id>) returns (ghost entry: Entry)
      requires customer in known
      modifies this
      ensures Rows() == Posted(old(Rows()), entry)
      ensures KeepsCounters(entry) && AskedBy(entry, customer, createdAt)
      ensures EntrySound(entry, known, old(shipmentSeq) + 1, old(nextId), nextId)
    {
      hide ChainCoherent, ShippedSound, EntrySound;
      var quoteId := nextId;
      nextId := nextId + 1;
      var priced: nat := *;
      if priced == 0 {
        entry := GenerateManualQuote(quoteId, customer, createdAt, now, known);
        return;
      }
      var optionRows := AddOptions(quoteId, priced);
      var chosenIdx := Draw(0, priced - 1);
      var chosen := optionRows[chosenIdx];
      var accepted: bool := *;
      if accepted {
        entry := Accept(quoteId, customer, chosen, createdAt, now, optionRows, known);
      } else {
        entry := Decline(quoteId, customer, chosen, optionRows, known);
      }
    }

    method DrawUnaccepted() returns (outcome: QuoteStatus)
      ensures outcome in {Rated, QuoteRejected, QuoteCancelled, PendingPickupRequest, PickupRequested}
    {
      var draw := Draw(0, 4);
      outcome := [Rated, QuoteRejected, QuoteCancelled, PendingPickupRequest, PickupRequested][draw];
    }

    method DrawOpenRequest() returns (status: RequestStatus)
      ensures status != RequestCompleted
    {
      var draw := Draw(0, 5);
      status := [PendingAssignment, Assigned, Scheduled, OutForPickup, VerificationPending, RequestRejected][draw];
    }

    /** A priced quote that did not become an order. */
    method Decline(quoteId: Id, customer: Id, chosen: RateOption, ghost optionRows: seq<RateOption>,
                   ghost known: set<Id>)
      returns (ghost entry: Entry)
      requires quoteId < nextId && customer in known
      requires chosen in optionRows && forall o | o in optionRows :: o.quote == quoteId
      requires Rising(optionRows, OptionId, quoteId, nextId)
      modifies this`quotes, this`requests, this`nextId
      ensures Rows() == Posted(old(Rows()), entry.(options := []))
      ensures entry.options == optionRows && entry.shipped.None? && nextId >= old(nextId)
      ensures entry.quote.customer == customer
      ensures EntrySound(entry, known, shipmentSeq + 1, quoteId, nextId)
    {
      var outcome := DrawUnaccepted();
      var selected := if outcome == Rated then None else Some(chosen.id);
      ghost var request := None;
      if outcome == PickupRequested {
        var status := DrawOpenRequest();
        requests := requests + [PickupRequest(nextId, quoteId, customer, status, None)];
        request := Some(PickupRequest(nextId, quoteId, customer, status, None));
        nextId := nextId + 1;
      }
      var quote := Quote(quoteId, customer, outcome, selected, None);
      quotes := quotes + [quote];
      entry := Entry(optionRows, quote, request, None, None);
    }

    /** The partner verified the parcel, took the payment and generated the order. */
    method Accept(quoteId: Id, customer: Id, chosen: RateOption, createdAt: int, now: int,
                  ghost optionRows: seq<RateOption>, ghost known: set<Id>)
      returns (ghost entry: Entry)
      requires quoteId < nextId && customer in known
      requires chosen in optionRows && forall o | o in optionRows :: o.quote == quoteId
      requires Rising(optionRows, OptionId, quoteId, nextId)
      modifies this
      ensures Rows() == Posted(old(Rows()), entry.(options := []))
      ensures entry.options == optionRows && KeepsCounters(entry) && AskedBy(entry, customer, createdAt)
      ensures EntrySound(entry, known, old(shipmentSeq) + 1, quoteId, nextId)
    {
      hide ShippedSound, EntrySound, EntryIdsApart, Rising, AskedBy;
      var requestId, orderId := nextId, nextId + 1;
      nextId := nextId + 2;
      var elapsed := Draw(6, 89);
      var orderCreatedAt := createdAt + elapsed * HOUR;
      var request := PickupRequest(requestId, quoteId, customer, RequestCompleted, Some(orderId));
      var quote := Quote(quoteId, customer, Accepted, Some(chosen.id), Some(orderId));
      requests := requests + [request];
      quotes := quotes + [quote];
      ghost var shipped := Fulfil(orderId, customer, orderCreatedAt, now, 1, 48, known, quoteId);
      entry := Entry(optionRows, quote, Some(request), None, Some(shipped));
      PricedIsSound(optionRows, quote, request, shipped, known, shipmentSeq, createdAt, elapsed, requestId, nextId);
    }

    /** A new customer, under the next phone number of this process. */
    method MakeCustomer() returns (id: Id)
      modifies this`customers, this`phoneCounter, this`nextId
      ensures customers == old(customers) + [Customer(id, FIRST_PHONE + old(phoneCounter))]
      ensures phoneCounter == old(phoneCounter) + 1
      ensures id == old(nextId) && nextId == old(nextId) + 1
    {
      id := nextId;
      customers := customers + [Customer(id, FIRST_PHONE + phoneCounter)];
      phoneCounter := phoneCounter + 1;
      nextId := nextId + 1;
    }

    /** The wave's own customers, then returning ones drawn from the pool of earlier waves. */
    method GatherOwners(customerCount: nat, pool: seq<Id>, ghost earlier: set<Id>, ghost firstSequence: nat)
      returns (owners: seq<Id>)
      requires Rows() == EMPTY_BOOK && forall id | id in pool :: id in earlier
      modifies this`customers, this`phoneCounter, this`nextId
      ensures Coherent(Rows(), earlier, [], firstSequence, nextId)
      ensures |customers| == customerCount && phoneCounter == old(phoneCounter) + customerCount
      ensures forall i | 0 <= i < customerCount :: customers[i].phone == FIRST_PHONE + old(phoneCounter) + i
      ensures orders == [] && quotes == [] && pending == [] && IdsFrom(Rows(), old(nextId)) && nextId >= old(nextId)
      ensures forall id | id in owners :: id in earlier + CustomerIds(Rows())
      ensures OwnersOf(owners, customers, pool)
    {
      hide Coherent;
      owners := [];
      EmptyIsCoherent(earlier, firstSequence, nextId);
      for i := 0 to customerCount
        invariant Coherent(Rows(), earlier, [], firstSequence, nextId)
        invariant orders == [] && quotes == [] && pending == [] && shipments == [] && nextId >= old(nextId)
        invariant |customers| == |owners| == i && forall k | 0 <= k < i :: owners[k] == customers[k].id
        invariant phoneCounter == old(phoneCounter) + i
        invariant forall k | 0 <= k < i :: customers[k].phone == FIRST_PHONE + old(phoneCounter) + k
        invariant forall id | id in owners :: id in CustomerIds(Rows())
      {
        ghost var before := Rows();
        var id := MakeCustomer();
        owners := owners + [id];
        CustomersKeepCoherent(before, customers[i], earlier, [], firstSequence, nextId - 1, nextId);
        assert customers[i] in customers;
      }
      var returning := DrawReturning(customerCount, pool);
      owners := owners + returning;
    }

    /** Three returning customers for every five new ones, as far as the pool goes. */
    method DrawReturning(customerCount: nat, pool: seq<Id>) returns (returning: seq<Id>)
      ensures forall id | id in returning :: id in pool
      ensures |returning| == if |pool| < (6 * customerCount + 5) / 10 then |pool| else (6 * customerCount + 5) / 10
    {
      var wanted := (6 * customerCount + 5) / 10;
      var count := if |pool| < wanted then |pool| else wanted;
      returning := [];
      for i := 0 to count
        invariant |returning| == i && forall id | id in returning :: id in pool
      {
        var drawn := Draw(0, |pool| - 1);
        returning := returning + [pool[drawn]];
      }
    }

    method DrawQuoteCount() returns (count: nat)
      ensures count in {1, 2, 3, 4, 5, 7}
    {
      var draw := Draw(0, 5);
      count := [1, 2, 3, 4, 5, 7][draw];
    }

    /** A whole wave, for every customer count, every pool and every draw. */
    method GenerateWave(customerCount: nat, pool: seq<Id>, from: int, to: int, now: int, ghost earlier: set<Id>)
      returns (ghost chains: seq<seq<TrackingEvent>>, ghost owners: seq<Id>)
      requires Rows() == EMPTY_BOOK && from <= to && forall id | id in pool :: id in earlier
      modifies this
      ensures Coherent(Rows(), earlier, chains, old(shipmentSeq), nextId)
      ensures IdsFrom(Rows(), old(nextId)) && nextId >= old(nextId)
      ensures shipmentSeq == old(shipmentSeq) + |orders|
      ensures |customers| == customerCount && phoneCounter == old(phoneCounter) + customerCount
      ensures forall i | 0 <= i < customerCount :: customers[i].phone == 7_000_000 + old(phoneCounter) + i
      ensures OwnersOf(owners, customers, pool) && |owners| <= |quotes| <= 7 * |owners|
      ensures Asked(owners, |owners|, quotes) && InWindow(pending, from, to)
    {
      hide Coherent, EntrySound, IdsFrom, AskedBy, OwnersOf, Asked, InWindow;
      ghost var firstSequence, firstId, firstPhone := shipmentSeq, nextId, FIRST_PHONE + phoneCounter;
      var drawn := GatherOwners(customerCount, pool, earlier, firstSequence);
      owners, chains := drawn, [];
      NothingAsked(owners, from, to);
      for i := 0 to |drawn|
        invariant WaveSoFar(earlier, chains, firstSequence, firstId, firstPhone, customerCount)
        invariant forall id | id in owners :: id in earlier + CustomerIds(Rows())
        invariant phoneCounter == old(phoneCounter) + customerCount && OwnersOf(owners, customers, pool)
        invariant Asked(owners, i, quotes) && i <= |quotes| <= 7 * i && InWindow(pending, from, to)
      {
        var quoteCount := DrawQuoteCount();
        for q := 0 to quoteCount
          invariant WaveSoFar(earlier, chains, firstSequence, firstId, firstPhone, customerCount)
          invariant forall id | id in owners :: id in earlier + CustomerIds(Rows())
          invariant phoneCounter == old(phoneCounter) + customerCount && OwnersOf(owners, customers, pool)
          invariant Asked(owners, if q == 0 then i else i + 1, quotes)
          invariant i + q <= |quotes| <= 7 * i + q && InWindow(pending, from, to)
        {
          var createdAt := Draw(from, to);
          ghost var before, first := Rows(), nextId;
          ghost var entry := GenerateQuoteChain(drawn[i], createdAt, now, earlier + CustomerIds(Rows()));
          PostKeepsCoherent(before, entry, earlier, chains, firstSequence, first, nextId);
          PostKeepsFrom(before, entry, earlier + CustomerIds(before), firstSequence + |before.orders| + 1, firstId,
                        first, nextId);
          AskedNext(owners, i, q == 0, before, entry, createdAt, from, to);
          chains := ChainsAfter(chains, entry);
        }
      }
    }

    /** A wave under way: coherent, its identifiers, shipment numbers and phones all new. */
    ghost predicate WaveSoFar(earlier: set<Id>, chains: seq<seq<TrackingEvent>>, firstSequence: nat, firstId: Id,
                              firstPhone: nat, customerCount: nat)
      reads this
    {
      && Coherent(Rows(), earlier, chains, firstSequence, nextId)
      && IdsFrom(Rows(), firstId) && nextId >= firstId
      && shipmentSeq == firstSequence + |orders|
      && |customers| == customerCount
      && forall k | 0 <= k < customerCount :: customers[k].phone == firstPhone + k
    }
  }
}
