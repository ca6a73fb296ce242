/** The rows one wave of the bulk generator buffers, and what it means for them to be coherent. Only
    the fields that other rows or the integrity check depend on are kept. */
module BulkBook {
  import opened Text

  type Id = nat

  /** The first number the process-wide phone counter gives out. */
  const FIRST_PHONE := 7_000_000

  datatype QuoteStatus =
    | Rated | QuoteRejected | QuoteCancelled | PendingPickupRequest | PickupRequested | Accepted
    | NeedsManualReview | Quoted

  datatype RequestStatus =
    | PendingAssignment | Assigned | Scheduled | OutForPickup | VerificationPending | RequestRejected | RequestCompleted

  datatype OrderStatus = Completed | Confirmed | Pending | Cancelled

  datatype TrackingCode = PickedUp | InTransit | ExceptionScan | OutForDelivery | Delivered

  datatype Customer = Customer(id: Id, phone: nat)

  datatype Quote = Quote(id: Id, customer: Id, status: QuoteStatus, selectedOption: Option<Id>, order: Option<Id>)

  datatype RateOption = RateOption(id: Id, quote: Id)

  datatype PickupRequest = PickupRequest(id: Id, quote: Id, customer: Id, status: RequestStatus, order: Option<Id>)

  datatype Order = Order(id: Id, customer: Id, status: OrderStatus)

  datatype Pickup = Pickup(id: Id, quote: Id, order: Id)

  datatype Shipment = Shipment(id: Id, order: Id, sequenceNumber: nat, currentStatus: TrackingCode)

  datatype TrackingNumber = TrackingNumber(id: Id, shipment: Id)

  datatype TrackingEvent = TrackingEvent(id: Id, shipment: Id, number: Id, status: TrackingCode, time: int)

  /** An invoice waiting for its number. */
  datatype PendingInvoice = PendingInvoice(id: Id, order: Id, customer: Id, date: int)

  datatype Book = Book(
    customers: seq<Customer>,
    quotes: seq<Quote>,
    options: seq<RateOption>,
    requests: seq<PickupRequest>,
    orders: seq<Order>,
    pickups: seq<Pickup>,
    shipments: seq<Shipment>,
    numbers: seq<TrackingNumber>,
    events: seq<TrackingEvent>,
    pending: seq<PendingInvoice>)

  const EMPTY_BOOK := Book([], [], [], [], [], [], [], [], [], [])

  // ---------------------------------------------------------------------------------------------
  // Coherence
  // ---------------------------------------------------------------------------------------------

  ghost function CustomerIds(b: Book): set<Id> {
    set c | c in b.customers :: c.id
  }

  ghost function QuoteIds(b: Book): set<Id> {
    set q | q in b.quotes :: q.id
  }

  ghost function OrderIds(b: Book): set<Id> {
    set o | o in b.orders :: o.id
  }

  /** An ACCEPTED quote, and only an ACCEPTED quote, names an order; a selected option is one of the
      quote's own. */
  ghost predicate QuoteCoherent(b: Book, customers: set<Id>, q: Quote) {
    && q.customer in customers
    && (q.status == Accepted <==> q.order.Some?)
    && (q.order.Some? ==> q.order.value in OrderIds(b))
    && (q.selectedOption.Some? ==> RateOption(q.selectedOption.value, q.id) in b.options)
    && (q.status == Rated ==> q.selectedOption.None?)
  }

  /** The quote of this id is in the book and names this order. */
  ghost predicate QuoteNames(b: Book, quote: Id, order: Option<Id>) {
    exists q | q in b.quotes :: q.id == quote && q.order == order
  }

  /** Some quote of the order's customer names the order; with the quotes' own coherence, an ACCEPTED one. */
  ghost predicate OrderNamed(b: Book, o: Order) {
    exists q | q in b.quotes :: q.order == Some(o.id) && q.customer == o.customer
  }

  /** Some customer committed to a quote: it names an option or an order. */
  predicate Committed(b: Book) {
    exists q | q in b.quotes :: q.selectedOption.Some? || q.order.Some?
  }

  /** A COMPLETED request, and only a COMPLETED request, names an order: the one its quote names. */
  ghost predicate RequestCoherent(b: Book, customers: set<Id>, r: PickupRequest) {
    && r.customer in customers
    && (r.status == RequestCompleted <==> r.order.Some?)
    && QuoteNames(b, r.quote, r.order)
  }

  /** Staff price by hand what the engine cannot, and only that. */
  ghost predicate OptionCoherent(b: Book, o: RateOption) {
    exists q | q in b.quotes ::
        q.id == o.quote && (q.selectedOption.None? <==> q.status == Rated) && q.status !in {Quoted, NeedsManualReview}
  }

  /** A pickup request stands for a quote handed over or accepted on the priced path. */
  predicate NeedsRequest(q: Quote) {
    q.status == PickupRequested || (q.status == Accepted && q.selectedOption.Some?)
  }

  /** A pickup stands for a quote accepted after pricing by hand. */
  predicate NeedsPickup(q: Quote) {
    q.status == Accepted && q.selectedOption.None?
  }

  ghost function Those(quotes: seq<Quote>, calls: Quote -> bool): seq<Quote> {
    if quotes == [] then []
    else
      var last := quotes[|quotes| - 1];
      Those(quotes[..|quotes| - 1], calls) + if calls(last) then [last] else []
  }

  ghost predicate RequestFits(r: PickupRequest, q: Quote) {
    && r.quote == q.id && r.customer == q.customer && r.order == q.order
    && (r.status == RequestCompleted <==> q.status == Accepted)
  }

  ghost predicate PickupFits(p: Pickup, q: Quote) {
    p.quote == q.id && Some(p.order) == q.order
  }

  /** The requests are, one for one and in order, those of the quotes that need one; so are the pickups. */
  ghost predicate PapersCoherent(b: Book) {
    var requesting, byHand := Those(b.quotes, NeedsRequest), Those(b.quotes, NeedsPickup);
    && |b.requests| == |requesting| && |b.pickups| == |byHand|
    && (forall i | 0 <= i < |requesting| :: RequestFits(b.requests[i], requesting[i]))
    && (forall i | 0 <= i < |byHand| :: PickupFits(b.pickups[i], byHand[i]))
  }

  lemma ThoseOfAppend(quotes: seq<Quote>, q: Quote, calls: Quote -> bool)
    ensures Those(quotes + [q], calls) == Those(quotes, calls) + if calls(q) then [q] else []
  {
    assert (quotes + [q])[..|quotes|] == quotes;
  }

  /** The events of one shipment: its own, in strictly rising time, from pick-up to its current status. */
  ghost predicate ChainCoherent(shipment: Shipment, number: TrackingNumber, chain: seq<TrackingEvent>) {
    && chain != []
    && chain[0].status == PickedUp
    && chain[|chain| - 1].status == shipment.currentStatus
    && (forall i | 0 <= i < |chain| :: chain[i].shipment == shipment.id && chain[i].number == number.id)
    && forall i, j | 0 <= i < j < |chain| :: chain[i].time < chain[j].time
  }

  ghost function Flatten(chains: seq<seq<TrackingEvent>>): seq<TrackingEvent> {
    if chains == [] then [] else Flatten(chains[..|chains| - 1]) + chains[|chains| - 1]
  }

  /** The `i`-th order, its one shipment, its one tracking number and its chain of events. */
  ghost predicate OrderCoherent(b: Book, customers: set<Id>, chains: seq<seq<TrackingEvent>>, firstSequence: nat,
                                i: nat)
    requires i < |b.orders| == |b.shipments| == |b.numbers| == |chains|
  {
    && b.orders[i].customer in customers
    && b.shipments[i].order == b.orders[i].id
    && b.shipments[i].sequenceNumber == firstSequence + i + 1
    && b.numbers[i].shipment == b.shipments[i].id
    && (b.shipments[i].currentStatus == Delivered <==> b.orders[i].status == Completed)
    && ChainCoherent(b.shipments[i], b.numbers[i], chains[i])
  }

  /** Orders, shipments and tracking numbers correspond one to one and are numbered without a gap. */
  ghost predicate OrdersCoherent(b: Book, customers: set<Id>, chains: seq<seq<TrackingEvent>>, firstSequence: nat) {
    && |b.orders| == |b.shipments| == |b.numbers| == |chains|
    && (forall i | 0 <= i < |b.orders| :: OrderCoherent(b, customers, chains, firstSequence, i))
    && (forall i, j | 0 <= i < j < |b.orders| :: b.orders[i].id < b.orders[j].id)
    && (forall i, j | 0 <= i < j < |b.shipments| :: b.shipments[i].id < b.shipments[j].id)
    && b.events == Flatten(chains)
  }

  /** A pending invoice bills the customer of an order that was not cancelled. */
  ghost predicate Billable(b: Book, p: PendingInvoice) {
    exists o | o in b.orders :: o.id == p.order && o.customer == p.customer && o.status != Cancelled
  }

  ghost predicate InvoicesCoherent(b: Book) {
    && (forall p | p in b.pending :: Billable(b, p))
    && (forall i, j | 0 <= i < j < |b.pending| :: b.pending[i].order < b.pending[j].order)
  }

  /** Identifiers are random UUIDs; drawing them from a rising counter models that no two are alike. */
  ghost predicate IdsBelow(b: Book, next: Id) {
    && (forall q | q in b.quotes :: q.id < next)
    && (forall o | o in b.orders :: o.id < next)
    && (forall s | s in b.shipments :: s.id < next)
  }

  ghost predicate Rising<T(!new)>(rows: seq<T>, id: T -> Id, low: Id, high: Id) {
    && (forall i | 0 <= i < |rows| :: low <= id(rows[i]) < high)
    && forall i, j | 0 <= i < j < |rows| :: id(rows[i]) < id(rows[j])
  }

  function CustomerId(c: Customer): Id { c.id }

  function OptionId(o: RateOption): Id { o.id }

  function RequestId(r: PickupRequest): Id { r.id }

  function PickupId(p: Pickup): Id { p.id }

  function NumberId(n: TrackingNumber): Id { n.id }

  function EventId(e: TrackingEvent): Id { e.id }

  function PendingId(p: PendingInvoice): Id { p.id }

  /** No two rows of a collection share an identifier; quotes, orders and shipments are seen to elsewhere. */
  ghost predicate IdsApart(b: Book, next: Id) {
    && Rising(b.customers, CustomerId, 0, next)
    && Rising(b.options, OptionId, 0, next)
    && Rising(b.requests, RequestId, 0, next)
    && Rising(b.pickups, PickupId, 0, next)
    && Rising(b.numbers, NumberId, 0, next)
    && Rising(b.events, EventId, 0, next)
    && Rising(b.pending, PendingId, 0, next)
  }

  lemma RisingOfConcat<T(!new)>(a: seq<T>, b: seq<T>, id: T -> Id, low: Id, middle: Id, high: Id)
    requires Rising(a, id, low, middle) && Rising(b, id, middle, high) && low <= middle <= high
    ensures Rising(a + b, id, low, high)
  {
  }

  ghost predicate UniqueQuotes(b: Book) {
    && (forall i, j | 0 <= i < j < |b.quotes| :: b.quotes[i].id < b.quotes[j].id)
    && (forall i, j | 0 <= i < j < |b.quotes| && b.quotes[i].order.Some? :: b.quotes[i].order != b.quotes[j].order)
  }

  /** `earlier` are the customers of earlier waves; `firstSequence` is the counter at the wave's start. */
  ghost predicate Coherent(b: Book, earlier: set<Id>, chains: seq<seq<TrackingEvent>>, firstSequence: nat, next: Id) {
    var customers := earlier + CustomerIds(b);
    && (forall q | q in b.quotes :: QuoteCoherent(b, customers, q))
    && (forall o | o in b.options :: o.quote in QuoteIds(b))
    && (forall o | o in b.options :: OptionCoherent(b, o))
    && PapersCoherent(b)
    && (forall r | r in b.requests :: RequestCoherent(b, customers, r))
    && (forall p | p in b.pickups :: QuoteNames(b, p.quote, Some(p.order)))
    && OrdersCoherent(b, customers, chains, firstSequence)
    && (forall o | o in b.orders :: OrderNamed(b, o))
    && InvoicesCoherent(b)
    && IdsBelow(b, next)
    && IdsApart(b, next)
    && UniqueQuotes(b)
  }

  // ---------------------------------------------------------------------------------------------
  // One quote chain
  // ---------------------------------------------------------------------------------------------

  /** What a generated order brings with it. */
  datatype Shipped = Shipped(
    order: Order,
    shipment: Shipment,
    number: TrackingNumber,
    chain: seq<TrackingEvent>,
    invoice: Option<PendingInvoice>)

  /** Everything one generated quote adds to the book. */
  datatype Entry = Entry(
    options: seq<RateOption>,
    quote: Quote,
    request: Option<PickupRequest>,
    pickup: Option<Pickup>,
    shipped: Option<Shipped>)

  function Listed<T>(item: Option<T>): seq<T> {
    if item.Some? then [item.value] else []
  }

  function Posted(b: Book, e: Entry): Book {
    var quoted := b.(
      options := b.options + e.options,
      quotes := b.quotes + [e.quote],
      requests := b.requests + Listed(e.request),
      pickups := b.pickups + Listed(e.pickup));
    if e.shipped.None? then quoted else Dispatched(quoted, e.shipped.value)
  }

  function Dispatched(b: Book, s: Shipped): Book {
    b.(
      orders := b.orders + [s.order],
      shipments := b.shipments + [s.shipment],
      numbers := b.numbers + [s.number],
      events := b.events + s.chain,
      pending := b.pending + Listed(s.invoice))
  }

  ghost predicate ShippedSound(s: Shipped, customers: set<Id>, sequence: nat, next: Id, next': Id) {
    && next <= s.order.id < next' && next <= s.shipment.id < next'
    && s.order.customer in customers
    && s.shipment.order == s.order.id && s.shipment.sequenceNumber == sequence
    && s.number.shipment == s.shipment.id
    && (s.shipment.currentStatus == Delivered <==> s.order.status == Completed)
    && ChainCoherent(s.shipment, s.number, s.chain)
    && (s.invoice.Some? ==>
          s.invoice.value.order == s.order.id && s.invoice.value.customer == s.order.customer
            && s.order.status != Cancelled)
  }

  /** Priced by the engine, a quote has its option chosen unless nobody committed to it; priced by hand, it
      has none. */
  ghost predicate PathSound(e: Entry) {
    if e.options == [] then e.quote.status in {Accepted, Quoted, NeedsManualReview, QuoteRejected}
    else
      && (e.quote.selectedOption.None? <==> e.quote.status == Rated)
      && e.quote.status !in {Quoted, NeedsManualReview}
  }

  ghost predicate EntrySound(e: Entry, customers: set<Id>, sequence: nat, next: Id, next': Id) {
    && next <= e.quote.id < next'
    && e.quote.customer in customers
    && (forall o | o in e.options :: o.quote == e.quote.id)
    && (e.quote.selectedOption.Some? ==> RateOption(e.quote.selectedOption.value, e.quote.id) in e.options)
    && (e.quote.status == Rated ==> e.quote.selectedOption.None?)
    && (e.quote.status == Accepted <==> e.shipped.Some?)
    && e.quote.order == (if e.shipped.Some? then Some(e.shipped.value.order.id) else None)
    && PathSound(e)
    && (e.request.Some? <==> NeedsRequest(e.quote)) && (e.pickup.Some? <==> NeedsPickup(e.quote))
    && (e.request.Some? ==> RequestFits(e.request.value, e.quote))
    && (e.pickup.Some? ==> PickupFits(e.pickup.value, e.quote))
    && (e.shipped.Some? ==> e.shipped.value.order.customer == e.quote.customer)
    && (e.shipped.Some? ==> ShippedSound(e.shipped.value, customers, sequence, next, next'))
    && EntryIdsApart(e, next, next')
  }

  ghost predicate EntryIdsApart(e: Entry, next: Id, next': Id) {
    && next <= next'
    && Rising(e.options, OptionId, next, next')
    && Rising(Listed(e.request), RequestId, next, next')
    && Rising(Listed(e.pickup), PickupId, next, next')
    && (e.shipped.Some? ==>
          && next <= e.shipped.value.number.id < next'
          && Rising(e.shipped.value.chain, EventId, next, next')
          && Rising(Listed(e.shipped.value.invoice), PendingId, next, next'))
  }

  ghost function ChainsAfter(chains: seq<seq<TrackingEvent>>, e: Entry): seq<seq<TrackingEvent>> {
    if e.shipped.Some? then chains + [e.shipped.value.chain] else chains
  }

  /** A sound entry keeps the book coherent. */
  lemma PostKeepsCoherent(b: Book, e: Entry, earlier: set<Id>, chains: seq<seq<TrackingEvent>>, firstSequence: nat,
                          next: Id, next': Id)
    requires Coherent(b, earlier, chains, firstSequence, next)
    requires EntrySound(e, earlier + CustomerIds(b), firstSequence + |b.orders| + 1, next, next')
    ensures Coherent(Posted(b, e), earlier, ChainsAfter(chains, e), firstSequence, next')
  {
    hide OrdersCoherent, PapersCoherent, InvoicesCoherent, QuoteCoherent, RequestCoherent, QuoteNames, OptionCoherent;
    hide IdsApart, IdsBelow, UniqueQuotes, OrderNamed, ShippedSound, RequestFits, PickupFits, PathSound, EntryIdsApart;
    var customers, b' := earlier + CustomerIds(b), Posted(b, e);
    assert CustomerIds(b') == CustomerIds(b);
    PostKeepsQuotes(b, e, customers, firstSequence + |b.orders| + 1, next, next');
    assert QuoteIds(b') == QuoteIds(b) + {e.quote.id};
    PostKeepsOrders(b, e, customers, chains, firstSequence, next, next');
    PostKeepsNamed(b, e, customers, firstSequence + |b.orders| + 1, next, next');
    PostKeepsInvoices(b, e, customers, firstSequence + |b.orders| + 1, next, next');
    PostKeepsUnique(b, e, customers, firstSequence + |b.orders| + 1, next, next');
    PostKeepsIds(b, e, customers, firstSequence + |b.orders| + 1, next, next');
    PostKeepsApart(b, e, next, next');
    PostKeepsPapers(b, e, customers, firstSequence + |b.orders| + 1, next, next');
    PostKeepsOptions(b, e, customers, firstSequence + |b.orders| + 1, next, next');
  }

  lemma PostKeepsApart(b: Book, e: Entry, next: Id, next': Id)
    requires IdsApart(b, next) && EntryIdsApart(e, next, next')
    ensures IdsApart(Posted(b, e), next')
  {
    hide Rising;
    NothingRises<Customer>(CustomerId, next, next');
    RisingOfConcat(b.customers, [], CustomerId, 0, next, next');
    assert b.customers + [] == b.customers;
    RisingOfConcat(b.options, e.options, OptionId, 0, next, next');
    RisingOfConcat(b.requests, Listed(e.request), RequestId, 0, next, next');
    RisingOfConcat(b.pickups, Listed(e.pickup), PickupId, 0, next, next');
    if e.shipped.Some? {
      OneRises(e.shipped.value.number, NumberId, next, next');
      RisingOfConcat(b.numbers, [e.shipped.value.number], NumberId, 0, next, next');
      RisingOfConcat(b.events, e.shipped.value.chain, EventId, 0, next, next');
      RisingOfConcat(b.pending, Listed(e.shipped.value.invoice), PendingId, 0, next, next');
    } else {
      NothingRises<TrackingNumber>(NumberId, next, next');
      NothingRises<TrackingEvent>(EventId, next, next');
      NothingRises<PendingInvoice>(PendingId, next, next');
      RisingOfConcat(b.numbers, [], NumberId, 0, next, next');
      RisingOfConcat(b.events, [], EventId, 0, next, next');
      RisingOfConcat(b.pending, [], PendingId, 0, next, next');
      assert b.numbers + [] == b.numbers && b.events + [] == b.events && b.pending + [] == b.pending;
    }
  }

  lemma LaterRising(b: Book, next: Id, next': Id)
    requires IdsApart(b, next) && next <= next'
    ensures IdsApart(b, next')
  {
  }

  lemma NothingRises<T(!new)>(id: T -> Id, low: Id, high: Id)
    ensures Rising([], id, low, high)
  {
  }

  lemma OneRises<T(!new)>(row: T, id: T -> Id, low: Id, high: Id)
    requires low <= id(row) < high
    ensures Rising([row], id, low, high)
  {
  }

  /** An entry brings its quote the papers its status calls for, and no other quote any. */
  lemma PostKeepsPapers(b: Book, e: Entry, customers: set<Id>, sequence: nat, next: Id, next': Id)
    requires EntrySound(e, customers, sequence, next, next') && PapersCoherent(b)
    ensures PapersCoherent(Posted(b, e))
  {
    hide ShippedSound, Those;
    ThoseOfAppend(b.quotes, e.quote, NeedsRequest);
    ThoseOfAppend(b.quotes, e.quote, NeedsPickup);
  }

  lemma PostKeepsOptions(b: Book, e: Entry, customers: set<Id>, sequence: nat, next: Id, next': Id)
    requires EntrySound(e, customers, sequence, next, next')
    requires forall o | o in b.options :: OptionCoherent(b, o)
    ensures forall o | o in Posted(b, e).options :: OptionCoherent(Posted(b, e), o)
  {
    hide ShippedSound;
    var b' := Posted(b, e);
    assert e.quote in b'.quotes && forall q | q in b.quotes :: q in b'.quotes;
    forall o | o in b'.options
      ensures OptionCoherent(b', o)
    {
      if o in b.options {
        assert OptionCoherent(b, o);
      } else {
        assert o in e.options;
      }
    }
  }

  lemma PostKeepsQuotes(b: Book, e: Entry, customers: set<Id>, sequence: nat, next: Id, next': Id)
    requires EntrySound(e, customers, sequence, next, next')
    requires forall q | q in b.quotes :: QuoteCoherent(b, customers, q)
    requires forall r | r in b.requests :: RequestCoherent(b, customers, r)
    requires forall p | p in b.pickups :: QuoteNames(b, p.quote, Some(p.order))
    ensures var b' := Posted(b, e);
            && (forall q | q in b'.quotes :: QuoteCoherent(b', customers, q))
            && (forall r | r in b'.requests :: RequestCoherent(b', customers, r))
            && (forall p | p in b'.pickups :: QuoteNames(b', p.quote, Some(p.order)))
  {
    var b' := Posted(b, e);
    assert e.quote in b'.quotes && QuoteNames(b', e.quote.id, e.quote.order);
    forall quote, order | QuoteNames(b, quote, order)
      ensures QuoteNames(b', quote, order)
    {
      var q :| q in b.quotes && q.id == quote && q.order == order;
      assert q in b'.quotes;
    }
    assert OrderIds(b) <= OrderIds(b');
    if e.shipped.Some? {
      assert e.shipped.value.order in b'.orders;
    }
  }

  lemma PostKeepsOrders(b: Book, e: Entry, customers: set<Id>, chains: seq<seq<TrackingEvent>>, firstSequence: nat,
                        next: Id, next': Id)
    requires EntrySound(e, customers, firstSequence + |b.orders| + 1, next, next')
    requires OrdersCoherent(b, customers, chains, firstSequence) && IdsBelow(b, next)
    ensures OrdersCoherent(Posted(b, e), customers, ChainsAfter(chains, e), firstSequence)
  {
    var b', chains' := Posted(b, e), ChainsAfter(chains, e);
    if e.shipped.Some? {
      forall i | 0 <= i < |b'.orders|
        ensures OrderCoherent(b', customers, chains', firstSequence, i)
      {
        if i < |b.orders| {
          assert OrderCoherent(b, customers, chains, firstSequence, i);
        }
      }
      assert chains'[..|chains|] == chains;
    } else {
      forall i | 0 <= i < |b'.orders|
        ensures OrderCoherent(b', customers, chains', firstSequence, i)
      {
        assert OrderCoherent(b, customers, chains, firstSequence, i);
      }
    }
  }

  lemma PostKeepsNamed(b: Book, e: Entry, customers: set<Id>, sequence: nat, next: Id, next': Id)
    requires EntrySound(e, customers, sequence, next, next')
    requires forall o | o in b.orders :: OrderNamed(b, o)
    ensures forall o | o in Posted(b, e).orders :: OrderNamed(Posted(b, e), o)
  {
    hide ShippedSound;
    var b' := Posted(b, e);
    assert e.quote in b'.quotes;
    forall o | o in b'.orders
      ensures OrderNamed(b', o)
    {
      if o in b.orders {
        var q :| q in b.quotes && q.order == Some(o.id) && q.customer == o.customer;
        assert q in b'.quotes;
      }
    }
  }

  lemma PostKeepsInvoices(b: Book, e: Entry, customers: set<Id>, sequence: nat, next: Id, next': Id)
    requires EntrySound(e, customers, sequence, next, next')
    requires InvoicesCoherent(b) && IdsBelow(b, next)
    ensures InvoicesCoherent(Posted(b, e))
  {
    var b' := Posted(b, e);
    forall p | p in b.pending
      ensures Billable(b', p) && p.order < next
    {
      assert Billable(b, p);
      var o :| o in b.orders && o.id == p.order && o.customer == p.customer && o.status != Cancelled;
      assert o in b'.orders;
    }
    if e.shipped.Some? && e.shipped.value.invoice.Some? {
      assert e.shipped.value.order in b'.orders;
      assert Billable(b', e.shipped.value.invoice.value);
    }
  }

  lemma PostKeepsUnique(b: Book, e: Entry, customers: set<Id>, sequence: nat, next: Id, next': Id)
    requires EntrySound(e, customers, sequence, next, next')
    requires UniqueQuotes(b) && IdsBelow(b, next)
    requires forall q | q in b.quotes :: QuoteCoherent(b, customers, q)
    ensures UniqueQuotes(Posted(b, e))
  {
    hide ChainCoherent, IdsBelow;
    QuoteIdsBelow(b, next);
    forall i | 0 <= i < |b.quotes| && b.quotes[i].order.Some?
      ensures b.quotes[i].order.value < next
    {
      assert QuoteCoherent(b, customers, b.quotes[i]);
      OrderIdsBelow(b, next);
    }
  }

  lemma QuoteIdsBelow(b: Book, next: Id)
    requires IdsBelow(b, next)
    ensures forall q | q in b.quotes :: q.id < next
  {
  }

  lemma OrderIdsBelow(b: Book, next: Id)
    requires IdsBelow(b, next)
    ensures forall id | id in OrderIds(b) :: id < next
  {
  }

  lemma PostKeepsIds(b: Book, e: Entry, customers: set<Id>, sequence: nat, next: Id, next': Id)
    requires EntrySound(e, customers, sequence, next, next') && IdsBelow(b, next)
    ensures IdsBelow(Posted(b, e), next')
  {
    hide ChainCoherent;
  }

  // ---------------------------------------------------------------------------------------------
  // The papers of a quote
  // ---------------------------------------------------------------------------------------------

  lemma {:induction false} ThoseExactly(quotes: seq<Quote>, calls: Quote -> bool)
    requires forall i, j | 0 <= i < j < |quotes| :: quotes[i].id < quotes[j].id
    ensures forall q :: q in Those(quotes, calls) <==> q in quotes && calls(q)
    ensures forall i, j | 0 <= i < j < |Those(quotes, calls)| :: Those(quotes, calls)[i].id < Those(quotes, calls)[j].id
  {
    if quotes != [] {
      var init, last := quotes[..|quotes| - 1], quotes[|quotes| - 1];
      ThoseExactly(init, calls);
      assert quotes == init + [last];
      assert forall i | 0 <= i < |Those(init, calls)| :: Those(init, calls)[i] in init;
    }
  }

  /** In a wave, a quote handed over or accepted on the priced path has exactly one pickup request, its
      customer's and COMPLETED under the quote's order exactly when accepted; one accepted after pricing
      by hand has exactly one pickup, under its order; and no other quote has either. */
  lemma PapersExactly(b: Book, earlier: set<Id>, chains: seq<seq<TrackingEvent>>, firstSequence: nat, next: Id,
                      q: Quote)
    requires Coherent(b, earlier, chains, firstSequence, next) && q in b.quotes
    ensures (exists r | r in b.requests :: r.quote == q.id) <==>
            q.status == PickupRequested || (q.status == Accepted && q.selectedOption.Some?)
    ensures forall r | r in b.requests && r.quote == q.id ::
              r.customer == q.customer && r.order == q.order && (r.status == RequestCompleted <==> q.status == Accepted)
    ensures (exists p | p in b.pickups :: p.quote == q.id) <==> q.status == Accepted && q.selectedOption.None?
    ensures forall p | p in b.pickups && p.quote == q.id :: Some(p.order) == q.order
    ensures forall i, j | 0 <= i < j < |b.requests| :: b.requests[i].quote != b.requests[j].quote
    ensures forall i, j | 0 <= i < j < |b.pickups| :: b.pickups[i].quote != b.pickups[j].quote
  {
    hide OrdersCoherent, InvoicesCoherent, QuoteCoherent, RequestCoherent, QuoteNames, OptionCoherent, IdsBelow, Those;
    var requesting, byHand := Those(b.quotes, NeedsRequest), Those(b.quotes, NeedsPickup);
    ThoseExactly(b.quotes, NeedsRequest);
    ThoseExactly(b.quotes, NeedsPickup);
    SameQuote(b.quotes, q);
    forall i, j | 0 <= i < j < |b.requests|
      ensures b.requests[i].quote != b.requests[j].quote
    {
      assert requesting[i].id < requesting[j].id;
      assert RequestFits(b.requests[i], requesting[i]) && RequestFits(b.requests[j], requesting[j]);
    }
    forall i, j | 0 <= i < j < |b.pickups|
      ensures b.pickups[i].quote != b.pickups[j].quote
    {
      assert PickupFits(b.pickups[i], byHand[i]) && PickupFits(b.pickups[j], byHand[j]);
    }
    if NeedsRequest(q) {
      var i :| 0 <= i < |requesting| && requesting[i] == q;
      assert b.requests[i] in b.requests;
    }
    if NeedsPickup(q) {
      var i :| 0 <= i < |byHand| && byHand[i] == q;
      assert b.pickups[i] in b.pickups;
    }
  }

  lemma SameQuote(quotes: seq<Quote>, q: Quote)
    requires forall i, j | 0 <= i < j < |quotes| :: quotes[i].id < quotes[j].id
    requires q in quotes
    ensures forall other | other in quotes && other.id == q.id :: other == q
  {
  }

  /** Orders and shipments made since this identifier was next. */
  ghost predicate IdsFrom(b: Book, first: Id) {
    && (forall o | o in b.orders :: o.id >= first)
    && (forall s | s in b.shipments :: s.id >= first)
  }

  lemma PostKeepsFrom(b: Book, e: Entry, customers: set<Id>, sequence: nat, first: Id, next: Id, next': Id)
    requires EntrySound(e, customers, sequence, next, next') && IdsFrom(b, first) && first <= next
    ensures IdsFrom(Posted(b, e), first) && next <= next'
  {
    hide ChainCoherent;
  }

  lemma EmptyIsCoherent(earlier: set<Id>, firstSequence: nat, next: Id)
    ensures Coherent(EMPTY_BOOK, earlier, [], firstSequence, next)
  {
  }

  lemma CustomersKeepCoherent(b: Book, c: Customer, earlier: set<Id>, chains: seq<seq<TrackingEvent>>,
                              firstSequence: nat, next: Id, next': Id)
    requires Coherent(b, earlier, chains, firstSequence, next) && next <= c.id < next'
    ensures Coherent(b.(customers := b.customers + [c]), earlier, chains, firstSequence, next')
  {
    CustomersKeepQuotes(b, c, earlier);
    CustomersKeepOrders(b, c, earlier, chains, firstSequence);
    CustomersKeepIds(b, c, next, next');
    hide OrdersCoherent, QuoteCoherent, RequestCoherent, OptionCoherent, QuoteNames, OrderNamed, Billable, Those;
    hide IdsApart, IdsBelow;
  }

  lemma CustomersKeepQuotes(b: Book, c: Customer, earlier: set<Id>)
    requires forall q | q in b.quotes :: QuoteCoherent(b, earlier + CustomerIds(b), q)
    requires forall r | r in b.requests :: RequestCoherent(b, earlier + CustomerIds(b), r)
    requires forall o | o in b.options :: OptionCoherent(b, o)
    requires forall p | p in b.pickups :: QuoteNames(b, p.quote, Some(p.order))
    requires forall o | o in b.orders :: OrderNamed(b, o)
    requires InvoicesCoherent(b)
    ensures var b' := b.(customers := b.customers + [c]);
            var customers' := earlier + CustomerIds(b');
            && (forall q | q in b'.quotes :: QuoteCoherent(b', customers', q))
            && (forall r | r in b'.requests :: RequestCoherent(b', customers', r))
            && (forall o | o in b'.options :: OptionCoherent(b', o))
            && (forall p | p in b'.pickups :: QuoteNames(b', p.quote, Some(p.order)))
            && (forall o | o in b'.orders :: OrderNamed(b', o))
            && InvoicesCoherent(b')
  {
    var b' := b.(customers := b.customers + [c]);
    assert CustomerIds(b) <= CustomerIds(b') && OrderIds(b') == OrderIds(b);
    assert forall quote, order | QuoteNames(b, quote, order) :: QuoteNames(b', quote, order);
    assert forall o | OptionCoherent(b, o) :: OptionCoherent(b', o);
    assert forall o | OrderNamed(b, o) :: OrderNamed(b', o);
    assert forall p | Billable(b, p) :: Billable(b', p);
    hide QuoteNames, OptionCoherent, OrderNamed, Billable;
  }

  lemma CustomersKeepOrders(b: Book, c: Customer, earlier: set<Id>, chains: seq<seq<TrackingEvent>>,
                            firstSequence: nat)
    requires OrdersCoherent(b, earlier + CustomerIds(b), chains, firstSequence)
    ensures var b' := b.(customers := b.customers + [c]);
            OrdersCoherent(b', earlier + CustomerIds(b'), chains, firstSequence)
  {
    hide ChainCoherent, Flatten;
    var b' := b.(customers := b.customers + [c]);
    assert CustomerIds(b) <= CustomerIds(b');
    forall i | 0 <= i < |b'.orders|
      ensures OrderCoherent(b', earlier + CustomerIds(b'), chains, firstSequence, i)
    {
      assert OrderCoherent(b, earlier + CustomerIds(b), chains, firstSequence, i);
    }
  }

  lemma CustomersKeepIds(b: Book, c: Customer, next: Id, next': Id)
    requires IdsApart(b, next) && IdsBelow(b, next) && next <= c.id < next'
    ensures var b' := b.(customers := b.customers + [c]); IdsApart(b', next') && IdsBelow(b', next')
  {
    OneRises(c, CustomerId, next, next');
    LaterRising(b, next, next');
    RisingOfConcat(b.customers, [c], CustomerId, 0, next, next');
    hide Rising;
  }
}
