/** The integrity check, read as a specification: its row conditions, proved of every wave and of the
    tables any waves leave together, and its conditions on the numbers and their counters. */
module BulkChecks {
  import opened Text
  import opened BulkBook
  import opened InvoiceSeries
  import opened BulkFlush
  import opened BulkRun

  /** The event a `ORDER BY event_time DESC LIMIT 1` could return for the shipment. */
  ghost predicate Latest(b: Book, shipment: Id, e: TrackingEvent) {
    && e in b.events && e.shipment == shipment
    && forall other | other in b.events && other.shipment == shipment :: other.time <= e.time
  }

  /** The check's five status conditions. */
  ghost predicate StatusesAgree(b: Book) {
    && (forall q | q in b.quotes && q.status == Accepted :: q.order.Some?)
    && (forall r | r in b.requests && r.status == RequestCompleted :: r.order.Some?)
    && (forall s, e | s in b.shipments && Latest(b, s.id, e) :: s.currentStatus == e.status)
    && (forall p, o | p in b.pending && o in b.orders && o.id == p.order :: o.status != Cancelled)
    && (forall i, j | 0 <= i < j < |b.shipments| :: b.shipments[i].sequenceNumber != b.shipments[j].sequenceNumber)
  }

  lemma ShipmentIndex(b: Book, customers: set<Id>, chains: seq<seq<TrackingEvent>>, firstSequence: nat,
                      e: TrackingEvent, i: nat)
    requires OrdersCoherent(b, customers, chains, firstSequence)
    requires i < |b.shipments| && e in b.events && e.shipment == b.shipments[i].id
    ensures e in chains[i]
  {
    var j, k := EventHasChain(chains, e);
    assert OrderCoherent(b, customers, chains, firstSequence, j);
    assert ChainCoherent(b.shipments[j], b.numbers[j], chains[j]);
    assert b.shipments[j].id == b.shipments[i].id;
  }

  lemma {:induction false} ChainInFlatten(chains: seq<seq<TrackingEvent>>, i: nat, k: nat)
    requires i < |chains| && k < |chains[i]|
    ensures chains[i][k] in Flatten(chains)
  {
    if i < |chains| - 1 {
      ChainInFlatten(chains[..|chains| - 1], i, k);
    }
  }

  /** The cached status is that of the shipment's one latest event: scan times rise strictly. */
  lemma CurrentStatusIsLatest(b: Book, customers: set<Id>, chains: seq<seq<TrackingEvent>>, firstSequence: nat, i: nat,
                              e: TrackingEvent)
    requires OrdersCoherent(b, customers, chains, firstSequence) && i < |b.shipments|
    ensures chains[i] != []
    ensures Latest(b, b.shipments[i].id, e) <==> e == chains[i][|chains[i]| - 1]
    ensures chains[i][|chains[i]| - 1].status == b.shipments[i].currentStatus
  {
    var s, chain := b.shipments[i], chains[i];
    assert OrderCoherent(b, customers, chains, firstSequence, i);
    assert ChainCoherent(s, b.numbers[i], chain);
    var last := chain[|chain| - 1];
    ChainInFlatten(chains, i, |chain| - 1);
    forall other | other in b.events && other.shipment == s.id
      ensures other in chain && other.time <= last.time && (other.time == last.time ==> other == last)
    {
      ShipmentIndex(b, customers, chains, firstSequence, other, i);
      var k :| 0 <= k < |chain| && chain[k] == other;
    }
  }

  /** Every wave of the generator passes them, whatever was drawn. */
  lemma CoherentWavePasses(b: Book, earlier: set<Id>, chains: seq<seq<TrackingEvent>>, firstSequence: nat, next: Id)
    requires Coherent(b, earlier, chains, firstSequence, next)
    ensures StatusesAgree(b)
  {
    hide ChainCoherent, Flatten;
    var customers := earlier + CustomerIds(b);
    forall s, e | s in b.shipments && Latest(b, s.id, e)
      ensures s.currentStatus == e.status
    {
      var i :| 0 <= i < |b.shipments| && b.shipments[i] == s;
      CurrentStatusIsLatest(b, customers, chains, firstSequence, i, e);
    }
    forall p, o | p in b.pending && o in b.orders && o.id == p.order
      ensures o.status != Cancelled
    {
      BilledNotCancelled(b, customers, chains, firstSequence, p, o);
    }
    forall i, j | 0 <= i < j < |b.shipments|
      ensures b.shipments[i].sequenceNumber != b.shipments[j].sequenceNumber
    {
      assert OrderCoherent(b, customers, chains, firstSequence, i)
             && OrderCoherent(b, customers, chains, firstSequence, j);
    }
    forall r | r in b.requests && r.status == RequestCompleted
      ensures r.order.Some?
    {
      assert RequestCoherent(b, customers, r);
    }
  }

  lemma BilledNotCancelled(b: Book, customers: set<Id>, chains: seq<seq<TrackingEvent>>, firstSequence: nat,
                           p: PendingInvoice, o: Order)
    requires OrdersCoherent(b, customers, chains, firstSequence) && InvoicesCoherent(b)
    requires p in b.pending && o in b.orders && o.id == p.order
    ensures o.status != Cancelled
  {
    assert Billable(b, p);
    var billed :| billed in b.orders && billed.id == p.order && billed.status != Cancelled;
    var i :| 0 <= i < |b.orders| && b.orders[i] == o;
    var j :| 0 <= j < |b.orders| && b.orders[j] == billed;
    assert i == j;
  }

  /** Each order has one shipment and at most one invoice, and each accepted quote and completed
      request of a wave leads to an order of that wave, shared by no other quote. */
  lemma OneShipmentPerOrder(b: Book, earlier: set<Id>, chains: seq<seq<TrackingEvent>>, firstSequence: nat, next: Id,
                            o: Order)
    requires Coherent(b, earlier, chains, firstSequence, next) && o in b.orders
    ensures exists i | 0 <= i < |b.shipments| :: b.shipments[i].order == o.id
    ensures forall i, j | 0 <= i < j < |b.shipments| :: !(b.shipments[i].order == o.id && b.shipments[j].order == o.id)
    ensures forall i, j | 0 <= i < j < |b.pending| :: !(b.pending[i].order == o.id && b.pending[j].order == o.id)
    ensures forall i, j | 0 <= i < j < |b.quotes| ::
              !(b.quotes[i].order == Some(o.id) && b.quotes[j].order == Some(o.id))
  {
    hide ChainCoherent, Flatten, QuoteCoherent, RequestCoherent, IdsBelow, Billable;
    var customers := earlier + CustomerIds(b);
    forall i | 0 <= i < |b.shipments|
      ensures b.shipments[i].order == b.orders[i].id
    {
      assert OrderCoherent(b, customers, chains, firstSequence, i);
    }
    var k :| 0 <= k < |b.orders| && b.orders[k] == o;
    assert b.shipments[k].order == o.id;
  }

  // ---------------------------------------------------------------------------------------------
  // The tables of many waves
  // ---------------------------------------------------------------------------------------------

  function Merged(all: Book, b: Book): Book {
    Book(all.customers + b.customers, all.quotes + b.quotes, all.options + b.options, all.requests + b.requests,
         all.orders + b.orders, all.pickups + b.pickups, all.shipments + b.shipments, all.numbers + b.numbers,
         all.events + b.events, all.pending + b.pending)
  }

  /** Every row is about orders and shipments made before this identifier was next. */
  ghost predicate AllBefore(b: Book, next: Id) {
    && (forall o | o in b.orders :: o.id < next)
    && (forall s | s in b.shipments :: s.id < next)
    && (forall e | e in b.events :: e.shipment < next)
    && (forall p | p in b.pending :: p.order < next)
  }

  ghost predicate AllFrom(b: Book, first: Id) {
    && (forall o | o in b.orders :: o.id >= first)
    && (forall s | s in b.shipments :: s.id >= first)
    && (forall e | e in b.events :: e.shipment >= first)
    && (forall p | p in b.pending :: p.order >= first)
  }

  /** The check passes, and later rows will be about other orders and higher shipment numbers. */
  ghost predicate TablesAgree(all: Book, sequence: nat, next: Id) {
    && StatusesAgree(all) && AllBefore(all, next)
    && forall s | s in all.shipments :: s.sequenceNumber <= sequence
  }

  lemma WaveRowsInRange(b: Book, earlier: set<Id>, chains: seq<seq<TrackingEvent>>, firstSequence: nat, first: Id,
                        next: Id)
    requires Coherent(b, earlier, chains, firstSequence, next) && IdsFrom(b, first)
    ensures AllBefore(b, next) && AllFrom(b, first)
    ensures forall s | s in b.shipments :: firstSequence < s.sequenceNumber <= firstSequence + |b.orders|
  {
    hide ChainCoherent, Flatten;
    var customers := earlier + CustomerIds(b);
    forall e | e in b.events
      ensures first <= e.shipment < next
    {
      EventResolves(b, customers, chains, firstSequence, e);
    }
    forall p | p in b.pending
      ensures first <= p.order < next
    {
      assert Billable(b, p);
    }
    forall s | s in b.shipments
      ensures firstSequence < s.sequenceNumber <= firstSequence + |b.orders|
    {
      var i :| 0 <= i < |b.shipments| && b.shipments[i] == s;
      assert OrderCoherent(b, customers, chains, firstSequence, i);
    }
  }

  lemma LatestBefore(all: Book, b: Book, first: Id, shipment: Id, e: TrackingEvent)
    requires AllBefore(all, first) && AllFrom(b, first) && Latest(Merged(all, b), shipment, e)
    ensures if shipment < first then Latest(all, shipment, e) else Latest(b, shipment, e)
  {
    assert forall other | other in all.events || other in b.events :: other in Merged(all, b).events;
  }

  lemma MergedStatusesAgree(all: Book, b: Book, sequence: nat, first: Id)
    requires TablesAgree(all, sequence, first) && StatusesAgree(b) && AllFrom(b, first)
    requires forall s | s in b.shipments :: s.sequenceNumber > sequence
    ensures StatusesAgree(Merged(all, b))
  {
    var merged := Merged(all, b);
    forall s, e | s in merged.shipments && Latest(merged, s.id, e)
      ensures s.currentStatus == e.status
    {
      LatestBefore(all, b, first, s.id, e);
    }
    hide Latest;
    forall i, j | 0 <= i < j < |merged.shipments|
      ensures merged.shipments[i].sequenceNumber != merged.shipments[j].sequenceNumber
    {
      if i < |all.shipments| <= j {
        assert merged.shipments[i] in all.shipments && merged.shipments[j] in b.shipments;
      }
    }
  }

  /** A wave added to tables that pass the check leaves tables that pass it. */
  lemma WaveJoinsTables(all: Book, b: Book, earlier: set<Id>, chains: seq<seq<TrackingEvent>>, firstSequence: nat,
                        first: Id, next: Id)
    requires TablesAgree(all, firstSequence, first)
    requires Coherent(b, earlier, chains, firstSequence, next) && IdsFrom(b, first) && first <= next
    ensures TablesAgree(Merged(all, b), firstSequence + |b.orders|, next)
  {
    CoherentWavePasses(b, earlier, chains, firstSequence, next);
    WaveRowsInRange(b, earlier, chains, firstSequence, first, next);
    MergedStatusesAgree(all, b, firstSequence, first);
    hide StatusesAgree, Coherent, IdsFrom;
  }

  lemma NumberedInvoicesOf(yearOf: int -> string, counters: Counters, b: Book)
    ensures InvoicesOf(b, Numbered(yearOf, counters, SortByDate(b.pending)))
  {
    var sorted := SortByDate(b.pending);
    var invoices := Numbered(yearOf, counters, sorted);
    SortSorts(b.pending);
    hide SortByDate, Numbered;
    forall i | 0 <= i < |invoices|
      ensures exists p | p in b.pending :: p.order == invoices[i].order && p.customer == invoices[i].customer
    {
      NumberedAt(yearOf, counters, sorted, i);
      assert sorted[i] in multiset(sorted);
      assert sorted[i] in b.pending;
    }
  }

  lemma MergedInvoicesOf(all: Book, stored: seq<Invoice>, b: Book, added: seq<Invoice>)
    requires InvoicesOf(all, stored) && InvoicesOf(b, added)
    ensures InvoicesOf(Merged(all, b), stored + added)
  {
    forall i | i in stored + added
      ensures exists p | p in Merged(all, b).pending :: p.order == i.order && p.customer == i.customer
    {
      if i in stored {
        var p :| p in all.pending && p.order == i.order && p.customer == i.customer;
        assert p in Merged(all, b).pending;
      } else {
        var p :| p in b.pending && p.order == i.order && p.customer == i.customer;
        assert p in Merged(all, b).pending;
      }
    }
  }

  // ---------------------------------------------------------------------------------------------
  // Numbers and counters
  // ---------------------------------------------------------------------------------------------

  /** No failure is counted: each year's series is 1..n under its counter, shipment numbers are distinct
      and under theirs. */
  ghost predicate NumbersPass(store: Store, years: seq<string>) {
    && (forall year | year in years ::
          var series := Series(store.invoices, year);
          Gapless(store.invoices, year, |series|) && |series| <= CounterOf(store.invoiceCounters, year))
    && Once(store.shipments)
    && forall n | n in store.shipments :: n <= store.shipmentCounter
  }

  lemma {:induction false} HighestIsStored(shipments: seq<nat>)
    ensures HighestShipment(shipments) == 0 || HighestShipment(shipments) in shipments
  {
    if shipments != [] {
      HighestIsStored(shipments[..|shipments| - 1]);
      assert shipments == shipments[..|shipments| - 1] + [shipments[|shipments| - 1]];
    }
  }

  function PrintedOf(i: Invoice): string {
    FormatInvoiceNumber(i.sequence, i.year)
  }

  /** No two invoices print the same number. */
  ghost predicate PrintedApart(invoices: seq<Invoice>) {
    forall i, j | 0 <= i < j < |invoices| :: PrintedOf(invoices[i]) != PrintedOf(invoices[j])
  }

  ghost predicate PlainYears(invoices: seq<Invoice>) {
    forall i | i in invoices :: '/' !in i.year
  }

  function PrintedNumbers(invoices: seq<Invoice>): set<string> {
    set i | i in invoices :: PrintedOf(i)
  }

  lemma ApartOfAppend(init: seq<Invoice>, last: Invoice)
    ensures PrintedApart(init + [last]) <==> PrintedApart(init) && PrintedOf(last) !in PrintedNumbers(init)
    ensures PrintedNumbers(init + [last]) == PrintedNumbers(init) + {PrintedOf(last)}
  {
    var all := init + [last];
    if PrintedApart(all) {
      forall i | 0 <= i < |init|
        ensures PrintedOf(init[i]) != PrintedOf(last)
      {
        assert all[i] == init[i] && all[|init|] == last;
      }
      assert forall i, j | 0 <= i < j < |init| :: all[i] == init[i] && all[j] == init[j];
    }
    hide PrintedOf;
  }

  lemma {:induction false} DistinctPrintedExactly(invoices: seq<Invoice>)
    ensures |PrintedNumbers(invoices)| <= |invoices|
    ensures |PrintedNumbers(invoices)| == |invoices| <==> PrintedApart(invoices)
  {
    hide PrintedOf;
    if invoices == [] {
      assert PrintedNumbers(invoices) == {};
    } else {
      var init, last := invoices[..|invoices| - 1], invoices[|invoices| - 1];
      assert invoices == init + [last];
      DistinctPrintedExactly(init);
      ApartOfAppend(init, last);
    }
  }

  /** Where each year's sequence numbers are distinct, so are the printed ones. */
  lemma PrintedApartWhenOnce(invoices: seq<Invoice>)
    requires PlainYears(invoices) && forall i | i in invoices :: Once(Series(invoices, i.year))
    ensures PrintedApart(invoices)
  {
    forall i, j | 0 <= i < j < |invoices|
      ensures PrintedOf(invoices[i]) != PrintedOf(invoices[j])
    {
      var a, b := invoices[i], invoices[j];
      if PrintedOf(a) == PrintedOf(b) {
        PrintedNumberDecodes(a.sequence, a.year, b.sequence, b.year);
        StoredTwice(invoices, i, j);
      }
    }
    hide FormatInvoiceNumber;
  }

  lemma StoredTwice(invoices: seq<Invoice>, i: nat, j: nat)
    requires i < j < |invoices|
    requires invoices[i].year == invoices[j].year && invoices[i].sequence == invoices[j].sequence
    ensures !Once(Series(invoices, invoices[i].year))
  {
    hide Series;
    var year, n, others := invoices[i].year, invoices[i].sequence, invoices[..i] + invoices[i + 1..];
    StillThere(invoices, i, j);
    SeriesWithout(invoices, i, year);
    SeriesHolds(others, year, n);
    assert multiset(Series(others, year))[n] >= 1;
    TwoCounted(multiset(Series(others, year)), multiset(Series(invoices, year)), n);
  }

  lemma StillThere<T>(s: seq<T>, i: nat, j: nat)
    requires i < j < |s|
    ensures s[j] in s[..i] + s[i + 1..]
  {
    assert s[i + 1..][j - i - 1] == s[j];
  }

  lemma TwoCounted(others: multiset<nat>, all: multiset<nat>, n: nat)
    requires all == others + multiset{n} && others[n] >= 1
    ensures all[n] >= 2
  {
  }

  /** What the series conditions already say about printed numbers, when every year is checked. */
  lemma NumbersPrintApart(store: Store, years: seq<string>)
    requires NumbersPass(store, years) && PlainYears(store.invoices)
    requires forall i | i in store.invoices :: i.year in years
    ensures PrintedApart(store.invoices)
  {
    forall i | i in store.invoices
      ensures Once(Series(store.invoices, i.year))
    {
      GaplessIsOnce(store.invoices, i.year, |Series(store.invoices, i.year)|);
    }
    hide Series, Once, Gapless;
    PrintedApartWhenOnce(store.invoices);
  }

  lemma GaplessIsOnce(invoices: seq<Invoice>, year: string, top: nat)
    requires Gapless(invoices, year, top)
    ensures Once(Series(invoices, year))
  {
    forall n: nat
      ensures multiset(Series(invoices, year))[n] <= 1
    {
      FollowingHolds(0, top, n);
    }
    hide Series, Following;
  }

  method VerifyNumbers(store: Store, years: seq<string>) returns (failures: nat)
    requires forall year | year in years :: Series(store.invoices, year) != []
    ensures failures == 0 <==> NumbersPass(store, years) && PrintedApart(store.invoices)
  {
    DistinctPrintedExactly(store.invoices);
    hide PrintedApart, PrintedNumbers;
    failures := VerifySeries(store.invoices, store.invoiceCounters, years);
    DistinctMeansOnce(store.shipments);
    HighestCovers(store.shipments);
    HighestIsStored(store.shipments);
    hide Series, Gapless, HighestShipment;
    if |PrintedNumbers(store.invoices)| != |store.invoices| {
      failures := failures + 1;
    }
    if |Distinct(store.shipments)| != |store.shipments| {
      failures := failures + 1;
    }
    if store.shipmentCounter < HighestShipment(store.shipments) {
      failures := failures + 1;
    }
  }

  /** Right after a whole wave the saved counters are those of the process, and every check of the
      numbers passes. */
  lemma WholeWavePasses(yearOf: int -> string, w: World, wave: Wave, w': World, years: seq<string>)
    requires Next(yearOf, w, WholeWave(wave), w') && NeverReissued(w')
    requires forall year | year in years :: GaplessYear(w', year)
    ensures NumbersPass(w'.store, years)
  {
    hide Once, Gapless, Series, RowsOf, After, Accepts;
    forall year | year in years
      ensures Gapless(w'.store.invoices, year, |Series(w'.store.invoices, year)|)
      ensures |Series(w'.store.invoices, year)| <= CounterOf(w'.store.invoiceCounters, year)
    {
      GaplessCounts(w'.store.invoices, year, Top(w', year));
    }
  }

  /** The years printed on invoices have no slash, whatever the date. */
  ghost predicate PrintsPlainly(yearOf: int -> string) {
    forall date :: '/' !in yearOf(date)
  }

  lemma WholeWavePrintsApart(yearOf: int -> string, w: World, wave: Wave, w': World)
    requires Next(yearOf, w, WholeWave(wave), w') && NeverReissued(w')
    requires PrintsPlainly(yearOf) && PlainYears(w.store.invoices)
    ensures PlainYears(w'.store.invoices) && PrintedApart(w'.store.invoices)
  {
    var p, sorted := w.process.value, SortByDate(wave.pending);
    var added := Numbered(yearOf, p.invoiceSeqByFy, sorted);
    assert w'.store.invoices == w.store.invoices + added;
    hide Once, Series, After, Accepts, Numbered, SortByDate, Next, RowsOf;
    forall k | 0 <= k < |added|
      ensures '/' !in added[k].year
    {
      NumberedAt(yearOf, p.invoiceSeqByFy, sorted, k);
    }
    PrintedApartWhenOnce(w'.store.invoices);
  }
}
