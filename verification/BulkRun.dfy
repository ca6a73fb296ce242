/** Runs of the bulk generator against one database: start-up, waves, and crashes between any two
    writes. Only the numbered rows and the counters matter here. */
module BulkRun {
  import opened Text
  import opened BulkBook
  import opened InvoiceSeries
  import opened BulkFlush

  /** The numbers stored: customers' phones, shipments' sequence numbers, invoices, and the counters; and
      whether the database checks foreign keys as rows come in, as the migrations declare them. */
  datatype Store = Store(
    keysChecked: bool,
    phones: seq<nat>,
    shipments: seq<nat>,
    invoices: seq<Invoice>,
    shipmentCounter: nat,
    invoiceCounters: Counters)

  /** The counters a running process holds. */
  datatype Process = Process(phoneCounter: nat, shipmentSeq: nat, invoiceSeqByFy: Counters)

  // ---------------------------------------------------------------------------------------------
  // Start-up
  // ---------------------------------------------------------------------------------------------

  function HighestShipment(shipments: seq<nat>): nat {
    if shipments == [] then 0
    else
      var rest, last := HighestShipment(shipments[..|shipments| - 1]), shipments[|shipments| - 1];
      if last > rest then last else rest
  }

  function Lifted(counters: Counters, invoices: seq<Invoice>): Counters {
    if invoices == [] then counters
    else
      var rest, last := Lifted(counters, invoices[..|invoices| - 1]), invoices[|invoices| - 1];
      if last.sequence > CounterOf(rest, last.year) then rest[last.year := last.sequence] else rest
  }

  /** The counters are read back and raised to whatever is actually stored; the phone counter starts over. */
  function StartUp(store: Store): Process {
    Process(0,
            if HighestShipment(store.shipments) > store.shipmentCounter
            then HighestShipment(store.shipments)
            else store.shipmentCounter,
            Lifted(store.invoiceCounters, store.invoices))
  }

  lemma {:induction false} LiftCovers(counters: Counters, invoices: seq<Invoice>)
    ensures forall i | i in invoices :: i.sequence <= CounterOf(Lifted(counters, invoices), i.year)
    ensures forall year :: CounterOf(counters, year) <= CounterOf(Lifted(counters, invoices), year)
  {
    if invoices != [] {
      LiftCovers(counters, invoices[..|invoices| - 1]);
      assert invoices == invoices[..|invoices| - 1] + [invoices[|invoices| - 1]];
    }
  }

  lemma {:induction false} HighestCovers(shipments: seq<nat>)
    ensures forall n | n in shipments :: n <= HighestShipment(shipments)
  {
    if shipments != [] {
      HighestCovers(shipments[..|shipments| - 1]);
      assert shipments == shipments[..|shipments| - 1] + [shipments[|shipments| - 1]];
    }
  }

  // ---------------------------------------------------------------------------------------------
  // Waves and crashes
  // ---------------------------------------------------------------------------------------------

  /** A wave makes so many customers and shipments and numbers its pending invoices; `committed` says
      that some quote of it names an option or an order. */
  datatype Wave = Wave(customers: nat, shipments: nat, pending: seq<PendingInvoice>, committed: bool)

  /** What matters here of a wave's rows. */
  function WaveOf(b: Book): Wave {
    Wave(|b.customers|, |b.orders|, b.pending, Committed(b))
  }

  /** No invoice without a shipment, no shipment without a commitment. */
  predicate Generated(wave: Wave) {
    && (wave.pending != [] ==> wave.shipments > 0)
    && (wave.shipments > 0 ==> wave.committed)
  }

  /** Every wave the generator can make is such. */
  lemma CoherentIsGenerated(b: Book, earlier: set<Id>, chains: seq<seq<TrackingEvent>>, firstSequence: nat, next: Id)
    requires Coherent(b, earlier, chains, firstSequence, next)
    ensures Generated(WaveOf(b))
  {
    hide OrdersCoherent, QuoteCoherent, RequestCoherent, IdsBelow, UniqueQuotes, QuoteNames;
    if b.pending != [] {
      assert Billable(b, b.pending[0]);
    }
    if b.orders != [] {
      assert OrderNamed(b, b.orders[0]);
    }
  }

  /** The numbered rows of a wave. */
  datatype Rows = Rows(phones: seq<nat>, shipments: seq<nat>, invoices: seq<Invoice>)

  /** What of a wave reached the database before a crash, and what the counters are then. */
  datatype Landed = Landed(rows: Rows, shipmentCounter: nat, invoiceCounters: Counters)

  datatype Event =
    | Start
    | WholeWave(wave: Wave)
    | CrashIn(wave: Wave, landed: Landed)
    | Stop

  /** What a process buffers for a wave. */
  function RowsOf(yearOf: int -> string, p: Process, wave: Wave): Rows {
    Rows(Following(FIRST_PHONE - 1 + p.phoneCounter, wave.customers),
         Following(p.shipmentSeq, wave.shipments),
         Numbered(yearOf, p.invoiceSeqByFy, SortByDate(wave.pending)))
  }

  function After(yearOf: int -> string, p: Process, wave: Wave): Process {
    Process(p.phoneCounter + wave.customers, p.shipmentSeq + wave.shipments,
            CountersAfter(yearOf, p.invoiceSeqByFy, SortByDate(wave.pending)))
  }

  /** The phone column is unique. */
  predicate PhonesAccepted(stored: seq<nat>, phones: seq<nat>) {
    forall n | n in phones :: n !in stored
  }

  /** The database takes the customers, and then the quotes: these point forward once committed to. */
  predicate Accepts(store: Store, phones: seq<nat>, wave: Wave) {
    PhonesAccepted(store.phones, phones) && (store.keysChecked ==> !wave.committed)
  }

  /** What an interrupted write can leave of a collection. */
  ghost predicate LeftOf<T(!new)>(all: seq<T>, some: seq<T>) {
    exists awaited, kept :: some == Interrupted(Grouped(all), awaited, kept)
  }

  /** A collection is started when the ones before it are whole. Counters are written back after the
      last row, the shipments' first, the years' each on its own. */
  ghost predicate MayLand(yearOf: int -> string, p: Process, store: Store, wave: Wave, landed: Landed) {
    var rows, some := RowsOf(yearOf, p, wave), landed.rows;
    && LeftOf(rows.phones, some.phones) && PhonesAccepted(store.phones, some.phones)
    && LeftOf(rows.shipments, some.shipments)
    && LeftOf(rows.invoices, some.invoices)
    && (some.shipments != [] || some.invoices != [] ==> some.phones == rows.phones && Accepts(store, rows.phones, wave))
    && (some.invoices != [] ==> some.shipments == rows.shipments)
    && (landed.shipmentCounter != store.shipmentCounter ==>
          && some == rows && Accepts(store, rows.phones, wave)
          && landed.shipmentCounter == p.shipmentSeq + wave.shipments)
    && (forall year | CounterOf(landed.invoiceCounters, year) != CounterOf(store.invoiceCounters, year) ::
          && some == rows && Accepts(store, rows.phones, wave)
          && landed.shipmentCounter == p.shipmentSeq + wave.shipments
          && CounterOf(landed.invoiceCounters, year) == CounterOf(After(yearOf, p, wave).invoiceSeqByFy, year))
  }

  datatype World = World(store: Store, process: Option<Process>)

  function Grown(store: Store, rows: Rows, shipmentCounter: nat, invoiceCounters: Counters): Store {
    Store(store.keysChecked, store.phones + rows.phones, store.shipments + rows.shipments,
          store.invoices + rows.invoices, shipmentCounter, invoiceCounters)
  }

  /** A wave is whole only if the database takes it; one that it refuses is a crash. */
  ghost predicate Next(yearOf: int -> string, w: World, event: Event, w': World) {
    match event
    case Start => w.process.None? && w' == w.(process := Some(StartUp(w.store)))
    case Stop => w.process.Some? && w' == w.(process := None)
    case WholeWave(wave) =>
      && w.process.Some?
      && var p, p' := w.process.value, After(yearOf, w.process.value, wave);
         && Accepts(w.store, RowsOf(yearOf, p, wave).phones, wave)
         && w' == World(Grown(w.store, RowsOf(yearOf, p, wave), p'.shipmentSeq, p'.invoiceSeqByFy), Some(p'))
    case CrashIn(wave, landed) =>
      && w.process.Some?
      && MayLand(yearOf, w.process.value, w.store, wave, landed)
      && w' == World(Grown(w.store, landed.rows, landed.shipmentCounter, landed.invoiceCounters), None)
  }

  ghost predicate History(yearOf: int -> string, w: World, events: seq<Event>, w': World)
    decreases events
  {
    if events == [] then w' == w
    else exists between :: Next(yearOf, w, events[0], between) && History(yearOf, between, events[1..], w')
  }

  /** A wave that the database refuses stores at most customers of the numbered rows. */
  lemma RefusedLandsNothing(yearOf: int -> string, w: World, wave: Wave, landed: Landed, w': World)
    requires Next(yearOf, w, CrashIn(wave, landed), w')
    requires !Accepts(w.store, RowsOf(yearOf, w.process.value, wave).phones, wave)
    ensures landed.rows.shipments == [] && landed.rows.invoices == []
    ensures landed.shipmentCounter == w.store.shipmentCounter
    ensures forall year :: CounterOf(landed.invoiceCounters, year) == CounterOf(w.store.invoiceCounters, year)
  {
    hide LeftOf, CounterOf;
  }

  /** A write may be stopped before its first row. */
  lemma NothingIsLeft<T(!new)>(all: seq<T>)
    ensures LeftOf(all, [])
  {
    var groups := Grouped(all);
    NothingJoined<T>({});
    if groups == [] {
      assert Interrupted(groups, 0, {}) == [];
    } else {
      OnlyKept(groups[0].batches, |groups[0].batches|);
      assert groups[..0] == [];
      assert Interrupted(groups, 0, {|groups[0].batches|}) == [];
    }
  }

  lemma WholeIsLeft<T(!new)>(all: seq<T>)
    ensures LeftOf(all, all)
  {
    GroupsAreBuffer(all);
    assert Interrupted(Grouped(all), |Grouped(all)|, {}) == all;
  }

  // ---------------------------------------------------------------------------------------------
  // No number is ever issued twice
  // ---------------------------------------------------------------------------------------------

  ghost predicate Once(numbers: seq<nat>) {
    forall n :: multiset(numbers)[n] <= 1
  }

  /** Stored numbers are distinct, and a running process is past every one of them. */
  ghost predicate NeverReissued(w: World) {
    && Once(w.store.shipments)
    && (forall year :: Once(Series(w.store.invoices, year)))
    && (w.process.Some? ==>
          && (forall n | n in w.store.shipments :: n <= w.process.value.shipmentSeq)
          && (forall year, n | n in Series(w.store.invoices, year) ::
                n <= CounterOf(w.process.value.invoiceSeqByFy, year)))
  }

  lemma OnceBeyond(stored: seq<nat>, added: seq<nat>, top: nat, count: nat)
    requires Once(stored) && (forall n | n in stored :: n <= top)
    requires multiset(added) <= multiset(Following(top, count))
    ensures Once(stored + added)
    ensures forall n | n in stored + added :: n <= top + count
  {
    forall n: nat
      ensures multiset(stored + added)[n] <= 1
      ensures n in stored + added ==> n <= top + count
    {
      FollowingHolds(top, count, n);
      assert multiset(stored + added) == multiset(stored) + multiset(added);
      assert multiset(added)[n] <= multiset(Following(top, count))[n];
      assert n in stored <==> n in multiset(stored);
      assert n in stored + added <==> n in multiset(stored + added);
    }
  }

  lemma SeriesWithout(all: seq<Invoice>, k: nat, year: string)
    requires k < |all|
    ensures multiset(all) == multiset(all[..k] + all[k + 1..]) + multiset{all[k]}
    ensures multiset(Series(all, year)) ==
            multiset(Series(all[..k] + all[k + 1..], year)) +
            if all[k].year == year then multiset{all[k].sequence} else multiset{}
  {
    assert all == all[..k] + [all[k]] + all[k + 1..];
    SeriesOfConcat(all[..k], all[k + 1..], year);
    SeriesOfConcat(all[..k] + [all[k]], all[k + 1..], year);
    SeriesOfAppend(all[..k], all[k], year);
    hide Series;
  }

  /** Some of the rows, none more often than it was buffered. */
  ghost predicate PartOf<T(!new)>(some: seq<T>, all: seq<T>) {
    multiset(some) <= multiset(all)
  }

  lemma LeftIsPart<T(!new)>(all: seq<T>, some: seq<T>)
    requires LeftOf(all, some)
    ensures PartOf(some, all)
  {
    var awaited, kept :| some == Interrupted(Grouped(all), awaited, kept);
    InterruptedIsPart(Grouped(all), awaited, kept);
    GroupsAreBuffer(all);
  }

  /** A part of the invoices is a part of each year's series. */
  lemma {:induction false} SeriesOfPart(some: seq<Invoice>, all: seq<Invoice>, year: string)
    requires PartOf(some, all)
    ensures multiset(Series(some, year)) <= multiset(Series(all, year))
  {
    if some != [] {
      var init, last := some[..|some| - 1], some[|some| - 1];
      assert some == init + [last];
      assert last in multiset(some);
      assert last in multiset(all);
      var k :| 0 <= k < |all| && all[k] == last;
      SeriesWithout(all, k, year);
      SeriesOfAppend(init, last, year);
      PartWithout(init, last, all, all[..k] + all[k + 1..]);
      SeriesOfPart(init, all[..k] + all[k + 1..], year);
    }
    hide Series;
  }

  lemma PartWithout(init: seq<Invoice>, last: Invoice, all: seq<Invoice>, others: seq<Invoice>)
    requires PartOf(init + [last], all) && multiset(all) == multiset(others) + multiset{last}
    ensures PartOf(init, others)
  {
    assert multiset(init + [last]) == multiset(init) + multiset{last};
    forall x: Invoice
      ensures multiset(init)[x] <= multiset(others)[x]
    {
      assert multiset(init + [last])[x] <= multiset(all)[x];
    }
  }

  lemma StartKeeps(w: World)
    requires NeverReissued(w) && w.process.None?
    ensures NeverReissued(w.(process := Some(StartUp(w.store))))
  {
    LiftCovers(w.store.invoiceCounters, w.store.invoices);
    HighestCovers(w.store.shipments);
    forall year, n | n in Series(w.store.invoices, year)
      ensures n <= CounterOf(StartUp(w.store).invoiceSeqByFy, year)
    {
      SeriesHolds(w.store.invoices, year, n);
    }
  }

  /** Storing any part of what a process numbered keeps every number distinct. */
  lemma LandingKeeps(yearOf: int -> string, store: Store, p: Process, wave: Wave, shipments: seq<nat>,
                     invoices: seq<Invoice>)
    requires NeverReissued(World(store, Some(p)))
    requires PartOf(shipments, Following(p.shipmentSeq, wave.shipments))
    requires PartOf(invoices, Numbered(yearOf, p.invoiceSeqByFy, SortByDate(wave.pending)))
    ensures Once(store.shipments + shipments)
    ensures forall n | n in store.shipments + shipments :: n <= p.shipmentSeq + wave.shipments
    ensures forall year :: Once(Series(store.invoices + invoices, year))
    ensures forall year, n | n in Series(store.invoices + invoices, year) ::
              n <= CounterOf(CountersAfter(yearOf, p.invoiceSeqByFy, SortByDate(wave.pending)), year)
  {
    hide Series, Numbered, CountersAfter, Once, SortByDate, CounterOf;
    var sorted := SortByDate(wave.pending);
    var numbered := Numbered(yearOf, p.invoiceSeqByFy, sorted);
    OnceBeyond(store.shipments, shipments, p.shipmentSeq, wave.shipments);
    forall year
      ensures Once(Series(store.invoices + invoices, year))
      ensures forall n | n in Series(store.invoices + invoices, year) ::
                n <= CounterOf(CountersAfter(yearOf, p.invoiceSeqByFy, sorted), year)
    {
      SeriesOfPart(invoices, numbered, year);
      NumbersFollowCounter(yearOf, p.invoiceSeqByFy, sorted, year);
      SeriesOfConcat(store.invoices, invoices, year);
      OnceBeyond(Series(store.invoices, year), Series(invoices, year),
                 CounterOf(p.invoiceSeqByFy, year), |Series(numbered, year)|);
    }
  }

  lemma StepKeeps(yearOf: int -> string, w: World, event: Event, w': World)
    requires NeverReissued(w) && Next(yearOf, w, event, w')
    ensures NeverReissued(w')
  {
    hide NeverReissued, Series, Numbered, CountersAfter, Once, SortByDate;
    match event
    case Start =>
      StartKeeps(w);
    case Stop =>
      StopKeeps(w);
    case WholeWave(wave) =>
      WholeWaveKeeps(yearOf, w, wave, w');
    case CrashIn(wave, landed) =>
      CrashKeeps(yearOf, w, wave, landed, w');
  }

  lemma StopKeeps(w: World)
    requires NeverReissued(w)
    ensures NeverReissued(w.(process := None))
  {
  }

  lemma WholeWaveKeeps(yearOf: int -> string, w: World, wave: Wave, w': World)
    requires NeverReissued(w) && Next(yearOf, w, WholeWave(wave), w')
    ensures NeverReissued(w')
  {
    hide Series, Numbered, CountersAfter, Once, SortByDate, CounterOf, Following;
    var p := w.process.value;
    assert w == World(w.store, Some(p));
    LandingKeeps(yearOf, w.store, p, wave, Following(p.shipmentSeq, wave.shipments),
                 Numbered(yearOf, p.invoiceSeqByFy, SortByDate(wave.pending)));
  }

  lemma CrashKeeps(yearOf: int -> string, w: World, wave: Wave, landed: Landed, w': World)
    requires NeverReissued(w) && Next(yearOf, w, CrashIn(wave, landed), w')
    ensures NeverReissued(w')
  {
    hide Series, Numbered, CountersAfter, Once, SortByDate, CounterOf, Following;
    var p := w.process.value;
    assert w == World(w.store, Some(p));
    var rows := RowsOf(yearOf, p, wave);
    LeftIsPart(rows.shipments, landed.rows.shipments);
    LeftIsPart(rows.invoices, landed.rows.invoices);
    LandingKeeps(yearOf, w.store, p, wave, landed.rows.shipments, landed.rows.invoices);
  }

  /** However runs, crashes and restarts follow one another, no invoice number and no shipment number
      is stored twice. */
  lemma {:induction false} NoHistoryReissues(yearOf: int -> string, w: World, events: seq<Event>, w': World)
    requires NeverReissued(w) && History(yearOf, w, events, w')
    ensures NeverReissued(w')
    decreases events
  {
    if events != [] {
      var between :| Next(yearOf, w, events[0], between) && History(yearOf, between, events[1..], w');
      StepKeeps(yearOf, w, events[0], between);
      NoHistoryReissues(yearOf, between, events[1..], w');
    }
  }

  // ---------------------------------------------------------------------------------------------
  // Gaps
  // ---------------------------------------------------------------------------------------------

  /** The counter the year's next invoice would be numbered from. */
  ghost function Top(w: World, year: string): nat {
    CounterOf(if w.process.Some? then w.process.value.invoiceSeqByFy else StartUp(w.store).invoiceSeqByFy, year)
  }

  /** The year's stored invoices are exactly 1..Top, and the saved counter does not run ahead. */
  ghost predicate GaplessYear(w: World, year: string) {
    Gapless(w.store.invoices, year, Top(w, year)) && CounterOf(w.store.invoiceCounters, year) <= Top(w, year)
  }

  lemma {:induction false} LiftIsMax(counters: Counters, invoices: seq<Invoice>, year: string)
    ensures var top := CounterOf(Lifted(counters, invoices), year);
            && CounterOf(counters, year) <= top
            && (forall n | n in Series(invoices, year) :: n <= top)
            && (top == CounterOf(counters, year) || top in Series(invoices, year))
  {
    if invoices != [] {
      LiftIsMax(counters, invoices[..|invoices| - 1], year);
    }
  }

  /** A whole wave leaves every gapless year gapless, with the counter at its last number. */
  lemma WholeWaveStaysGapless(yearOf: int -> string, w: World, wave: Wave, w': World, year: string)
    requires GaplessYear(w, year) && Next(yearOf, w, WholeWave(wave), w')
    ensures GaplessYear(w', year)
  {
    hide Gapless, Series, Numbered, CountersAfter, SortByDate;
    var p := w.process.value;
    WaveKeepsGapless(yearOf, p.invoiceSeqByFy, w.store.invoices, SortByDate(wave.pending),
                     Numbered(yearOf, p.invoiceSeqByFy, SortByDate(wave.pending)), year);
  }

  /** If what is stored is 1..top and the saved counter is no higher, start-up resumes at `top`. */
  lemma LiftResumesAt(counters: Counters, invoices: seq<Invoice>, year: string, top: nat)
    requires Gapless(invoices, year, top) && CounterOf(counters, year) <= top
    ensures CounterOf(Lifted(counters, invoices), year) == top
  {
    var lifted := CounterOf(Lifted(counters, invoices), year);
    LiftIsMax(counters, invoices, year);
    FollowingHolds(0, top, top);
    FollowingHolds(0, top, lifted);
    hide Series, Lifted, Following;
    assert top in Series(invoices, year) <==> top in multiset(Series(invoices, year));
    assert lifted in Series(invoices, year) <==> lifted in multiset(Series(invoices, year));
  }

  lemma StopStaysGapless(w: World, year: string)
    requires GaplessYear(w, year) && w.process.Some?
    ensures GaplessYear(w.(process := None), year)
  {
    hide Gapless;
    LiftResumesAt(w.store.invoiceCounters, w.store.invoices, year, Top(w, year));
  }
}
