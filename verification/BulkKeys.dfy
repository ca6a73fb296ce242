/** Runs against a database that checks its foreign keys as rows come in: nothing that is sold is ever
    stored. */
module BulkKeys {
  import opened Text
  import opened BulkBook
  import opened InvoiceSeries
  import opened BulkFlush
  import opened BulkRun

  /** The wave of the event, if it has one, is one the generator can make. */
  predicate FromGenerator(event: Event) {
    match event
    case WholeWave(wave) => Generated(wave)
    case CrashIn(wave, _) => Generated(wave)
    case _ => true
  }

  lemma NothingSold(yearOf: int -> string, p: Process, wave: Wave)
    requires Generated(wave) && !wave.committed
    ensures RowsOf(yearOf, p, wave).shipments == [] && RowsOf(yearOf, p, wave).invoices == []
  {
    SortKeepsLength(wave.pending);
    hide SortByDate;
  }

  lemma NothingLeft<T(!new)>(some: seq<T>)
    requires LeftOf([], some)
    ensures some == []
  {
    LeftIsPart([], some);
    hide LeftOf;
    assert |multiset(some)| == |some|;
  }

  lemma KeyedStepStoresNoOrder(yearOf: int -> string, w: World, event: Event, w': World)
    requires w.store.keysChecked && FromGenerator(event) && Next(yearOf, w, event, w')
    ensures w'.store.keysChecked
    ensures w'.store.shipments == w.store.shipments && w'.store.invoices == w.store.invoices
  {
    hide RowsOf, After, LeftOf, StartUp;
    match event
    case Start =>
    case Stop =>
    case WholeWave(wave) =>
      NothingSold(yearOf, w.process.value, wave);
    case CrashIn(wave, landed) =>
      if wave.committed {
        RefusedLandsNothing(yearOf, w, wave, landed, w');
      } else {
        NothingSold(yearOf, w.process.value, wave);
        NothingLeft(landed.rows.shipments);
        NothingLeft(landed.rows.invoices);
      }
  }

  /** However runs, crashes and restarts of the generator follow one another, such a database never
      stores a shipment or an invoice. */
  lemma {:induction false} KeyedHistoryStoresNoOrder(yearOf: int -> string, w: World, events: seq<Event>, w': World)
    requires w.store.keysChecked && (forall event | event in events :: FromGenerator(event))
    requires History(yearOf, w, events, w')
    ensures w'.store.shipments == w.store.shipments && w'.store.invoices == w.store.invoices
    decreases events
  {
    hide Next, FromGenerator;
    if events != [] {
      var between :| Next(yearOf, w, events[0], between) && History(yearOf, between, events[1..], w');
      KeyedStepStoresNoOrder(yearOf, w, events[0], between);
      KeyedHistoryStoresNoOrder(yearOf, between, events[1..], w');
    }
  }
}
