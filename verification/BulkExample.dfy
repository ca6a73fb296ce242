/** Waves as the generator makes them, on which the flush goes wrong: every owner accepts every quote
    and every order is billed. */
module BulkExample {
  import opened Text
  import opened BulkBook
  import opened InvoiceSeries
  import opened BulkFlush
  import opened BulkRun
  import opened BulkGaps

  // ---------------------------------------------------------------------------------------------
  // Billed waves
  // ---------------------------------------------------------------------------------------------

  /** Identifiers one accepted quote takes up. */
  const STRIDE := 8

  /** An accepted quote with its option, request, order, shipment, number, first scan and invoice. */
  function BilledEntry(id: Id, owner: Id, sequence: nat, date: int): Entry {
    var shipment, number := Shipment(id + 4, id + 3, sequence, PickedUp), TrackingNumber(id + 5, id + 4);
    Entry([RateOption(id + 1, id)],
          Quote(id, owner, Accepted, Some(id + 1), Some(id + 3)),
          Some(PickupRequest(id + 2, id, owner, RequestCompleted, Some(id + 3))),
          None,
          Some(Shipped(Order(id + 3, owner, Confirmed), shipment, number,
                       [TrackingEvent(id + 6, id + 4, id + 5, PickedUp, date)],
                       Some(PendingInvoice(id + 7, id + 3, owner, date)))))
  }

  /** The first `n` quotes of a wave, the `k`-th one its `owners[k]`'s. */
  function BilledBook(customers: seq<Customer>, owners: seq<Id>, n: nat, first: Id, sequence: nat): Book
    requires n <= |owners|
  {
    if n == 0 then EMPTY_BOOK.(customers := customers)
    else
      Posted(BilledBook(customers, owners, n - 1, first, sequence),
             BilledEntry(first + STRIDE * (n - 1), owners[n - 1], sequence + n, n - 1))
  }

  ghost function BilledChains(owners: seq<Id>, n: nat, first: Id, sequence: nat): seq<seq<TrackingEvent>>
    requires n <= |owners|
  {
    if n == 0 then []
    else
      ChainsAfter(BilledChains(owners, n - 1, first, sequence),
                  BilledEntry(first + STRIDE * (n - 1), owners[n - 1], sequence + n, n - 1))
  }

  lemma BilledEntryIsSound(id: Id, owner: Id, sequence: nat, date: int, known: set<Id>)
    requires owner in known
    ensures EntrySound(BilledEntry(id, owner, sequence, date), known, sequence, id, id + STRIDE)
  {
  }

  lemma CustomersAreCoherent(customers: seq<Customer>, earlier: set<Id>, sequence: nat, next: Id)
    requires Rising(customers, CustomerId, 0, next)
    ensures Coherent(EMPTY_BOOK.(customers := customers), earlier, [], sequence, next)
  {
  }

  /** Each owner is a customer of the wave or of an earlier one. */
  ghost predicate OwnersKnown(customers: seq<Customer>, owners: seq<Id>, earlier: set<Id>) {
    forall k | 0 <= k < |owners| :: owners[k] in earlier || exists c | c in customers :: c.id == owners[k]
  }

  lemma OwnerKnown(b: Book, owners: seq<Id>, k: nat, earlier: set<Id>)
    requires OwnersKnown(b.customers, owners, earlier) && k < |owners|
    ensures owners[k] in earlier + CustomerIds(b)
  {
  }

  lemma NothingBilled(customers: seq<Customer>, owners: seq<Id>, earlier: set<Id>, first: Id, sequence: nat)
    requires Rising(customers, CustomerId, 0, first)
    ensures var b := BilledBook(customers, owners, 0, first, sequence);
            && Coherent(b, earlier, BilledChains(owners, 0, first, sequence), sequence, first)
            && b.customers == customers && |b.orders| == |b.pending| == 0
  {
    CustomersAreCoherent(customers, earlier, sequence, first);
    hide Coherent;
  }

  /** Such a wave is one the generator can make, for any customers, owners and counters. */
  lemma {:induction false} BilledBookIsCoherent(customers: seq<Customer>, owners: seq<Id>, n: nat, earlier: set<Id>,
                                                first: Id, sequence: nat)
    requires n <= |owners| && OwnersKnown(customers, owners, earlier)
    requires Rising(customers, CustomerId, 0, first)
    ensures var b := BilledBook(customers, owners, n, first, sequence);
            && Coherent(b, earlier, BilledChains(owners, n, first, sequence), sequence, first + STRIDE * n)
            && b.customers == customers && |b.orders| == |b.pending| == n && (n > 0 ==> Committed(b))
  {
    hide Coherent, EntrySound, BilledBook, BilledChains, OwnersKnown, Rising, Committed, CustomerIds, BilledEntry;
    if n == 0 {
      NothingBilled(customers, owners, earlier, first, sequence);
    } else {
      BilledBookIsCoherent(customers, owners, n - 1, earlier, first, sequence);
      var b, id := BilledBook(customers, owners, n - 1, first, sequence), first + STRIDE * (n - 1);
      OwnerKnown(b, owners, n - 1, earlier);
      BilledEntryIsSound(id, owners[n - 1], sequence + n, n - 1, earlier + CustomerIds(b));
      PostKeepsCoherent(b, BilledEntry(id, owners[n - 1], sequence + n, n - 1), earlier,
                        BilledChains(owners, n - 1, first, sequence), sequence, id, id + STRIDE);
      PostedBilled(customers, owners, n, first, sequence);
    }
  }

  lemma PostedBilled(customers: seq<Customer>, owners: seq<Id>, n: nat, first: Id, sequence: nat)
    requires 0 < n <= |owners|
    ensures var before := BilledBook(customers, owners, n - 1, first, sequence);
            var b := BilledBook(customers, owners, n, first, sequence);
            var entry := BilledEntry(first + STRIDE * (n - 1), owners[n - 1], sequence + n, n - 1);
            && b == Posted(before, entry)
            && BilledChains(owners, n, first, sequence) ==
              ChainsAfter(BilledChains(owners, n - 1, first, sequence), entry)
            && b.customers == before.customers && |b.orders| == |before.orders| + 1
            && |b.pending| == |before.pending| + 1
            && Committed(b)
  {
    var before := BilledBook(customers, owners, n - 1, first, sequence);
    var b := BilledBook(customers, owners, n, first, sequence);
    assert b.quotes[|before.quotes|] in b.quotes;
  }

  // ---------------------------------------------------------------------------------------------
  // The first two waves of a run
  // ---------------------------------------------------------------------------------------------

  const YEAR := "2025-26"

  function AlwaysYear(date: int): string {
    YEAR
  }

  /** The wave that calibrates the run has sixty customers, each later one four hundred and, from the
      pool, up to three returning ones for every five. */
  const CALIBRATION := 60

  const PER_WAVE := 400

  /** Quotes each owner asks for in the second wave. */
  const QUOTES := 3

  const BILLED := QUOTES * (PER_WAVE + CALIBRATION)

  function NewCustomers(count: nat, first: Id, phoneCounter: nat): seq<Customer> {
    seq(count, i requires 0 <= i < count => Customer(first + i, FIRST_PHONE + phoneCounter + i))
  }

  /** Sixty customers with one quote each. */
  function FirstOwners(): seq<Id> {
    seq(CALIBRATION, k requires 0 <= k < CALIBRATION => k)
  }

  function FirstBook(): Book {
    BilledBook(NewCustomers(CALIBRATION, 0, 0), FirstOwners(), CALIBRATION, CALIBRATION, 0)
  }

  /** The identifier the second wave starts from. */
  const SECOND := CALIBRATION + STRIDE * CALIBRATION

  /** Four hundred new customers, then the sixty again, with three quotes each. */
  function SecondOwners(): seq<Id> {
    seq(BILLED, k requires 0 <= k < BILLED =>
      if k / QUOTES < PER_WAVE then SECOND + k / QUOTES else k / QUOTES - PER_WAVE)
  }

  function SecondBook(): Book {
    BilledBook(NewCustomers(PER_WAVE, SECOND, CALIBRATION), SecondOwners(), BILLED, SECOND + PER_WAVE, CALIBRATION)
  }

  ghost predicate GeneratedBook(b: Book, earlier: set<Id>, sequence: nat) {
    exists chains, next :: Coherent(b, earlier, chains, sequence, next)
  }

  lemma FirstBookIsGenerated()
    ensures GeneratedBook(FirstBook(), {}, 0)
    ensures var wave := WaveOf(FirstBook());
            wave.customers == wave.shipments == |wave.pending| == CALIBRATION && wave.committed
  {
    hide Coherent, BilledBook;
    var customers, owners := NewCustomers(CALIBRATION, 0, 0), FirstOwners();
    forall k | 0 <= k < CALIBRATION
      ensures exists c | c in customers :: c.id == owners[k]
    {
      assert customers[k] in customers;
    }
    BilledBookIsCoherent(customers, owners, CALIBRATION, {}, CALIBRATION, 0);
  }

  lemma SecondBookIsGenerated()
    ensures GeneratedBook(SecondBook(), CustomerIds(FirstBook()), CALIBRATION)
    ensures var wave := WaveOf(SecondBook());
            wave.customers == PER_WAVE && wave.shipments == |wave.pending| == BILLED && wave.committed
  {
    hide Coherent, BilledBook;
    var customers, owners := NewCustomers(PER_WAVE, SECOND, CALIBRATION), SecondOwners();
    forall k | 0 <= k < BILLED
      ensures owners[k] in CustomerIds(FirstBook()) || exists c | c in customers :: c.id == owners[k]
    {
      if k / QUOTES < PER_WAVE {
        assert customers[k / QUOTES] in customers;
      } else {
        FirstCustomer(owners[k]);
      }
    }
    BilledBookIsCoherent(customers, owners, BILLED, CustomerIds(FirstBook()), SECOND + PER_WAVE, CALIBRATION);
  }

  lemma FirstCustomer(id: Id)
    requires id < CALIBRATION
    ensures id in CustomerIds(FirstBook())
  {
    FirstBookCustomers();
    hide FirstBook;
    assert FirstBook().customers[id] in FirstBook().customers;
  }

  lemma FirstBookCustomers()
    ensures FirstBook().customers == NewCustomers(CALIBRATION, 0, 0)
  {
    BilledCustomers(NewCustomers(CALIBRATION, 0, 0), FirstOwners(), CALIBRATION, CALIBRATION, 0);
    hide BilledBook;
  }

  lemma {:induction false} BilledCustomers(customers: seq<Customer>, owners: seq<Id>, n: nat, first: Id, sequence: nat)
    requires n <= |owners|
    ensures BilledBook(customers, owners, n, first, sequence).customers == customers
  {
    if n > 0 {
      BilledCustomers(customers, owners, n - 1, first, sequence);
    }
  }

  // ---------------------------------------------------------------------------------------------
  // A gap
  // ---------------------------------------------------------------------------------------------

  /** The invoices of a wave of one year, in number order, and what of them the second batch holds. */
  lemma OneYearWave(w: World, wave: Wave)
    requires w.process.Some?
    ensures var invoices := RowsOf(AlwaysYear, w.process.value, wave).invoices;
            && |invoices| == |wave.pending|
            && Series(invoices, YEAR) == Following(Top(w, YEAR), |invoices|)
            && forall k | 0 <= k < |invoices| :: invoices[k].year == YEAR
  {
    WaveSeries(AlwaysYear, w, wave, YEAR);
    SortKeepsLength(wave.pending);
    hide Series, Numbered, SortByDate, Following;
    SeriesOfOneYear(RowsOf(AlwaysYear, w.process.value, wave).invoices, YEAR);
  }

  lemma SecondBatch(invoices: seq<Invoice>)
    requires BATCH < |invoices| <= 2 * BATCH
    ensures Interrupted(Grouped(invoices), 0, {1}) == invoices[BATCH..]
    ensures LeftOf(invoices, invoices[BATCH..])
  {
    var batches := Grouped(invoices)[0].batches;
    assert |batches| == 2 && batches[1] == invoices[BATCH..|invoices|];
    OneBatchLands(Grouped(invoices), 0, 1);
    assert Grouped(invoices)[..0] == [];
    hide Grouped, Interrupted;
  }

  lemma SecondBatchSeries(invoices: seq<Invoice>, top: nat)
    requires BATCH < |invoices| && Series(invoices, YEAR) == Following(top, |invoices|)
    requires forall k | 0 <= k < |invoices| :: invoices[k].year == YEAR
    ensures Series(invoices[BATCH..], YEAR) == Following(top + BATCH, |invoices| - BATCH)
  {
    hide Series, Following;
    var early, late := invoices[..BATCH], invoices[BATCH..];
    assert early + late == invoices;
    SeriesOfConcat(early, late, YEAR);
    SeriesOfOneYear(early, YEAR);
    SeriesOfOneYear(late, YEAR);
    PartsFollow(top, Series(early, YEAR), Series(late, YEAR));
  }

  /** A wave of one year in two batches may crash with the second one alone: a thousand numbers are
      passed over. */
  lemma LaterBatchAlone(w: World, wave: Wave) returns (landed: Landed, w': World)
    requires w.process.Some? && GaplessYear(w, YEAR)
    requires Accepts(w.store, RowsOf(AlwaysYear, w.process.value, wave).phones, wave)
    requires BATCH < |wave.pending| <= 2 * BATCH
    ensures Next(AlwaysYear, w, CrashIn(wave, landed), w')
    ensures Series(w'.store.invoices, YEAR) ==
            Series(w.store.invoices, YEAR) + Following(Top(w, YEAR) + BATCH, |wave.pending| - BATCH)
    ensures Lost(w', YEAR, Top(w, YEAR) + 1)
  {
    hide RowsOf, LeftOf, Interrupted, Grouped, Series, Following, GaplessYear, Next, Accepts, Top, Lost;
    var top, invoices := Top(w, YEAR), RowsOf(AlwaysYear, w.process.value, wave).invoices;
    OneYearWave(w, wave);
    var some := invoices[BATCH..];
    SecondBatch(invoices);
    SecondBatchSeries(invoices, top);
    landed := CrashAmongInvoices(AlwaysYear, w, wave, some);
    w' := MayCrashAmongInvoices(AlwaysYear, w, wave, some);
    SeriesOfConcat(w.store.invoices, some, YEAR);
    FirstMissing(Series(some, YEAR), top, |invoices| - BATCH);
    PassedOver(w, some, w', YEAR, top + 1, top + BATCH + 1);
  }

  lemma FirstMissing(series: seq<nat>, top: nat, count: nat)
    requires series == Following(top + BATCH, count) && count > 0
    ensures top + 1 !in series && top + BATCH + 1 in series
  {
    FollowingHolds(top + BATCH, count, top + 1);
    FollowingHolds(top + BATCH, count, top + BATCH + 1);
    hide Following;
    assert top + 1 !in multiset(series) && top + BATCH + 1 in multiset(series);
  }

  /** An empty database. */
  function Empty(keysChecked: bool): Store {
    Store(keysChecked, [], [], [], 0, map[])
  }

  function Fresh(keysChecked: bool): World {
    World(Empty(keysChecked), Some(Process(0, 0, map[])))
  }

  lemma FreshStarts(keysChecked: bool)
    ensures Next(AlwaysYear, World(Empty(keysChecked), None), Start, Fresh(keysChecked))
    ensures GaplessYear(Fresh(keysChecked), YEAR) && Top(Fresh(keysChecked), YEAR) == 0
  {
    SeriesEmpty([], YEAR);
    hide Series;
  }

  /** A whole wave of one year adds the next numbers of the year. */
  lemma WholeOneYearWave(w: World, wave: Wave) returns (w': World)
    requires w.process.Some? && Accepts(w.store, RowsOf(AlwaysYear, w.process.value, wave).phones, wave)
    ensures Next(AlwaysYear, w, WholeWave(wave), w')
    ensures w'.process.Some? && w'.process.value == After(AlwaysYear, w.process.value, wave)
    ensures w'.store.keysChecked == w.store.keysChecked
    ensures w'.store.phones == w.store.phones + RowsOf(AlwaysYear, w.process.value, wave).phones
    ensures Top(w', YEAR) == Top(w, YEAR) + |wave.pending|
    ensures Series(w'.store.invoices, YEAR) == Series(w.store.invoices, YEAR) + Following(Top(w, YEAR), |wave.pending|)
  {
    hide Series, Following, Numbered, CountersAfter, SortByDate, CounterOf, Accepts;
    var p, p' := w.process.value, After(AlwaysYear, w.process.value, wave);
    var rows := RowsOf(AlwaysYear, p, wave);
    w' := World(Grown(w.store, rows, p'.shipmentSeq, p'.invoiceSeqByFy), Some(p'));
    OneYearWave(w, wave);
    FollowingHolds(Top(w, YEAR), |wave.pending|, 0);
    NumbersFollowCounter(AlwaysYear, p.invoiceSeqByFy, SortByDate(wave.pending), YEAR);
    SeriesOfConcat(w.store.invoices, rows.invoices, YEAR);
  }

  /** The first wave is stored whole. */
  lemma FirstWaveStored() returns (w: World)
    ensures Next(AlwaysYear, Fresh(false), WholeWave(WaveOf(FirstBook())), w)
    ensures w.process.Some? && !w.store.keysChecked
    ensures w.process.value.phoneCounter == CALIBRATION && w.store.phones == Following(FIRST_PHONE - 1, CALIBRATION)
    ensures GaplessYear(w, YEAR) && Top(w, YEAR) == CALIBRATION
    ensures Series(w.store.invoices, YEAR) == Following(0, CALIBRATION)
  {
    hide FirstBook, WaveOf, Series, Following, Numbered, CountersAfter, SortByDate, GaplessYear, Top, Next;
    var wave := WaveOf(FirstBook());
    FirstBookIsGenerated();
    FreshStarts(false);
    w := WholeOneYearWave(Fresh(false), wave);
    SeriesEmpty([], YEAR);
    assert [] + Following(0, CALIBRATION) == Following(0, CALIBRATION);
    assert [] + Following(FIRST_PHONE - 1, CALIBRATION) == Following(FIRST_PHONE - 1, CALIBRATION);
    WholeWaveStaysGapless(AlwaysYear, Fresh(false), wave, w, YEAR);
  }

  /** The first two waves of a run on an empty database without key checks: when the second one's later
      batch lands alone, numbers 61 to 1060 of the year are missing, and no later run mends that. */
  lemma SecondWaveLeavesGap() returns (w: World, landed: Landed, w': World)
    ensures GeneratedBook(FirstBook(), {}, 0) && GeneratedBook(SecondBook(), CustomerIds(FirstBook()), CALIBRATION)
    ensures Next(AlwaysYear, World(Empty(false), None), Start, Fresh(false))
    ensures Next(AlwaysYear, Fresh(false), WholeWave(WaveOf(FirstBook())), w)
    ensures Next(AlwaysYear, w, CrashIn(WaveOf(SecondBook()), landed), w')
    ensures Series(w'.store.invoices, YEAR) == Following(0, 60) + Following(1060, 380)
    ensures forall events, w'' | History(AlwaysYear, w', events, w'') :: !GaplessYear(w'', YEAR)
  {
    hide FirstBook, SecondBook, WaveOf, GeneratedBook, Following, Series, GaplessYear, Next, Top, Lost, RowsOf;
    FirstBookIsGenerated();
    SecondBookIsGenerated();
    FreshStarts(false);
    w := FirstWaveStored();
    SecondWaveAccepted(w, WaveOf(SecondBook()));
    landed, w' := LaterBatchAlone(w, WaveOf(SecondBook()));
    forall events, w'' | History(AlwaysYear, w', events, w'')
      ensures !GaplessYear(w'', YEAR)
    {
      LostForGood(AlwaysYear, w', events, w'', YEAR, CALIBRATION + 1);
    }
  }

  lemma SecondWaveAccepted(w: World, wave: Wave)
    requires w.process.Some? && !w.store.keysChecked && wave.customers == PER_WAVE
    requires w.process.value.phoneCounter == CALIBRATION && w.store.phones == Following(FIRST_PHONE - 1, CALIBRATION)
    ensures Accepts(w.store, RowsOf(AlwaysYear, w.process.value, wave).phones, wave)
  {
    hide Numbered, SortByDate, Following;
    forall n: nat | n in RowsOf(AlwaysYear, w.process.value, wave).phones
      ensures n !in w.store.phones
    {
      FollowingHolds(FIRST_PHONE - 1, CALIBRATION, n);
      FollowingHolds(FIRST_PHONE - 1 + CALIBRATION, PER_WAVE, n);
      assert n in multiset(RowsOf(AlwaysYear, w.process.value, wave).phones);
      assert n in w.store.phones ==> n in multiset(w.store.phones);
    }
  }

  // ---------------------------------------------------------------------------------------------
  // A refusal
  // ---------------------------------------------------------------------------------------------

  /** Already the first wave is refused where foreign keys are checked, though every phone is free. */
  lemma FirstWaveRefused(invoices: seq<Invoice>)
    requires InvoicesOf(FirstBook(), invoices)
    ensures GeneratedBook(FirstBook(), {}, 0) && !FlushAccepted(FirstBook(), invoices, {})
    ensures PhonesAccepted(Empty(true).phones,
                           RowsOf(AlwaysYear, Fresh(true).process.value, WaveOf(FirstBook())).phones)
    ensures forall w :: !Next(AlwaysYear, Fresh(true), WholeWave(WaveOf(FirstBook())), w)
  {
    FirstBookIsGenerated();
    hide FirstBook, FlushAccepted, Coherent, InvoicesOf, RowsOf, After;
    var chains, next :| Coherent(FirstBook(), {}, chains, 0, next);
    AcceptedExactlyWhenNothingCommitted(FirstBook(), invoices, {}, chains, 0, next);
  }
}
