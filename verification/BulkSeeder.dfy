/** The generator's main loop: start-up, then wave after wave, each generated, numbered, flushed and
    followed by the counters, until a wave is refused. */
module BulkSeeder {
  import opened Text
  import opened BulkBook
  import opened BulkGenerator
  import opened InvoiceSeries
  import opened BulkFlush
  import opened BulkChecks
  import opened BulkKeys
  import opened BulkPhones
  import opened BulkGaps
  import BulkRun

  /** A wave's size and the dates it draws from. */
  datatype Planned = Planned(customers: nat, from: int, to: int)

  function Total(plan: seq<Planned>): nat {
    if plan == [] then 0 else Total(plan[..|plan| - 1]) + plan[|plan| - 1].customers
  }

  lemma {:induction false} TotalOfPrefix(plan: seq<Planned>, k: nat)
    requires k <= |plan|
    ensures Total(plan[..k]) <= Total(plan)
    ensures k < |plan| ==> Total(plan[..k + 1]) == Total(plan[..k]) + plan[k].customers
  {
    if k < |plan| {
      assert plan[..k + 1][..k] == plan[..k];
      assert plan[..|plan| - 1][..k] == plan[..k];
      TotalOfPrefix(plan[..|plan| - 1], k);
    } else {
      assert plan[..k] == plan;
    }
  }

  class Seeder {
    /** Whether the database checks foreign keys as rows come in. */
    const keysChecked: bool
    /** The stored numbers and counters, and all the rows of the waves written whole. */
    var phones: seq<nat>
    var shipments: seq<nat>
    var invoices: seq<Invoice>
    var savedShipmentCounter: nat
    var savedInvoiceCounters: Counters
    ghost var tables: Book
    /** The process. */
    var running: bool
    var phoneCounter: nat
    var shipmentSeq: nat
    var invoiceSeqByFy: Counters
    var pool: seq<Id>
    var nextId: Id

    ghost function Saved(): BulkRun.Store
      reads this
    {
      BulkRun.Store(keysChecked, phones, shipments, invoices, savedShipmentCounter, savedInvoiceCounters)
    }

    ghost function World(): BulkRun.World
      reads this
    {
      BulkRun.World(Saved(), if running then Some(BulkRun.Process(phoneCounter, shipmentSeq, invoiceSeqByFy)) else None)
    }

    /** The stored rows pass the integrity check, and the next wave's rows will not touch them. */
    ghost predicate Valid()
      reads this
    {
      && TablesAgree(tables, shipmentSeq, nextId)
      && InvoicesOf(tables, invoices)
      && shipments == NumbersOf(tables.shipments)
    }

    /** Reads the counters back, raised to what is stored. */
    constructor (store: BulkRun.Store, nextId: Id, ghost tables: Book)
      requires StatusesAgree(tables) && AllBefore(tables, nextId)
      requires InvoicesOf(tables, store.invoices) && store.shipments == NumbersOf(tables.shipments)
      ensures Valid() && Saved() == store && this.tables == tables
      ensures World() == BulkRun.World(store, Some(BulkRun.StartUp(store)))
      ensures running && pool == []
    {
      keysChecked := store.keysChecked;
      phones, shipments, invoices := store.phones, store.shipments, store.invoices;
      savedShipmentCounter, savedInvoiceCounters := store.shipmentCounter, store.invoiceCounters;
      var process := BulkRun.StartUp(store);
      running := true;
      phoneCounter, shipmentSeq, invoiceSeqByFy := process.phoneCounter, process.shipmentSeq, process.invoiceSeqByFy;
      pool := [];
      this.nextId := nextId;
      this.tables := tables;
      new;
      StoredBelow(store, tables);
      hide StatusesAgree, AllBefore, InvoicesOf;
    }

    /** The rows of a wave, in memory: phones and shipment numbers are those after their counters. */
    method Generate(customerCount: nat, from: int, to: int, now: int)
      returns (made: seq<nat>, numbers: seq<nat>, pending: seq<PendingInvoice>, committed: bool, ghost book: Book)
      requires from <= to && TablesAgree(tables, shipmentSeq, nextId)
      modifies this`pool, this`phoneCounter, this`nextId, this`shipmentSeq
      ensures made == Following(FIRST_PHONE - 1 + old(phoneCounter), customerCount)
      ensures phoneCounter == old(phoneCounter) + customerCount
      ensures numbers == Following(old(shipmentSeq), |book.orders|) && shipmentSeq == old(shipmentSeq) + |book.orders|
      ensures numbers == NumbersOf(book.shipments) && pending == book.pending && committed == Committed(book)
      ensures |book.customers| == customerCount && BulkRun.Generated(BulkRun.WaveOf(book))
      ensures pool == old(pool) + IdsInOrder(book.customers)
      ensures TablesAgree(tables, shipmentSeq, nextId) && TablesAgree(Merged(tables, book), shipmentSeq, nextId)
    {
      hide Coherent, StatusesAgree, IdsFrom, TablesAgree, Merged, BulkRun.Generated;
      hide OwnersOf, Following, Asked, InWindow, IdsInOrder;
      ghost var earlier, first := (set id | id in pool), nextId;
      var rows := new Wave(shipmentSeq, phoneCounter, nextId);
      ghost var chains, owners := rows.GenerateWave(customerCount, pool, from, to, now, earlier);
      book := rows.Rows();
      WaveJoinsTables(tables, book, earlier, chains, shipmentSeq, first, rows.nextId);
      StillAgree(tables, shipmentSeq, first, rows.shipmentSeq, rows.nextId);
      var ids;
      ids, made := CustomerLists(rows.customers);
      PhonesFollow(made, FIRST_PHONE - 1 + phoneCounter);
      numbers := SequenceNumbers(rows.shipments);
      ShipmentsFollow(book, numbers, earlier, chains, shipmentSeq, rows.nextId);
      BulkRun.CoherentIsGenerated(book, earlier, chains, shipmentSeq, rows.nextId);
      pending := rows.pending;
      committed := exists q | q in rows.quotes :: q.selectedOption.Some? || q.order.Some?;
      pool, phoneCounter, nextId, shipmentSeq := pool + ids, rows.phoneCounter, rows.nextId, rows.shipmentSeq;
    }

    /** The customers are written first. A batch with a stored phone is refused, and the process with it;
        other batches sent with that one may still land. */
    method InsertCustomers(made: seq<nat>) returns (accepted: bool, ghost landed: seq<nat>)
      modifies this`phones
      ensures accepted <==> BulkRun.PhonesAccepted(old(phones), made)
      ensures phones == old(phones) + landed
      ensures BulkRun.LeftOf(made, landed) && BulkRun.PhonesAccepted(old(phones), landed)
      ensures accepted ==> landed == made
    {
      hide Sent, Joined, Surviving, Grouped;
      var stored := phones;
      var groups := FlushCollection(made);
      NothingJoined<nat>({});
      for g := 0 to |groups|
        invariant phones == stored + Sent(groups[..g])
        invariant BulkRun.PhonesAccepted(stored, Sent(groups[..g]))
      {
        SentAround(groups, g);
        var batches := groups[g].batches;
        var clear := set b | 0 <= b < |batches| && BulkRun.PhonesAccepted(stored, batches[b]);
        if b :| 0 <= b < |batches| && !BulkRun.PhonesAccepted(stored, batches[b]) {
          RefusedBatch(groups, g, b, stored);
          assert {} <= clear;
          var kept: set<nat> :| kept <= clear;
          var some := Joined(Surviving(batches, kept));
          ClearBatchesLand(batches, kept, stored);
          phones := phones + some;
          landed := Sent(groups[..g]) + some;
          assert landed == Interrupted(groups, g, kept);
          return false, landed;
        }
        AllClear(batches, stored);
        phones := phones + Joined(batches);
      }
      assert groups[..|groups|] == groups;
      BulkRun.WholeIsLeft(made);
      return true, made;
    }

    /** The flush of the other collections, and the counters after it. */
    method Save(numbers: seq<nat>, numbered: seq<Invoice>)
      modifies this`shipments, this`invoices, this`savedInvoiceCounters, this`savedShipmentCounter
      ensures shipments == old(shipments) + numbers && invoices == old(invoices) + numbered
      ensures savedInvoiceCounters == invoiceSeqByFy && savedShipmentCounter == shipmentSeq
    {
      hide Sent, Grouped, Bounded;
      var shipmentGroups := FlushCollection(numbers);
      shipments := shipments + Sent(shipmentGroups);
      var invoiceGroups := FlushCollection(numbered);
      invoices := invoices + Sent(invoiceGroups);
      savedShipmentCounter := shipmentSeq;
      savedInvoiceCounters := invoiceSeqByFy;
    }

    /** The customers, then the quotes, and only when these were accepted everything else. A quote that
        names an option or an order names one not written yet. */
    method Flush(made: seq<nat>, numbers: seq<nat>, numbered: seq<Invoice>, committed: bool, ghost book: Book)
      returns (ghost landed: seq<nat>)
      requires running && Valid() && TablesAgree(Merged(tables, book), shipmentSeq, nextId)
      requires InvoicesOf(book, numbered) && numbers == NumbersOf(book.shipments)
      modifies this`running, this`phones, this`shipments, this`invoices
      modifies this`savedInvoiceCounters, this`savedShipmentCounter, this`tables
      ensures Valid()
      ensures running <==> BulkRun.PhonesAccepted(old(phones), made) && (keysChecked ==> !committed)
      ensures running ==>
                Saved() == BulkRun.Grown(old(Saved()), BulkRun.Rows(made, numbers, numbered), shipmentSeq,
                                         invoiceSeqByFy)
      ensures !running ==> Saved() == old(Saved()).(phones := old(phones) + landed)
      ensures BulkRun.LeftOf(made, landed) && BulkRun.PhonesAccepted(old(phones), landed)
    {
      hide TablesAgree, Merged, InvoicesOf, NumbersOf, BulkRun.LeftOf, BulkRun.PhonesAccepted;
      running, landed := InsertCustomers(made);
      if keysChecked && committed {
        running := false;
      }
      if running {
        MergedInvoicesOf(tables, invoices, book, numbered);
        NumbersOfMerged(tables, book);
        Save(numbers, numbered);
        tables := Merged(tables, book);
      }
    }

    /** One wave is one step of the run: whole when the database takes its phones and its quotes, else a
        crash that stores no shipment and no invoice. */
    method RunWave(yearOf: int -> string, customerCount: nat, from: int, to: int, now: int)
      returns (ghost wave: BulkRun.Wave, ghost landed: BulkRun.Landed)
      requires running && Valid() && from <= to
      modifies this
      ensures Valid() && wave.customers == customerCount && BulkRun.Generated(wave)
      ensures running <==> RangeFree(old(phones), old(phoneCounter), customerCount) && (keysChecked ==> !wave.committed)
      ensures running ==> BulkRun.Next(yearOf, old(World()), BulkRun.WholeWave(wave), World())
      ensures running ==>
                && phones == old(phones) + Following(FIRST_PHONE - 1 + old(phoneCounter), customerCount)
                && phoneCounter == old(phoneCounter) + customerCount
      ensures !running ==> BulkRun.Next(yearOf, old(World()), BulkRun.CrashIn(wave, landed), World())
      ensures !running ==> landed.rows.invoices == [] && Saved() == old(Saved()).(phones := phones)
    {
      hide TablesAgree, Numbered, CountersAfter, SortByDate, Following, Merged, InvoicesOf, NumbersOf, Committed;
      hide BulkRun.LeftOf, BulkRun.PhonesAccepted, RangeFree, CounterOf, BulkRun.Next, BulkRun.Generated;
      ghost var before := World();
      var made, numbers, pending, committed, book := Generate(customerCount, from, to, now);
      var counters := new WaveCounters(invoiceSeqByFy);
      var numbered := counters.NumberInvoices(yearOf, pending);
      NumberedInvoicesOf(yearOf, invoiceSeqByFy, book);
      invoiceSeqByFy := counters.invoiceSeqByFy;
      wave := BulkRun.WaveOf(book);
      AcceptedWhenFree(phones, old(phoneCounter), customerCount);
      ghost var some := Flush(made, numbers, numbered, committed, book);
      landed := BulkRun.Landed(BulkRun.Rows(some, [], []), savedShipmentCounter, savedInvoiceCounters);
      if running {
        WholeWaveIsStep(yearOf, before, wave, World());
      } else {
        RefusedWaveIsStep(yearOf, before, wave, some, World());
      }
    }

    /** For any plan of waves: the run goes through exactly when no phone stored before it lies in the
        range the plan takes up and, where foreign keys are checked, no wave has a committed quote; then
        no order at all is stored. Either way no number is stored or printed twice, every year that was
        1..counter still is, the rows pass the integrity check, and after one whole wave so do all
        numbers and saved counters. */
    method Run(yearOf: int -> string, plan: seq<Planned>, now: int, ghost years: seq<string>)
      returns (done: nat, ghost waves: seq<BulkRun.Wave>)
      requires running && Valid()
      requires forall k | 0 <= k < |plan| :: plan[k].from <= plan[k].to
      requires BulkRun.NeverReissued(World()) && PrintsPlainly(yearOf) && PlainYears(invoices)
      requires forall year | year in years :: BulkRun.GaplessYear(World(), year)
      modifies this
      ensures running <==> RangeFree(old(phones), old(phoneCounter), Total(plan)) && KeysHold(keysChecked, waves)
      ensures done <= |plan| && (running <==> done == |plan|) && |waves| == done + if running then 0 else 1
      ensures keysChecked ==> shipments == old(shipments) && invoices == old(invoices)
      ensures Valid() && BulkRun.NeverReissued(World())
      ensures forall year | year in years :: BulkRun.GaplessYear(World(), year)
      ensures done > 0 ==> NumbersPass(Saved(), years) && PrintedApart(invoices)
    {
      hide BulkRun.NeverReissued, BulkRun.GaplessYear, BulkRun.Next, TablesAgree, InvoicesOf, NumbersPass, RangeFree;
      hide Following, Total, KeysHold, PlainYears, PrintedApart, PrintsPlainly, BulkRun.Generated;
      done, waves := 0, [];
      NothingPlanned(phones, phoneCounter, plan);
      NoKeysHold(keysChecked);
      while done < |plan|
        invariant done <= |plan| && running && Valid() && BulkRun.NeverReissued(World())
        invariant forall year | year in years :: BulkRun.GaplessYear(World(), year)
        invariant PlainYears(invoices) && (done > 0 ==> NumbersPass(Saved(), years) && PrintedApart(invoices))
        invariant phoneCounter == old(phoneCounter) + Total(plan[..done])
        invariant phones == old(phones) + Following(FIRST_PHONE - 1 + old(phoneCounter), Total(plan[..done]))
        invariant RangeFree(old(phones), old(phoneCounter), Total(plan[..done]))
        invariant |waves| == done && KeysHold(keysChecked, waves)
        invariant keysChecked ==> shipments == old(shipments) && invoices == old(invoices)
      {
        ghost var before := World();
        TotalOfPrefix(plan, done);
        TotalOfPrefix(plan, done + 1);
        FreeStepByStep(old(phones), old(phoneCounter), Total(plan[..done]), plan[done].customers);
        ghost var wave, landed := RunWave(yearOf, plan[done].customers, plan[done].from, plan[done].to, now);
        KeysHoldNext(keysChecked, waves, wave);
        waves := waves + [wave];
        if !running {
          RefusedKeeps(yearOf, before, wave, landed, World(), years);
          SamePass(before.store, World().store, years);
          RefusedForGood(old(phones), old(phoneCounter), Total(plan[..done + 1]), Total(plan));
          return;
        }
        WholeKeeps(yearOf, before, wave, World(), years);
        if keysChecked {
          KeyedStepStoresNoOrder(yearOf, before, BulkRun.WholeWave(wave), World());
        }
        FollowingOfConcat(FIRST_PHONE - 1 + old(phoneCounter), Total(plan[..done]), plan[done].customers);
        done := done + 1;
      }
      assert plan[..done] == plan;
    }
  }

  // ---------------------------------------------------------------------------------------------
  // Start-up and the rows of a wave
  // ---------------------------------------------------------------------------------------------

  function NumbersOf(shipments: seq<Shipment>): seq<nat> {
    seq(|shipments|, i requires 0 <= i < |shipments| => shipments[i].sequenceNumber)
  }

  lemma NumbersOfMerged(all: Book, b: Book)
    ensures NumbersOf(Merged(all, b).shipments) == NumbersOf(all.shipments) + NumbersOf(b.shipments)
  {
  }

  lemma StoredBelow(store: BulkRun.Store, tables: Book)
    requires store.shipments == NumbersOf(tables.shipments)
    ensures forall s | s in tables.shipments :: s.sequenceNumber <= BulkRun.StartUp(store).shipmentSeq
  {
    BulkRun.HighestCovers(store.shipments);
    forall s | s in tables.shipments
      ensures s.sequenceNumber <= BulkRun.StartUp(store).shipmentSeq
    {
      var i :| 0 <= i < |tables.shipments| && tables.shipments[i] == s;
      assert store.shipments[i] in store.shipments;
    }
  }

  lemma StillAgree(tables: Book, sequence: nat, next: Id, sequence': nat, next': Id)
    requires TablesAgree(tables, sequence, next) && sequence <= sequence' && next <= next'
    ensures TablesAgree(tables, sequence', next')
  {
    hide StatusesAgree;
  }

  function IdsInOrder(customers: seq<Customer>): seq<Id> {
    seq(|customers|, i requires 0 <= i < |customers| => customers[i].id)
  }

  method CustomerLists(customers: seq<Customer>) returns (ids: seq<Id>, phones: seq<nat>)
    ensures ids == IdsInOrder(customers) && |phones| == |customers|
    ensures forall i | 0 <= i < |customers| :: phones[i] == customers[i].phone
  {
    ids, phones := [], [];
    for i := 0 to |customers|
      invariant |ids| == |phones| == i
      invariant forall k | 0 <= k < i :: ids[k] == customers[k].id && phones[k] == customers[k].phone
    {
      ids, phones := ids + [customers[i].id], phones + [customers[i].phone];
    }
  }

  lemma PhonesFollow(phones: seq<nat>, from: nat)
    requires forall i | 0 <= i < |phones| :: phones[i] == from + 1 + i
    ensures phones == Following(from, |phones|)
  {
    FollowingHolds(from, |phones|, 0);
    forall i | 0 <= i < |phones|
      ensures phones[i] == Following(from, |phones|)[i]
    {
      FollowingAt(from, |phones|, i);
    }
    hide Following;
  }

  method SequenceNumbers(shipments: seq<Shipment>) returns (numbers: seq<nat>)
    ensures |numbers| == |shipments| && forall i | 0 <= i < |shipments| :: numbers[i] == shipments[i].sequenceNumber
  {
    numbers := [];
    for i := 0 to |shipments|
      invariant |numbers| == i && forall k | 0 <= k < i :: numbers[k] == shipments[k].sequenceNumber
    {
      numbers := numbers + [shipments[i].sequenceNumber];
    }
  }

  lemma ShipmentsFollow(b: Book, numbers: seq<nat>, earlier: set<Id>, chains: seq<seq<TrackingEvent>>,
                        firstSequence: nat, next: Id)
    requires Coherent(b, earlier, chains, firstSequence, next)
    requires |numbers| == |b.shipments| && forall i | 0 <= i < |numbers| :: numbers[i] == b.shipments[i].sequenceNumber
    ensures numbers == Following(firstSequence, |b.orders|)
  {
    hide ChainCoherent, Flatten;
    FollowingHolds(firstSequence, |b.orders|, 0);
    forall i | 0 <= i < |numbers|
      ensures numbers[i] == Following(firstSequence, |b.orders|)[i]
    {
      assert OrderCoherent(b, earlier + CustomerIds(b), chains, firstSequence, i);
      FollowingAt(firstSequence, |b.orders|, i);
    }
  }

  // ---------------------------------------------------------------------------------------------
  // Inserting customers
  // ---------------------------------------------------------------------------------------------

  lemma AllClear(batches: seq<seq<nat>>, stored: seq<nat>)
    requires forall b | 0 <= b < |batches| :: BulkRun.PhonesAccepted(stored, batches[b])
    ensures BulkRun.PhonesAccepted(stored, Joined(batches))
  {
    forall n | n in Joined(batches)
      ensures n !in stored
    {
      JoinedRow(batches, n);
    }
    hide Joined;
  }

  lemma ClearBatchesLand(batches: seq<seq<nat>>, kept: set<nat>, stored: seq<nat>)
    requires forall b | b in kept && b < |batches| :: BulkRun.PhonesAccepted(stored, batches[b])
    ensures BulkRun.PhonesAccepted(stored, Joined(Surviving(batches, kept)))
  {
    forall n | n in Joined(Surviving(batches, kept))
      ensures n !in stored
    {
      var b := SurvivingRow(batches, kept, n);
    }
    hide Joined, Surviving;
  }

  lemma RefusedBatch(groups: seq<Group<nat>>, g: nat, b: nat, stored: seq<nat>)
    requires g < |groups| && b < |groups[g].batches| && !BulkRun.PhonesAccepted(stored, groups[g].batches[b])
    ensures !BulkRun.PhonesAccepted(stored, Sent(groups))
  {
    var n :| n in groups[g].batches[b] && n in stored;
    JoinedRow(groups[g].batches, n);
    SentAround(groups, g);
    hide Joined, Sent;
    assert n in Sent(groups);
  }

  // ---------------------------------------------------------------------------------------------
  // The run
  // ---------------------------------------------------------------------------------------------

  lemma WholeWaveIsStep(yearOf: int -> string, w: BulkRun.World, wave: BulkRun.Wave, w': BulkRun.World)
    requires w.process.Some? && BulkRun.Accepts(w.store, BulkRun.RowsOf(yearOf, w.process.value, wave).phones, wave)
    requires var p' := BulkRun.After(yearOf, w.process.value, wave);
             && w'.process == Some(p')
             && w'.store == BulkRun.Grown(w.store, BulkRun.RowsOf(yearOf, w.process.value, wave), p'.shipmentSeq,
                                          p'.invoiceSeqByFy)
    ensures BulkRun.Next(yearOf, w, BulkRun.WholeWave(wave), w')
  {
    hide BulkRun.Accepts, BulkRun.RowsOf, BulkRun.After;
  }

  lemma RefusedWaveIsStep(yearOf: int -> string, w: BulkRun.World, wave: BulkRun.Wave, some: seq<nat>,
                          w': BulkRun.World)
    requires w.process.Some? && BulkRun.LeftOf(BulkRun.RowsOf(yearOf, w.process.value, wave).phones, some)
    requires BulkRun.PhonesAccepted(w.store.phones, some)
    requires w' == BulkRun.World(w.store.(phones := w.store.phones + some), None)
    ensures var landed := BulkRun.Landed(BulkRun.Rows(some, [], []), w.store.shipmentCounter, w.store.invoiceCounters);
            BulkRun.Next(yearOf, w, BulkRun.CrashIn(wave, landed), w')
  {
    hide BulkRun.PhonesAccepted, BulkRun.RowsOf, BulkRun.LeftOf, CounterOf, BulkRun.After;
    BulkRun.NothingIsLeft(BulkRun.RowsOf(yearOf, w.process.value, wave).shipments);
    BulkRun.NothingIsLeft(BulkRun.RowsOf(yearOf, w.process.value, wave).invoices);
    assert w.store.shipments + [] == w.store.shipments && w.store.invoices + [] == w.store.invoices;
  }

  lemma NothingPlanned(stored: seq<nat>, phoneCounter: nat, plan: seq<Planned>)
    ensures Total(plan[..0]) == 0 && RangeFree(stored, phoneCounter, 0)
    ensures stored + Following(FIRST_PHONE - 1 + phoneCounter, 0) == stored
  {
  }

  lemma RefusedForGood(stored: seq<nat>, phoneCounter: nat, count: nat, more: nat)
    requires count <= more
    ensures !RangeFree(stored, phoneCounter, count) ==> !RangeFree(stored, phoneCounter, more)
  {
    if RangeFree(stored, phoneCounter, more) {
      FreeOfFewer(stored, phoneCounter, count, more);
    }
    hide RangeFree;
  }

  lemma WholeKeeps(yearOf: int -> string, w: BulkRun.World, wave: BulkRun.Wave, w': BulkRun.World, years: seq<string>)
    requires BulkRun.NeverReissued(w) && forall year | year in years :: BulkRun.GaplessYear(w, year)
    requires PrintsPlainly(yearOf) && PlainYears(w.store.invoices)
    requires BulkRun.Next(yearOf, w, BulkRun.WholeWave(wave), w')
    ensures BulkRun.NeverReissued(w') && forall year | year in years :: BulkRun.GaplessYear(w', year)
    ensures NumbersPass(w'.store, years)
    ensures PlainYears(w'.store.invoices) && PrintedApart(w'.store.invoices)
  {
    hide BulkRun.NeverReissued, BulkRun.GaplessYear, BulkRun.Next, NumbersPass, PlainYears, PrintedApart, PrintsPlainly;
    BulkRun.StepKeeps(yearOf, w, BulkRun.WholeWave(wave), w');
    forall year | year in years
      ensures BulkRun.GaplessYear(w', year)
    {
      BulkRun.WholeWaveStaysGapless(yearOf, w, wave, w', year);
    }
    WholeWavePasses(yearOf, w, wave, w', years);
    WholeWavePrintsApart(yearOf, w, wave, w');
  }

  lemma RefusedKeeps(yearOf: int -> string, w: BulkRun.World, wave: BulkRun.Wave, landed: BulkRun.Landed,
                     w': BulkRun.World, years: seq<string>)
    requires BulkRun.NeverReissued(w) && forall year | year in years :: BulkRun.GaplessYear(w, year)
    requires BulkRun.Next(yearOf, w, BulkRun.CrashIn(wave, landed), w') && landed.rows.invoices == []
    ensures BulkRun.NeverReissued(w') && forall year | year in years :: BulkRun.GaplessYear(w', year)
  {
    hide BulkRun.NeverReissued, BulkRun.GaplessYear, BulkRun.Next, BulkRun.Top;
    BulkRun.StepKeeps(yearOf, w, BulkRun.CrashIn(wave, landed), w');
    forall year | year in years
      ensures BulkRun.GaplessYear(w', year)
    {
      NothingLeads(BulkRun.Top(w, year), year);
      CrashGaplessExactly(yearOf, w, wave, landed, w', year);
    }
  }

  lemma SamePass(a: BulkRun.Store, b: BulkRun.Store, years: seq<string>)
    requires b == a.(phones := b.phones)
    ensures NumbersPass(a, years) <==> NumbersPass(b, years)
  {
    hide Series, Gapless, BulkRun.Once;
  }
}
