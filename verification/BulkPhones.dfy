/** Customers' phone numbers: counted by each process from the same first number, in a unique column. */
module BulkPhones {
  import opened Text
  import opened BulkBook
  import opened InvoiceSeries
  import opened BulkFlush
  import opened BulkRun

  function Whole(waves: seq<Wave>): seq<Event> {
    seq(|waves|, i requires 0 <= i < |waves| => WholeWave(waves[i]))
  }

  function Customers(waves: seq<Wave>): nat {
    if waves == [] then 0 else waves[0].customers + Customers(waves[1..])
  }

  /** No stored phone lies among the next `count` after the counter. */
  ghost predicate RangeFree(stored: seq<nat>, phoneCounter: nat, count: nat) {
    forall phone | phone in stored :: !(FIRST_PHONE + phoneCounter <= phone < FIRST_PHONE + phoneCounter + count)
  }

  lemma AcceptedWhenFree(stored: seq<nat>, phoneCounter: nat, count: nat)
    ensures PhonesAccepted(stored, Following(FIRST_PHONE - 1 + phoneCounter, count)) <==>
            RangeFree(stored, phoneCounter, count)
  {
    var phones := Following(FIRST_PHONE - 1 + phoneCounter, count);
    forall n: nat
      ensures n in phones <==> FIRST_PHONE + phoneCounter <= n < FIRST_PHONE + phoneCounter + count
    {
      FollowingHolds(FIRST_PHONE - 1 + phoneCounter, count, n);
      assert n in phones <==> n in multiset(phones);
    }
    hide Following;
  }

  /** A process's own earlier phones lie before its counter, so only phones stored before count. */
  lemma FreeStepByStep(stored: seq<nat>, phoneCounter: nat, count: nat, rest: nat)
    ensures RangeFree(stored, phoneCounter, count + rest) <==>
            && RangeFree(stored, phoneCounter, count)
            && RangeFree(stored + Following(FIRST_PHONE - 1 + phoneCounter, count), phoneCounter + count, rest)
  {
    var phones := Following(FIRST_PHONE - 1 + phoneCounter, count);
    forall n: nat
      ensures n in phones ==> n < FIRST_PHONE + phoneCounter + count
    {
      FollowingHolds(FIRST_PHONE - 1 + phoneCounter, count, n);
      assert n in phones <==> n in multiset(phones);
    }
    hide Following;
    forall phone
      ensures phone in stored ==> phone in stored + phones
    {
    }
  }

  lemma FreeOfFewer(stored: seq<nat>, phoneCounter: nat, count: nat, more: nat)
    requires RangeFree(stored, phoneCounter, more) && count <= more
    ensures RangeFree(stored, phoneCounter, count)
  {
  }

  ghost predicate CanRun(yearOf: int -> string, w: World, waves: seq<Wave>) {
    exists w' :: History(yearOf, w, Whole(waves), w')
  }

  /** Where a whole wave leads, if its phones are accepted. */
  ghost function WaveDone(yearOf: int -> string, w: World, wave: Wave): World
    requires w.process.Some?
  {
    var p, p' := w.process.value, After(yearOf, w.process.value, wave);
    World(Grown(w.store, RowsOf(yearOf, p, wave), p'.shipmentSeq, p'.invoiceSeqByFy), Some(p'))
  }

  lemma WaveDonePhones(yearOf: int -> string, w: World, wave: Wave)
    requires w.process.Some?
    ensures var p, between := w.process.value, WaveDone(yearOf, w, wave);
            && between.store.keysChecked == w.store.keysChecked
            && between.process.Some? && between.process.value.phoneCounter == p.phoneCounter + wave.customers
            && RowsOf(yearOf, p, wave).phones == Following(FIRST_PHONE - 1 + p.phoneCounter, wave.customers)
            && between.store.phones == w.store.phones + Following(FIRST_PHONE - 1 + p.phoneCounter, wave.customers)
  {
    hide Following, Numbered, CountersAfter, SortByDate;
  }

  lemma CanRunNext(yearOf: int -> string, w: World, waves: seq<Wave>)
    requires w.process.Some? && waves != []
    ensures CanRun(yearOf, w, waves) <==>
            && Accepts(w.store, RowsOf(yearOf, w.process.value, waves[0]).phones, waves[0])
            && CanRun(yearOf, WaveDone(yearOf, w, waves[0]), waves[1..])
  {
    hide RowsOf, After, Accepts;
    var between := WaveDone(yearOf, w, waves[0]);
    assert Whole(waves)[1..] == Whole(waves[1..]);
    if CanRun(yearOf, w, waves) {
      var w' :| History(yearOf, w, Whole(waves), w');
      var next :| Next(yearOf, w, Whole(waves)[0], next) && History(yearOf, next, Whole(waves)[1..], w');
      assert next == between;
    }
    if Accepts(w.store, RowsOf(yearOf, w.process.value, waves[0]).phones, waves[0])
      && CanRun(yearOf, between, waves[1..]) {
      var w' :| History(yearOf, between, Whole(waves[1..]), w');
      assert Next(yearOf, w, Whole(waves)[0], between);
      assert History(yearOf, w, Whole(waves), w');
    }
  }

  lemma NoWavesRun(yearOf: int -> string, w: World)
    ensures CanRun(yearOf, w, [])
  {
    assert History(yearOf, w, Whole([]), w);
  }

  lemma KeysHoldNext(keysChecked: bool, waves: seq<Wave>, wave: Wave)
    ensures KeysHold(keysChecked, waves + [wave]) <==> KeysHold(keysChecked, waves) && (keysChecked ==> !wave.committed)
  {
  }

  lemma NoKeysHold(keysChecked: bool)
    ensures KeysHold(keysChecked, [])
  {
  }

  lemma NoPhonesFree(stored: seq<nat>, phoneCounter: nat)
    ensures RangeFree(stored, phoneCounter, 0)
  {
  }

  /** No wave has a quote that points forward, if the database looks. */
  ghost predicate KeysHold(keysChecked: bool, waves: seq<Wave>) {
    keysChecked ==> forall wave | wave in waves :: !wave.committed
  }

  lemma KeysHoldStepByStep(keysChecked: bool, waves: seq<Wave>)
    requires waves != []
    ensures KeysHold(keysChecked, waves) <==> (keysChecked ==> !waves[0].committed) && KeysHold(keysChecked, waves[1..])
  {
    assert waves == [waves[0]] + waves[1..];
  }

  /** All the waves of one process are accepted exactly when no phone stored before them lies in the
      range they take up together, and, where foreign keys are checked, nothing is committed to. */
  lemma {:induction false} ProcessAcceptedExactly(yearOf: int -> string, w: World, waves: seq<Wave>)
    requires w.process.Some?
    ensures CanRun(yearOf, w, waves) <==>
            && RangeFree(w.store.phones, w.process.value.phoneCounter, Customers(waves))
            && KeysHold(w.store.keysChecked, waves)
    decreases |waves|
  {
    hide RangeFree, PhonesAccepted, CanRun, Following, WaveDone, RowsOf, KeysHold;
    if waves == [] {
      NoWavesRun(yearOf, w);
      NoPhonesFree(w.store.phones, w.process.value.phoneCounter);
      NoKeysHold(w.store.keysChecked);
    } else {
      var p, wave, rest := w.process.value, waves[0], waves[1..];
      WaveDonePhones(yearOf, w, wave);
      AcceptedWhenFree(w.store.phones, p.phoneCounter, wave.customers);
      FreeStepByStep(w.store.phones, p.phoneCounter, wave.customers, Customers(rest));
      KeysHoldStepByStep(w.store.keysChecked, waves);
      ProcessAcceptedExactly(yearOf, WaveDone(yearOf, w, wave), rest);
      CanRunNext(yearOf, w, waves);
    }
  }

  // ---------------------------------------------------------------------------------------------
  // A second run
  // ---------------------------------------------------------------------------------------------

  /** A process that has made a customer has stored the first phone. */
  ghost predicate FirstTaken(w: World) {
    w.process.Some? && w.process.value.phoneCounter > 0 ==> FIRST_PHONE in w.store.phones
  }

  lemma FirstPhoneMade(phoneCounter: nat, count: nat)
    requires phoneCounter == 0 && count > 0
    ensures FIRST_PHONE in Following(FIRST_PHONE - 1 + phoneCounter, count)
  {
    FollowingHolds(FIRST_PHONE - 1, count, FIRST_PHONE);
    hide Following;
    assert FIRST_PHONE in multiset(Following(FIRST_PHONE - 1 + phoneCounter, count));
  }

  lemma StepKeepsFirst(yearOf: int -> string, w: World, event: Event, w': World)
    requires FirstTaken(w) && Next(yearOf, w, event, w')
    ensures FirstTaken(w')
    ensures FIRST_PHONE in w.store.phones ==> FIRST_PHONE in w'.store.phones
    ensures event.WholeWave? && event.wave.customers > 0 ==> FIRST_PHONE in w'.store.phones
  {
    hide MayLand, Following, Numbered, CountersAfter, SortByDate, PhonesAccepted, Lifted, HighestShipment;
    if event.WholeWave? && event.wave.customers > 0 && w.process.value.phoneCounter == 0 {
      FirstPhoneMade(0, event.wave.customers);
    }
  }

  lemma {:induction false} HistoryKeepsFirst(yearOf: int -> string, w: World, events: seq<Event>, w': World)
    requires FirstTaken(w) && History(yearOf, w, events, w')
    ensures FirstTaken(w')
    ensures FIRST_PHONE in w.store.phones ==> FIRST_PHONE in w'.store.phones
    decreases events
  {
    hide FirstTaken, Next;
    if events != [] {
      var between :| Next(yearOf, w, events[0], between) && History(yearOf, between, events[1..], w');
      StepKeepsFirst(yearOf, w, events[0], between);
      HistoryKeepsFirst(yearOf, between, events[1..], w');
    }
  }

  /** Nothing of a wave is stored but customers, and not even these when they fit one batch. */
  ghost predicate NothingStored(before: Store, wave: Wave, after: Store) {
    && after.shipments == before.shipments && after.invoices == before.invoices
    && after.shipmentCounter == before.shipmentCounter
    && (forall year :: CounterOf(after.invoiceCounters, year) == CounterOf(before.invoiceCounters, year))
    && (wave.customers <= BATCH ==> after.phones == before.phones)
  }

  lemma RefusedWave(yearOf: int -> string, w: World, wave: Wave, landed: Landed, w': World)
    requires Next(yearOf, w, CrashIn(wave, landed), w')
    requires !PhonesAccepted(w.store.phones, RowsOf(yearOf, w.process.value, wave).phones)
    ensures NothingStored(w.store, wave, w'.store)
  {
    hide LeftOf, CounterOf, PhonesAccepted;
    var phones := RowsOf(yearOf, w.process.value, wave).phones;
    FollowingHolds(FIRST_PHONE - 1 + w.process.value.phoneCounter, wave.customers, 0);
    hide Following;
    RefusedLandsNothing(yearOf, w, wave, landed, w');
    if wave.customers <= BATCH {
      RefusedBatchLandsNothing(w.store.phones, phones, landed.rows.phones);
    }
  }

  /** Once any whole wave has made a customer, then whatever happens between, a process that has not
      made one yet cannot complete a wave that makes any: the database refuses it, and nothing of it is
      stored but customers. */
  lemma SecondRunRefused(yearOf: int -> string, w: World, wave: Wave, w1: World, events: seq<Event>, w2: World,
                         later: Wave)
    requires FirstTaken(w) && wave.customers > 0 && Next(yearOf, w, WholeWave(wave), w1)
    requires History(yearOf, w1, events, w2)
    requires w2.process.Some? && w2.process.value.phoneCounter == 0 && later.customers > 0
    ensures forall w3 :: !Next(yearOf, w2, WholeWave(later), w3)
    ensures forall landed, w3 | Next(yearOf, w2, CrashIn(later, landed), w3) :: NothingStored(w2.store, later, w3.store)
  {
    hide History, FirstTaken, Following, Numbered, SortByDate, MayLand, NothingStored, CountersAfter;
    StepKeepsFirst(yearOf, w, WholeWave(wave), w1);
    HistoryKeepsFirst(yearOf, w1, events, w2);
    FirstPhoneMade(0, later.customers);
    assert !PhonesAccepted(w2.store.phones, RowsOf(yearOf, w2.process.value, later).phones);
    forall landed, w3 | Next(yearOf, w2, CrashIn(later, landed), w3)
      ensures NothingStored(w2.store, later, w3.store)
    {
      RefusedWave(yearOf, w2, later, landed, w3);
    }
  }

  lemma RefusedBatchLandsNothing(stored: seq<nat>, phones: seq<nat>, some: seq<nat>)
    requires |phones| <= BATCH && LeftOf(phones, some)
    requires !PhonesAccepted(stored, phones) && PhonesAccepted(stored, some)
    ensures some == []
  {
    var awaited, kept :| some == Interrupted(Grouped(phones), awaited, kept);
    SmallWriteIsAtomic(phones, awaited, kept);
  }
}
