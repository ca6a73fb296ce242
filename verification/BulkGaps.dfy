/** When a crash leaves a gap in a financial year's invoice series: decided before the wave is flushed,
    from the years of its invoices in date order. */
module BulkGaps {
  import opened Text
  import opened BulkBook
  import opened InvoiceSeries
  import opened BulkFlush
  import opened BulkRun

  // ---------------------------------------------------------------------------------------------
  // One collection
  // ---------------------------------------------------------------------------------------------

  /** In some order, the numbers right after `top`. */
  ghost predicate Leading(series: seq<nat>, top: nat) {
    multiset(series) == multiset(Following(top, |series|))
  }

  /** Two of the batches sent together hold invoices of the year. */
  ghost predicate Splits(g: Group<Invoice>, year: string) {
    exists a, b | 0 <= a < b < |g.batches| :: Series(g.batches[a], year) != [] && Series(g.batches[b], year) != []
  }

  lemma {:induction false} NothingOfYear(batches: seq<seq<Invoice>>, year: string)
    requires forall b | 0 <= b < |batches| :: Series(batches[b], year) == []
    ensures Series(Joined(batches), year) == []
  {
    if batches != [] {
      var init, last := batches[..|batches| - 1], batches[|batches| - 1];
      NothingOfYear(init, year);
      SeriesOfConcat(Joined(init), last, year);
    }
    hide Series;
  }

  lemma OneMoreBatch(init: seq<seq<Invoice>>, last: seq<Invoice>, kept: set<nat>, year: string)
    requires Series(Joined(Surviving(init, kept)), year) in {[], Series(Joined(init), year)}
    requires Series(last, year) == [] || Series(Joined(init), year) == []
    ensures Series(Joined(Surviving(init + [last], kept)), year) in {[], Series(Joined(init + [last]), year)}
  {
    hide Series, Joined, Surviving;
    SurvivingOfAppend(init, last, kept);
    JoinedOfAppend(init, last);
    SeriesOfConcat(Joined(init), last, year);
    var survivors := Surviving(init, kept);
    if |init| in kept {
      JoinedOfAppend(survivors, last);
      SeriesOfConcat(Joined(survivors), last, year);
    } else {
      assert survivors + [] == survivors;
    }
    var all, some, own := Series(Joined(init), year), Series(Joined(survivors), year), Series(last, year);
    assert all + [] == all && some + [] == some && [] + own == own;
  }

  /** When only one of its batches holds the year, a group in flight leaves all of the year or none. */
  lemma {:induction false} UnsplitIsAtomic(batches: seq<seq<Invoice>>, kept: set<nat>, year: string)
    requires !Splits(Group(batches), year)
    ensures Series(Joined(Surviving(batches, kept)), year) in {[], Series(Joined(batches), year)}
  {
    if batches != [] {
      hide Series, Joined, Surviving, Splits;
      var init, last := batches[..|batches| - 1], batches[|batches| - 1];
      UnsplitWithoutLast(batches, year);
      UnsplitIsAtomic(init, kept, year);
      if Series(last, year) != [] {
        UnsplitAlone(batches, year);
        NothingOfYear(init, year);
      }
      OneMoreBatch(init, last, kept, year);
      assert batches == init + [last];
    }
  }

  lemma UnsplitWithoutLast(batches: seq<seq<Invoice>>, year: string)
    requires batches != [] && !Splits(Group(batches), year)
    ensures !Splits(Group(batches[..|batches| - 1]), year)
  {
    hide Series;
  }

  lemma UnsplitAlone(batches: seq<seq<Invoice>>, year: string)
    requires batches != [] && !Splits(Group(batches), year) && Series(batches[|batches| - 1], year) != []
    ensures var init := batches[..|batches| - 1]; forall b | 0 <= b < |init| :: Series(init[b], year) == []
  {
    hide Series;
  }

  lemma UnsplitLeads(groups: seq<Group<Invoice>>, awaited: nat, kept: set<nat>, top: nat, year: string)
    requires Series(Sent(groups), year) == Following(top, |Series(Sent(groups), year)|)
    requires forall g | 0 <= g < |groups| :: !Splits(groups[g], year)
    ensures Leading(Series(Interrupted(groups, awaited, kept), year), top)
  {
    hide Series, Splits, Following;
    if awaited < |groups| {
      var before, batches, after := Sent(groups[..awaited]), groups[awaited].batches, Sent(groups[awaited + 1..]);
      var landed := Joined(Surviving(batches, kept));
      SentAround(groups, awaited);
      assert groups[awaited] == Group(batches);
      UnsplitIsAtomic(batches, kept, year);
      SeriesOfConcat(before, Joined(batches), year);
      SeriesOfConcat(before + Joined(batches), after, year);
      SeriesOfConcat(before, landed, year);
      hide Sent, Joined, Surviving;
      BeginningsLead(top, Series(before, year), Series(Joined(batches), year), Series(after, year));
    }
  }

  lemma BeginningsLead(top: nat, a: seq<nat>, b: seq<nat>, c: seq<nat>)
    requires a + b + c == Following(top, |a + b + c|)
    ensures Leading(a + [], top) && Leading(a + b, top)
  {
    hide Following;
    assert a + [] == a;
    assert [] + a + (b + c) == a + b + c == [] + (a + b) + c;
    StretchFollows(top, |a + b + c|, [], a, b + c);
    StretchFollows(top, |a + b + c|, [], a + b, c);
  }

  /** A later batch that lands without an earlier one starts past the first missing number. */
  lemma LateBatchDoesNotLead(top: nat, before: seq<nat>, missing: seq<nat>, late: seq<nat>, after: seq<nat>)
    requires before + missing + late + after == Following(top, |before + missing + late + after|)
    requires missing != [] && late != []
    ensures var lost := top + |before| + 1; !Leading(before + late, top) && lost !in before + late && lost < late[0]
  {
    hide Following;
    var all, series := before + missing + late + after, before + late;
    var lost := top + |before| + 1;
    FollowingAt(top, |all|, |before| + |missing|);
    assert all[|before| + |missing|] == late[0];
    forall i | 0 <= i < |series|
      ensures series[i] != lost
    {
      var k := if i < |before| then i else i + |missing|;
      assert series[i] == all[k];
      FollowingAt(top, |all|, k);
    }
    FollowingHolds(top, |series|, lost);
    assert lost !in multiset(series);
  }

  /** One batch of the group in flight lands, alone. */
  lemma OneBatchLands(groups: seq<Group<Invoice>>, g: nat, b: nat)
    requires g < |groups| && b < |groups[g].batches|
    ensures Interrupted(groups, g, {b}) == Sent(groups[..g]) + groups[g].batches[b]
    ensures Sent(groups) == Sent(groups[..g]) + Joined(groups[g].batches[..b]) + groups[g].batches[b] +
                            (Joined(groups[g].batches[b + 1..]) + Sent(groups[g + 1..]))
  {
    SentAround(groups, g);
    JoinedAround(groups[g].batches, b);
    OnlyKept(groups[g].batches, b);
    hide Sent, Joined, Surviving;
    Regrouped(Sent(groups[..g]), Joined(groups[g].batches[..b]), groups[g].batches[b],
              Joined(groups[g].batches[b + 1..]), Sent(groups[g + 1..]));
  }

  lemma Regrouped<T>(a: seq<T>, b: seq<T>, c: seq<T>, d: seq<T>, e: seq<T>)
    ensures a + (b + c + d) + e == a + b + c + (d + e)
  {
  }

  lemma SeriesOfFour(a: seq<Invoice>, b: seq<Invoice>, c: seq<Invoice>, d: seq<Invoice>, year: string)
    ensures Series(a + b + c + d, year) == Series(a, year) + Series(b, year) + Series(c, year) + Series(d, year)
  {
    SeriesOfConcat(a, b, year);
    SeriesOfConcat(a + b, c, year);
    SeriesOfConcat(a + b + c, d, year);
    hide Series;
  }

  lemma EarlierBatchMissing(batches: seq<seq<Invoice>>, a: nat, b: nat, year: string)
    requires a < b <= |batches| && Series(batches[a], year) != []
    ensures Series(Joined(batches[..b]), year) != []
  {
    var earlier := batches[..b];
    assert earlier[a] == batches[a];
    JoinedAround(earlier, a);
    SeriesOfConcat(Joined(earlier[..a]), earlier[a], year);
    SeriesOfConcat(Joined(earlier[..a]) + earlier[a], Joined(earlier[a + 1..]), year);
    hide Series, Joined;
  }

  /** If a group splits the year, its later batch can land without the earlier one: a number is lost and
      a higher one stored. */
  lemma SplitDoesNotLead(groups: seq<Group<Invoice>>, g: nat, a: nat, b: nat, top: nat, year: string)
    returns (lost: nat, higher: nat)
    requires Series(Sent(groups), year) == Following(top, |Series(Sent(groups), year)|)
    requires g < |groups| && a < b < |groups[g].batches|
    requires Series(groups[g].batches[a], year) != [] && Series(groups[g].batches[b], year) != []
    ensures var series := Series(Interrupted(groups, g, {b}), year);
            !Leading(series, top) && lost !in series && higher in series && top < lost < higher
  {
    hide Series, Following, Leading, Sent, Joined, Surviving, Interrupted;
    var batches := groups[g].batches;
    var before, missing := Sent(groups[..g]), Joined(batches[..b]);
    var after := Joined(batches[b + 1..]) + Sent(groups[g + 1..]);
    OneBatchLands(groups, g, b);
    EarlierBatchMissing(batches, a, b, year);
    SeriesOfFour(before, missing, batches[b], after, year);
    SeriesOfConcat(before, batches[b], year);
    LateBatchDoesNotLead(top, Series(before, year), Series(missing, year), Series(batches[b], year),
                         Series(after, year));
    lost, higher := top + |Series(before, year)| + 1, Series(batches[b], year)[0];
  }

  /** Every interruption of a collection leaves the year a beginning of its numbers exactly when no group
      holds two batches with invoices of the year. */
  lemma InterruptionLeadsExactly(groups: seq<Group<Invoice>>, top: nat, year: string)
    requires Series(Sent(groups), year) == Following(top, |Series(Sent(groups), year)|)
    ensures (forall awaited, kept :: Leading(Series(Interrupted(groups, awaited, kept), year), top)) <==>
            (forall g | 0 <= g < |groups| :: !Splits(groups[g], year))
  {
    hide Series, Following, Leading, Interrupted, Sent;
    if g :| 0 <= g < |groups| && Splits(groups[g], year) {
      var a, b :| 0 <= a < b < |groups[g].batches| && Series(groups[g].batches[a], year) != []
        && Series(groups[g].batches[b], year) != [];
      var lost, higher := SplitDoesNotLead(groups, g, a, b, top, year);
    } else {
      forall awaited: nat, kept: set<nat>
        ensures Leading(Series(Interrupted(groups, awaited, kept), year), top)
      {
        UnsplitLeads(groups, awaited, kept, top, year);
      }
    }
  }

  // ---------------------------------------------------------------------------------------------
  // The condition on the wave
  // ---------------------------------------------------------------------------------------------

  /** No two invoices of the year, in date order, are sent together in different batches: where both
      are of one run of six thousand, both are of one thousand. */
  predicate Unsplit(yearOf: int -> string, sorted: seq<PendingInvoice>, year: string) {
    forall i, j | 0 <= i < j < |sorted| && yearOf(sorted[i].date) == year && yearOf(sorted[j].date) == year ::
      i / (BATCH * CONCURRENCY) == j / (BATCH * CONCURRENCY) ==> i / BATCH == j / BATCH
  }

  /** Where the writer puts a row. */
  lemma RowInBatch<T>(data: seq<T>, i: nat)
    requires i < |data|
    ensures var g, b, k := i / (BATCH * CONCURRENCY), i % (BATCH * CONCURRENCY) / BATCH, i % BATCH;
            && g < |Grouped(data)| && b < |Grouped(data)[g].batches| && b == i / BATCH - CONCURRENCY * g
            && k < |Grouped(data)[g].batches[b]| && Grouped(data)[g].batches[b][k] == data[i]
  {
  }

  lemma BatchRow<T>(data: seq<T>, g: nat, b: nat, k: nat)
    requires g < |Grouped(data)| && b < |Grouped(data)[g].batches| && k < |Grouped(data)[g].batches[b]|
    ensures var i := g * (BATCH * CONCURRENCY) + b * BATCH + k;
            && i < |data| && Grouped(data)[g].batches[b][k] == data[i]
            && i / (BATCH * CONCURRENCY) == g && i / BATCH == CONCURRENCY * g + b
  {
  }

  lemma RowOfYear(data: seq<Invoice>, g: nat, b: nat, year: string) returns (i: nat)
    requires g < |Grouped(data)| && b < |Grouped(data)[g].batches|
    requires Series(Grouped(data)[g].batches[b], year) != []
    ensures i < |data| && data[i].year == year && i / (BATCH * CONCURRENCY) == g && i / BATCH == CONCURRENCY * g + b
  {
    var batch := Grouped(data)[g].batches[b];
    SeriesEmpty(batch, year);
    var k :| 0 <= k < |batch| && batch[k].year == year;
    BatchRow(data, g, b, k);
    i := g * (BATCH * CONCURRENCY) + b * BATCH + k;
    hide Grouped, Series;
  }

  lemma BatchOfRow(data: seq<Invoice>, i: nat) returns (b: nat)
    requires i < |data|
    ensures var g := i / (BATCH * CONCURRENCY);
            && g < |Grouped(data)| && b < |Grouped(data)[g].batches| && b == i / BATCH - CONCURRENCY * g
            && Series(Grouped(data)[g].batches[b], data[i].year) != []
  {
    RowInBatch(data, i);
    b := i % (BATCH * CONCURRENCY) / BATCH;
    SeriesEmpty(Grouped(data)[i / (BATCH * CONCURRENCY)].batches[b], data[i].year);
    hide Grouped, Series;
  }

  lemma SplitGroupSplitsRows(yearOf: int -> string, sorted: seq<PendingInvoice>, invoices: seq<Invoice>, g: nat,
                             year: string)
    requires |invoices| == |sorted| && forall i | 0 <= i < |invoices| :: invoices[i].year == yearOf(sorted[i].date)
    requires g < |Grouped(invoices)| && Splits(Grouped(invoices)[g], year)
    ensures !Unsplit(yearOf, sorted, year)
  {
    var batches := Grouped(invoices)[g].batches;
    var a, b :| 0 <= a < b < |batches| && Series(batches[a], year) != [] && Series(batches[b], year) != [];
    var i := RowOfYear(invoices, g, a, year);
    var j := RowOfYear(invoices, g, b, year);
    hide Grouped, Series;
  }

  lemma SplitRowsSplitGroup(invoices: seq<Invoice>, i: nat, j: nat)
    requires i < j < |invoices| && invoices[i].year == invoices[j].year
    requires i / (BATCH * CONCURRENCY) == j / (BATCH * CONCURRENCY) && i / BATCH != j / BATCH
    ensures var g := i / (BATCH * CONCURRENCY);
            g < |Grouped(invoices)| && Splits(Grouped(invoices)[g], invoices[i].year)
  {
    var a := BatchOfRow(invoices, i);
    var b := BatchOfRow(invoices, j);
    hide Grouped, Series;
    assert a < b;
  }

  lemma UnsplitExactly(yearOf: int -> string, sorted: seq<PendingInvoice>, invoices: seq<Invoice>, year: string)
    requires |invoices| == |sorted| && forall i | 0 <= i < |invoices| :: invoices[i].year == yearOf(sorted[i].date)
    ensures Unsplit(yearOf, sorted, year) <==>
            forall g | 0 <= g < |Grouped(invoices)| :: !Splits(Grouped(invoices)[g], year)
  {
    hide Grouped, Splits;
    if g :| 0 <= g < |Grouped(invoices)| && Splits(Grouped(invoices)[g], year) {
      SplitGroupSplitsRows(yearOf, sorted, invoices, g, year);
    } else if !Unsplit(yearOf, sorted, year) {
      var i, j :| 0 <= i < j < |sorted| && yearOf(sorted[i].date) == year && yearOf(sorted[j].date) == year &&
                  i / (BATCH * CONCURRENCY) == j / (BATCH * CONCURRENCY) && i / BATCH != j / BATCH;
      SplitRowsSplitGroup(invoices, i, j);
    }
  }

  // ---------------------------------------------------------------------------------------------
  // One crash
  // ---------------------------------------------------------------------------------------------

  lemma SplitPermutation(a: seq<nat>, b: seq<nat>, c: seq<nat>, d: seq<nat>)
    requires multiset(a) == multiset(c)
    ensures multiset(a + b) == multiset(c + d) <==> multiset(b) == multiset(d)
  {
    assert multiset(a + b) == multiset(a) + multiset(b);
    assert multiset(c + d) == multiset(c) + multiset(d);
    if multiset(a + b) == multiset(c + d) {
      assert multiset(b) == multiset(a + b) - multiset(a);
      assert multiset(d) == multiset(c + d) - multiset(c);
    }
  }

  /** A crash leaves the year gapless exactly when the invoices of that year that landed are the ones
      numbered right after the counter, with none before them missing. */
  lemma CrashGaplessExactly(yearOf: int -> string, w: World, wave: Wave, landed: Landed, w': World, year: string)
    requires GaplessYear(w, year) && Next(yearOf, w, CrashIn(wave, landed), w')
    ensures GaplessYear(w', year) <==> Leading(Series(landed.rows.invoices, year), Top(w, year))
  {
    hide Series, Following, Next, Lifted, Gapless, CounterOf, Leading;
    var top, series := Top(w, year), Series(landed.rows.invoices, year);
    CrashSeries(yearOf, w, wave, landed, w', year);
    CrashCounter(yearOf, w, wave, landed, w', year);
    assert w'.process.None? by {
      CrashStops(yearOf, w, wave, landed, w');
    }
    if Leading(series, top) {
      LiftResumesAt(w'.store.invoiceCounters, w'.store.invoices, year, top + |series|);
    }
    if GaplessYear(w', year) {
      GaplessCounts(w'.store.invoices, year, Top(w', year));
      GaplessCounts(w.store.invoices, year, top);
    }
  }

  lemma CrashStops(yearOf: int -> string, w: World, wave: Wave, landed: Landed, w': World)
    requires Next(yearOf, w, CrashIn(wave, landed), w')
    ensures w.process.Some? && w'.process.None? && w'.store.invoices == w.store.invoices + landed.rows.invoices
  {
    hide MayLand;
  }

  /** What the year's series is after the crash. */
  lemma CrashSeries(yearOf: int -> string, w: World, wave: Wave, landed: Landed, w': World, year: string)
    requires Gapless(w.store.invoices, year, Top(w, year)) && Next(yearOf, w, CrashIn(wave, landed), w')
    ensures var series := Series(landed.rows.invoices, year);
            && |Series(w'.store.invoices, year)| == |Series(w.store.invoices, year)| + |series|
            && (Gapless(w'.store.invoices, year, Top(w, year) + |series|) <==> Leading(series, Top(w, year)))
  {
    hide Series, Following, Next, Top;
    var top, series := Top(w, year), Series(landed.rows.invoices, year);
    CrashStops(yearOf, w, wave, landed, w');
    SeriesOfConcat(w.store.invoices, landed.rows.invoices, year);
    FollowingOfConcat(0, top, |series|);
    SplitPermutation(Series(w.store.invoices, year), series, Following(0, top), Following(top, |series|));
  }

  /** The saved counter never passes the last number that landed. */
  lemma CrashCounter(yearOf: int -> string, w: World, wave: Wave, landed: Landed, w': World, year: string)
    requires CounterOf(w.store.invoiceCounters, year) <= Top(w, year) && Next(yearOf, w, CrashIn(wave, landed), w')
    ensures CounterOf(w'.store.invoiceCounters, year) <= Top(w, year) + |Series(landed.rows.invoices, year)|
  {
    hide Series, Numbered, CountersAfter, SortByDate, CounterOf, LeftOf;
    NumbersFollowCounter(yearOf, w.process.value.invoiceSeqByFy, SortByDate(wave.pending), year);
  }

  // ---------------------------------------------------------------------------------------------
  // Every crash
  // ---------------------------------------------------------------------------------------------

  /** The wave's own series of a year, and which year each of its invoices has. */
  lemma WaveSeries(yearOf: int -> string, w: World, wave: Wave, year: string)
    requires w.process.Some?
    ensures var p, sorted := w.process.value, SortByDate(wave.pending);
            var invoices := RowsOf(yearOf, p, wave).invoices;
            && Series(invoices, year) == Following(Top(w, year), |Series(invoices, year)|)
            && |invoices| == |sorted| && forall i | 0 <= i < |invoices| :: invoices[i].year == yearOf(sorted[i].date)
  {
    var p, sorted := w.process.value, SortByDate(wave.pending);
    NumbersFollowCounter(yearOf, p.invoiceSeqByFy, sorted, year);
    forall i | 0 <= i < |sorted|
      ensures Numbered(yearOf, p.invoiceSeqByFy, sorted)[i].year == yearOf(sorted[i].date)
    {
      NumberedAt(yearOf, p.invoiceSeqByFy, sorted, i);
    }
    hide Series, Numbered, CountersAfter, SortByDate, Following;
  }

  /** However an unsplit year's wave is interrupted, what lands of the year leads. */
  lemma UnsplitLandsLeading(yearOf: int -> string, w: World, wave: Wave, some: seq<Invoice>, year: string)
    requires w.process.Some? && Unsplit(yearOf, SortByDate(wave.pending), year)
    requires LeftOf(RowsOf(yearOf, w.process.value, wave).invoices, some)
    ensures Leading(Series(some, year), Top(w, year))
  {
    var invoices := RowsOf(yearOf, w.process.value, wave).invoices;
    WaveSeries(yearOf, w, wave, year);
    UnsplitExactly(yearOf, SortByDate(wave.pending), invoices, year);
    GroupsAreBuffer(invoices);
    var awaited, kept :| some == Interrupted(Grouped(invoices), awaited, kept);
    hide RowsOf, Grouped, Interrupted, Sent, Splits, Series, Leading, Unsplit, SortByDate, Following, Top, LeftOf;
    UnsplitLeads(Grouped(invoices), awaited, kept, Top(w, year), year);
  }

  /** A number the series has passed without storing it. */
  ghost predicate Lost(w: World, year: string, n: nat) {
    && n > 0 && n !in Series(w.store.invoices, year)
    && n <= CounterOf(StartUp(w.store).invoiceSeqByFy, year)
    && (w.process.Some? ==> n <= CounterOf(w.process.value.invoiceSeqByFy, year))
  }

  lemma LostIsGap(w: World, year: string, n: nat)
    requires Lost(w, year, n)
    ensures !GaplessYear(w, year)
  {
    FollowingHolds(0, Top(w, year), n);
    hide Series, Following, Lifted;
    assert n !in multiset(Series(w.store.invoices, year));
  }

  /** A number once lost is never stored by any later run. */
  lemma {:induction false} LostForGood(yearOf: int -> string, w: World, events: seq<Event>, w': World, year: string,
                                       n: nat)
    requires Lost(w, year, n) && History(yearOf, w, events, w')
    ensures Lost(w', year, n) && !GaplessYear(w', year)
    decreases events
  {
    hide Lost, GaplessYear, Next;
    if events != [] {
      var between :| Next(yearOf, w, events[0], between) && History(yearOf, between, events[1..], w');
      LostStays(yearOf, w, events[0], between, year, n);
      LostForGood(yearOf, between, events[1..], w', year, n);
    } else {
      LostIsGap(w, year, n);
    }
  }

  lemma LostStays(yearOf: int -> string, w: World, event: Event, w': World, year: string, n: nat)
    requires Lost(w, year, n) && Next(yearOf, w, event, w')
    ensures Lost(w', year, n)
  {
    hide Series, Lifted, HighestShipment, LeftOf, Following, Numbered, SortByDate;
    match event
    case Start =>
    case Stop =>
    case WholeWave(wave) =>
      var p := w.process.value;
      LostBeside(yearOf, w, wave, RowsOf(yearOf, p, wave).invoices, After(yearOf, p, wave).invoiceSeqByFy, year, n);
    case CrashIn(wave, landed) =>
      LeftIsPart(RowsOf(yearOf, w.process.value, wave).invoices, landed.rows.invoices);
      LostBeside(yearOf, w, wave, landed.rows.invoices, landed.invoiceCounters, year, n);
  }

  /** Rows of a later wave carry later numbers, so they do not fill the gap. */
  lemma LostBeside(yearOf: int -> string, w: World, wave: Wave, some: seq<Invoice>, saved: Counters, year: string,
                   n: nat)
    requires Lost(w, year, n) && w.process.Some?
    requires PartOf(some, RowsOf(yearOf, w.process.value, wave).invoices)
    requires CounterOf(saved, year) in {CounterOf(w.store.invoiceCounters, year),
                                        CounterOf(After(yearOf, w.process.value, wave).invoiceSeqByFy, year)}
    ensures n !in Series(w.store.invoices + some, year)
    ensures n <= CounterOf(Lifted(saved, w.store.invoices + some), year)
    ensures n <= CounterOf(After(yearOf, w.process.value, wave).invoiceSeqByFy, year)
  {
    var p, all := w.process.value, RowsOf(yearOf, w.process.value, wave).invoices;
    NumbersFollowCounter(yearOf, p.invoiceSeqByFy, SortByDate(wave.pending), year);
    hide Series, Lifted, Following, Numbered, CountersAfter, SortByDate, CounterOf;
    SeriesOfPart(some, all, year);
    SeriesOfConcat(w.store.invoices, some, year);
    LaterNumbers(CounterOf(p.invoiceSeqByFy, year), |Series(all, year)|, Series(some, year), n);
    LiftRises(w.store.invoiceCounters, saved, w.store.invoices, some, year, n);
  }

  lemma LaterNumbers(top: nat, count: nat, some: seq<nat>, n: nat)
    requires multiset(some) <= multiset(Following(top, count)) && n <= top
    ensures n !in some
  {
    FollowingHolds(top, count, n);
    hide Following;
    assert multiset(some)[n] == 0;
  }

  /** Start-up counters do not fall when rows are added and the saved counter stays or passes `n`. */
  lemma LiftRises(counters: Counters, saved: Counters, invoices: seq<Invoice>, some: seq<Invoice>, year: string, n: nat)
    requires n <= CounterOf(Lifted(counters, invoices), year)
    requires CounterOf(saved, year) == CounterOf(counters, year) || n <= CounterOf(saved, year)
    ensures n <= CounterOf(Lifted(saved, invoices + some), year)
  {
    hide Series, Lifted, CounterOf;
    var before, top := CounterOf(Lifted(counters, invoices), year), CounterOf(Lifted(saved, invoices + some), year);
    LiftIsMax(counters, invoices, year);
    LiftIsMax(saved, invoices + some, year);
    SeriesOfConcat(invoices, some, year);
    if before != CounterOf(counters, year) {
      assert before in Series(invoices, year) + Series(some, year);
    }
  }

  /** The crash in which everything before the invoices is whole, and this of the invoices landed. */
  function CrashAmongInvoices(yearOf: int -> string, w: World, wave: Wave, some: seq<Invoice>): Landed
    requires w.process.Some?
  {
    Landed(RowsOf(yearOf, w.process.value, wave).(invoices := some), w.store.shipmentCounter, w.store.invoiceCounters)
  }

  lemma MayCrashAmongInvoices(yearOf: int -> string, w: World, wave: Wave, some: seq<Invoice>) returns (w': World)
    requires w.process.Some?
    requires Accepts(w.store, RowsOf(yearOf, w.process.value, wave).phones, wave)
    requires LeftOf(RowsOf(yearOf, w.process.value, wave).invoices, some)
    ensures Next(yearOf, w, CrashIn(wave, CrashAmongInvoices(yearOf, w, wave, some)), w')
    ensures w.process.Some? && w'.process.None? && w'.store.invoices == w.store.invoices + some
  {
    hide LeftOf, CounterOf, RowsOf;
    var rows, landed := RowsOf(yearOf, w.process.value, wave), CrashAmongInvoices(yearOf, w, wave, some);
    w' := World(Grown(w.store, landed.rows, landed.shipmentCounter, landed.invoiceCounters), None);
    WholeIsLeft(rows.phones);
    WholeIsLeft(rows.shipments);
  }

  /** A crash of a wave that splits the year, after which a number is lost. */
  lemma SplitWaveLosesNumber(yearOf: int -> string, w: World, wave: Wave, year: string)
    returns (landed: Landed, w': World, lost: nat)
    requires GaplessYear(w, year) && w.process.Some?
    requires Accepts(w.store, RowsOf(yearOf, w.process.value, wave).phones, wave)
    requires !Unsplit(yearOf, SortByDate(wave.pending), year)
    ensures Next(yearOf, w, CrashIn(wave, landed), w') && Lost(w', year, lost)
  {
    hide Grouped, Interrupted, Sent, Series, Unsplit, SortByDate, Following, Top, GaplessYear;
    hide Numbered, Next, Accepts, Lost;
    var invoices := RowsOf(yearOf, w.process.value, wave).invoices;
    var some, higher;
    some, lost, higher := SplitLandsLate(yearOf, w, wave, year);
    landed := CrashAmongInvoices(yearOf, w, wave, some);
    w' := MayCrashAmongInvoices(yearOf, w, wave, some);
    PassedOver(w, some, w', year, lost, higher);
  }

  lemma SplitLandsLate(yearOf: int -> string, w: World, wave: Wave, year: string)
    returns (some: seq<Invoice>, lost: nat, higher: nat)
    requires w.process.Some? && !Unsplit(yearOf, SortByDate(wave.pending), year)
    ensures LeftOf(RowsOf(yearOf, w.process.value, wave).invoices, some)
    ensures lost !in Series(some, year) && higher in Series(some, year) && Top(w, year) < lost < higher
  {
    hide RowsOf, Grouped, Interrupted, Sent, Series, Unsplit, SortByDate, Following, Top, Leading, Splits, Joined;
    var invoices := RowsOf(yearOf, w.process.value, wave).invoices;
    WaveSeries(yearOf, w, wave, year);
    UnsplitExactly(yearOf, SortByDate(wave.pending), invoices, year);
    GroupsAreBuffer(invoices);
    var groups := Grouped(invoices);
    var g :| 0 <= g < |groups| && Splits(groups[g], year);
    var a, b := SplitBatches(groups[g], year);
    some := Interrupted(groups, g, {b});
    lost, higher := SplitDoesNotLead(groups, g, a, b, Top(w, year), year);
  }

  lemma SplitBatches(g: Group<Invoice>, year: string) returns (a: nat, b: nat)
    requires Splits(g, year)
    ensures a < b < |g.batches| && Series(g.batches[a], year) != [] && Series(g.batches[b], year) != []
  {
    a, b :| 0 <= a < b < |g.batches| && Series(g.batches[a], year) != [] && Series(g.batches[b], year) != [];
  }

  lemma PassedOver(w: World, some: seq<Invoice>, w': World, year: string, lost: nat, higher: nat)
    requires GaplessYear(w, year)
    requires w'.process.None? && w'.store.invoices == w.store.invoices + some
    requires lost !in Series(some, year) && higher in Series(some, year) && Top(w, year) < lost < higher
    ensures Lost(w', year, lost)
  {
    SeriesOfConcat(w.store.invoices, some, year);
    LiftIsMax(w'.store.invoiceCounters, w'.store.invoices, year);
    FollowingHolds(0, Top(w, year), lost);
    hide Series, Lifted, Following, CounterOf, Top;
    assert lost !in multiset(Series(w.store.invoices, year));
    assert higher in Series(w'.store.invoices, year);
  }

  /** Whether a wave can leave a gap, from its invoices' years before it is flushed: no crash of it can
      exactly when the database refuses its customers' phones or no group splits the year. */
  lemma CrashLeavesNoGapExactly(yearOf: int -> string, w: World, wave: Wave, year: string)
    requires GaplessYear(w, year) && w.process.Some?
    ensures (forall landed, w' | Next(yearOf, w, CrashIn(wave, landed), w') :: GaplessYear(w', year)) <==>
            || !Accepts(w.store, RowsOf(yearOf, w.process.value, wave).phones, wave)
            || Unsplit(yearOf, SortByDate(wave.pending), year)
  {
    hide GaplessYear, Unsplit, SortByDate, Series, Leading, Top;
    var accepted := Accepts(w.store, RowsOf(yearOf, w.process.value, wave).phones, wave);
    if accepted && !Unsplit(yearOf, SortByDate(wave.pending), year) {
      var landed, w', lost := SplitWaveLosesNumber(yearOf, w, wave, year);
      LostIsGap(w', year, lost);
    } else {
      forall landed, w' | Next(yearOf, w, CrashIn(wave, landed), w')
        ensures GaplessYear(w', year)
      {
        if !accepted {
          RefusedLandsNothing(yearOf, w, wave, landed, w');
          NothingLeads(Top(w, year), year);
        } else {
          UnsplitLandsLeading(yearOf, w, wave, landed.rows.invoices, year);
        }
        CrashGaplessExactly(yearOf, w, wave, landed, w', year);
      }
    }
  }

  lemma NothingLeads(top: nat, year: string)
    ensures Leading(Series([], year), top)
  {
  }

  /** A wave whose invoices fit one batch can leave no gap, in any year. */
  lemma SmallWaveLeavesNoGap(yearOf: int -> string, w: World, wave: Wave, landed: Landed, w': World, year: string)
    requires |wave.pending| <= BATCH && GaplessYear(w, year)
    requires Next(yearOf, w, CrashIn(wave, landed), w')
    ensures GaplessYear(w', year)
  {
    hide GaplessYear, SortByDate, Next, Accepts, RowsOf;
    CrashStops(yearOf, w, wave, landed, w');
    SortKeepsLength(wave.pending);
    assert Unsplit(yearOf, SortByDate(wave.pending), year);
    CrashLeavesNoGapExactly(yearOf, w, wave, year);
  }
}
