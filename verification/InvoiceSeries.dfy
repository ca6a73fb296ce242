/** Invoice numbering: per financial year, in date order, and what the integrity check makes of it. */
module InvoiceSeries {
  import opened Text
  import opened BulkBook
  import opened StableSort

  datatype Invoice = Invoice(id: Id, order: Id, customer: Id, date: int, year: string, sequence: nat)

  type Counters = map<string, nat>

  function CounterOf(counters: Counters, year: string): nat {
    if year in counters then counters[year] else 0
  }

  // ---------------------------------------------------------------------------------------------
  // Date order
  // ---------------------------------------------------------------------------------------------

  ghost predicate InDateOrder(pending: seq<PendingInvoice>) {
    forall i, j | 0 <= i < j < |pending| :: pending[i].date <= pending[j].date
  }

  function DateOf(p: PendingInvoice): int {
    p.date
  }

  /** The stable sort `pending.sort` performs. */
  function SortByDate(pending: seq<PendingInvoice>): seq<PendingInvoice> {
    SortBy(pending, DateOf)
  }

  lemma SortSorts(pending: seq<PendingInvoice>)
    ensures InDateOrder(SortByDate(pending))
    ensures multiset(SortByDate(pending)) == multiset(pending)
  {
    StableSort.SortSorts(pending, DateOf);
    hide SortBy;
    var sorted := SortByDate(pending);
    forall i, j | 0 <= i < j < |sorted|
      ensures sorted[i].date <= sorted[j].date
    {
      assert DateOf(sorted[i]) <= DateOf(sorted[j]);
    }
  }

  lemma SortKeepsLength(pending: seq<PendingInvoice>)
    ensures |SortByDate(pending)| == |pending|
  {
    StableSort.SortKeepsLength(pending, DateOf);
    hide SortBy;
  }

  // ---------------------------------------------------------------------------------------------
  // Numbering
  // ---------------------------------------------------------------------------------------------

  function CountersAfter(yearOf: int -> string, counters: Counters, pending: seq<PendingInvoice>): Counters {
    if pending == [] then counters
    else
      var before := CountersAfter(yearOf, counters, pending[..|pending| - 1]);
      var year := yearOf(pending[|pending| - 1].date);
      before[year := CounterOf(before, year) + 1]
  }

  function Numbered(yearOf: int -> string, counters: Counters, pending: seq<PendingInvoice>): (invoices: seq<Invoice>)
    ensures |invoices| == |pending|
  {
    if pending == [] then []
    else
      var init, p := pending[..|pending| - 1], pending[|pending| - 1];
      var year := yearOf(p.date);
      Numbered(yearOf, counters, init) +
      [Invoice(p.id, p.order, p.customer, p.date, year, CounterOf(CountersAfter(yearOf, counters, init), year) + 1)]
  }

  class WaveCounters {
    var invoiceSeqByFy: Counters

    constructor (counters: Counters)
      ensures invoiceSeqByFy == counters
    {
      invoiceSeqByFy := counters;
    }

    /** `pending` is sorted by date and numbered in that order, each financial year on its own. */
    method NumberInvoices(yearOf: int -> string, pending: seq<PendingInvoice>) returns (invoices: seq<Invoice>)
      modifies this
      ensures invoices == Numbered(yearOf, old(invoiceSeqByFy), SortByDate(pending))
      ensures invoiceSeqByFy == CountersAfter(yearOf, old(invoiceSeqByFy), SortByDate(pending))
    {
      var sorted := SortByDate(pending);
      invoices := [];
      for i := 0 to |sorted|
        invariant invoices == Numbered(yearOf, old(invoiceSeqByFy), sorted[..i])
        invariant invoiceSeqByFy == CountersAfter(yearOf, old(invoiceSeqByFy), sorted[..i])
      {
        assert sorted[..i + 1][..i] == sorted[..i];
        var p := sorted[i];
        var financialYear := yearOf(p.date);
        var next := CounterOf(invoiceSeqByFy, financialYear) + 1;
        invoiceSeqByFy := invoiceSeqByFy[financialYear := next];
        invoices := invoices + [Invoice(p.id, p.order, p.customer, p.date, financialYear, next)];
      }
      assert sorted[..|sorted|] == sorted;
    }
  }

  // ---------------------------------------------------------------------------------------------
  // One year's series
  // ---------------------------------------------------------------------------------------------

  /** The sequence numbers stored for a financial year, in storage order. */
  function Series(invoices: seq<Invoice>, year: string): seq<nat> {
    if invoices == [] then []
    else
      var last := invoices[|invoices| - 1];
      Series(invoices[..|invoices| - 1], year) + (if last.year == year then [last.sequence] else [])
  }

  /** The `count` numbers after `from`. */
  function Following(from: nat, count: nat): seq<nat> {
    if count == 0 then [] else Following(from, count - 1) + [from + count]
  }

  lemma {:induction false} SeriesOfConcat(a: seq<Invoice>, b: seq<Invoice>, year: string)
    ensures Series(a + b, year) == Series(a, year) + Series(b, year)
  {
    if b == [] {
      assert a + b == a;
    } else {
      assert (a + b)[..|a + b| - 1] == a + b[..|b| - 1];
      SeriesOfConcat(a, b[..|b| - 1], year);
    }
  }

  lemma SeriesOfAppend(invoices: seq<Invoice>, last: Invoice, year: string)
    ensures Series(invoices + [last], year) ==
            Series(invoices, year) + if last.year == year then [last.sequence] else []
  {
    assert (invoices + [last])[..|invoices|] == invoices;
  }

  lemma {:induction false} SeriesHolds(invoices: seq<Invoice>, year: string, n: nat)
    ensures n in Series(invoices, year) <==> exists i | i in invoices :: i.year == year && i.sequence == n
  {
    if invoices != [] {
      SeriesHolds(invoices[..|invoices| - 1], year, n);
      assert invoices == invoices[..|invoices| - 1] + [invoices[|invoices| - 1]];
    }
  }

  lemma {:induction false} SeriesEmpty(invoices: seq<Invoice>, year: string)
    ensures Series(invoices, year) == [] <==> forall i | i in invoices :: i.year != year
  {
    if invoices != [] {
      SeriesEmpty(invoices[..|invoices| - 1], year);
      assert invoices == invoices[..|invoices| - 1] + [invoices[|invoices| - 1]];
    }
  }

  lemma {:induction false} SeriesOfOneYear(invoices: seq<Invoice>, year: string)
    requires forall i | 0 <= i < |invoices| :: invoices[i].year == year
    ensures |Series(invoices, year)| == |invoices|
    ensures forall i | 0 <= i < |invoices| :: Series(invoices, year)[i] == invoices[i].sequence
  {
    if invoices != [] {
      SeriesOfOneYear(invoices[..|invoices| - 1], year);
    }
  }

  lemma {:induction false} FollowingOfConcat(from: nat, m: nat, n: nat)
    ensures Following(from, m) + Following(from + m, n) == Following(from, m + n)
  {
    if n > 0 {
      FollowingOfConcat(from, m, n - 1);
    } else {
      assert Following(from, m) + [] == Following(from, m);
    }
  }

  lemma {:induction false} FollowingAt(from: nat, count: nat, i: nat)
    requires i < count
    ensures |Following(from, count)| == count && Following(from, count)[i] == from + i + 1
  {
    FollowingHolds(from, count - 1, 0);
    if i < count - 1 {
      FollowingAt(from, count - 1, i);
    }
  }

  lemma PartsFollow(from: nat, a: seq<nat>, b: seq<nat>)
    requires a + b == Following(from, |a| + |b|)
    ensures a == Following(from, |a|) && b == Following(from + |a|, |b|)
  {
    var c, d := Following(from, |a|), Following(from + |a|, |b|);
    FollowingOfConcat(from, |a|, |b|);
    FollowingHolds(from, |a|, 0);
    hide Following;
    assert a == (a + b)[..|a|] && c == (c + d)[..|c|];
    assert b == (a + b)[|a|..] && d == (c + d)[|c|..];
  }

  /** A stretch of consecutive numbers is consecutive. */
  lemma StretchFollows(from: nat, count: nat, before: seq<nat>, stretch: seq<nat>, after: seq<nat>)
    requires Following(from, count) == before + stretch + after
    ensures stretch == Following(from + |before|, |stretch|)
  {
    FollowingHolds(from, count, 0);
    hide Following;
    var first := before + stretch;
    assert |first| == |before| + |stretch| && count == |first| + |after|;
    PartsFollow(from, first, after);
    PartsFollow(from, before, stretch);
  }

  /** What the last invoice gets. */
  lemma NumberedNext(yearOf: int -> string, counters: Counters, pending: seq<PendingInvoice>) returns (last: Invoice)
    requires pending != []
    ensures var init := pending[..|pending| - 1];
            var before := CountersAfter(yearOf, counters, init);
            && Numbered(yearOf, counters, pending) == Numbered(yearOf, counters, init) + [last]
            && last.sequence == CounterOf(before, last.year) + 1
            && CountersAfter(yearOf, counters, pending) == before[last.year := last.sequence]
  {
    last := Numbered(yearOf, counters, pending)[|pending| - 1];
  }

  lemma NothingNumbered(yearOf: int -> string, counters: Counters, year: string)
    ensures Series(Numbered(yearOf, counters, []), year) == []
    ensures CountersAfter(yearOf, counters, []) == counters && Following(CounterOf(counters, year), 0) == []
  {
  }

  lemma FollowingNext(from: nat, count: nat)
    ensures Following(from, count + 1) == Following(from, count) + [from + count + 1]
  {
  }

  /** Each year's new numbers are the ones right after its counter, in order and without a gap. */
  lemma {:induction false} NumbersFollowCounter(yearOf: int -> string, counters: Counters, pending: seq<PendingInvoice>,
                                                year: string)
    ensures var series := Series(Numbered(yearOf, counters, pending), year);
            && series == Following(CounterOf(counters, year), |series|)
            && CounterOf(CountersAfter(yearOf, counters, pending), year) == CounterOf(counters, year) + |series|
  {
    hide Series, Numbered, CountersAfter, Following;
    if pending == [] {
      NothingNumbered(yearOf, counters, year);
    } else {
      var init := pending[..|pending| - 1];
      NumbersFollowCounter(yearOf, counters, init, year);
      var last := NumberedNext(yearOf, counters, pending);
      SeriesOfAppend(Numbered(yearOf, counters, init), last, year);
      FollowingNext(CounterOf(counters, year), |Series(Numbered(yearOf, counters, init), year)|);
      var series := Series(Numbered(yearOf, counters, init), year);
      assert series + [] == series;
    }
  }

  /** The year's stored numbers are 1, 2, ..., `top`, each once. */
  ghost predicate Gapless(invoices: seq<Invoice>, year: string, top: nat) {
    multiset(Series(invoices, year)) == multiset(Following(0, top))
  }

  /** Storing a wave's invoices, in whatever order, keeps every year's series gapless. */
  lemma {:induction false} WaveKeepsGapless(yearOf: int -> string, counters: Counters, stored: seq<Invoice>,
                                            pending: seq<PendingInvoice>, written: seq<Invoice>, year: string)
    requires Gapless(stored, year, CounterOf(counters, year))
    requires multiset(Series(written, year)) == multiset(Series(Numbered(yearOf, counters, pending), year))
    ensures Gapless(stored + written, year, CounterOf(CountersAfter(yearOf, counters, pending), year))
  {
    hide Series, Following, Numbered, CountersAfter, CounterOf;
    var series := Series(Numbered(yearOf, counters, pending), year);
    NumbersFollowCounter(yearOf, counters, pending, year);
    SeriesOfConcat(stored, written, year);
    FollowingOfConcat(0, CounterOf(counters, year), |series|);
    JoinPermutations(Series(stored, year), Series(written, year),
                     Following(0, CounterOf(counters, year)), Following(CounterOf(counters, year), |series|));
  }

  lemma JoinPermutations(a: seq<nat>, b: seq<nat>, c: seq<nat>, d: seq<nat>)
    requires multiset(a) == multiset(c) && multiset(b) == multiset(d)
    ensures multiset(a + b) == multiset(c + d)
  {
    assert multiset(a + b) == multiset(a) + multiset(b);
    assert multiset(c + d) == multiset(c) + multiset(d);
  }

  /** Within a wave, a year's numbers rise with the invoice date. */
  lemma {:induction false} NumbersRiseWithDate(yearOf: int -> string, counters: Counters, pending: seq<PendingInvoice>,
                                               i: nat, j: nat)
    requires InDateOrder(pending) && i < j < |pending|
    ensures var invoices := Numbered(yearOf, counters, pending);
            && invoices[i].date <= invoices[j].date
            && (invoices[i].year == invoices[j].year ==> invoices[i].sequence < invoices[j].sequence)
  {
    var init := pending[..|pending| - 1];
    NumberedAt(yearOf, counters, pending, i);
    NumberedAt(yearOf, counters, pending, j);
    if j < |init| {
      NumbersRiseWithDate(yearOf, counters, init, i, j);
    } else {
      CounterCoversAll(yearOf, counters, init, i);
    }
  }

  lemma {:induction false} NumberedAt(yearOf: int -> string, counters: Counters, pending: seq<PendingInvoice>, i: nat)
    requires i < |pending|
    ensures var invoice := Numbered(yearOf, counters, pending)[i];
            invoice == Invoice(pending[i].id, pending[i].order, pending[i].customer, pending[i].date,
                               yearOf(pending[i].date), invoice.sequence)
  {
    if i < |pending| - 1 {
      NumberedAt(yearOf, counters, pending[..|pending| - 1], i);
    }
  }

  lemma {:induction false} CounterCoversAll(yearOf: int -> string, counters: Counters, pending: seq<PendingInvoice>,
                                            i: nat)
    requires i < |pending|
    ensures var invoice := Numbered(yearOf, counters, pending)[i];
            invoice.sequence <= CounterOf(CountersAfter(yearOf, counters, pending), invoice.year)
  {
    if i < |pending| - 1 {
      CounterCoversAll(yearOf, counters, pending[..|pending| - 1], i);
    }
  }

  // ---------------------------------------------------------------------------------------------
  // The integrity check's aggregates
  // ---------------------------------------------------------------------------------------------

  function Least(s: seq<nat>): nat
    requires s != []
  {
    if |s| == 1 || s[|s| - 1] < Least(s[..|s| - 1]) then s[|s| - 1] else Least(s[..|s| - 1])
  }

  function Greatest(s: seq<nat>): nat
    requires s != []
  {
    if |s| == 1 || s[|s| - 1] > Greatest(s[..|s| - 1]) then s[|s| - 1] else Greatest(s[..|s| - 1])
  }

  function Distinct(s: seq<nat>): set<nat> {
    set x | x in s
  }

  /** What the check compares: `MIN = 1`, `MAX = COUNT` and `COUNT(DISTINCT) = COUNT`. */
  predicate LooksGapless(s: seq<nat>)
    requires s != []
  {
    Least(s) == 1 && Greatest(s) == |s| && |Distinct(s)| == |s|
  }

  lemma {:induction false} LeastIsLeast(s: seq<nat>)
    requires s != []
    ensures Least(s) in s && forall x | x in s :: Least(s) <= x
  {
    if |s| > 1 {
      LeastIsLeast(s[..|s| - 1]);
      assert s == s[..|s| - 1] + [s[|s| - 1]];
    }
  }

  lemma {:induction false} GreatestIsGreatest(s: seq<nat>)
    requires s != []
    ensures Greatest(s) in s && forall x | x in s :: x <= Greatest(s)
  {
    if |s| > 1 {
      GreatestIsGreatest(s[..|s| - 1]);
      assert s == s[..|s| - 1] + [s[|s| - 1]];
    }
  }

  lemma {:induction false} FollowingHolds(from: nat, count: nat, x: nat)
    ensures |Following(from, count)| == count
    ensures multiset(Following(from, count))[x] == if from < x <= from + count then 1 else 0
  {
    if count > 0 {
      FollowingHolds(from, count - 1, x);
    }
  }

  lemma {:induction false} DistinctMeansOnce(s: seq<nat>)
    ensures |Distinct(s)| <= |s|
    ensures |Distinct(s)| == |s| <==> forall x :: multiset(s)[x] <= 1
  {
    if s == [] {
      assert Distinct(s) == {};
    } else {
      var init, last := s[..|s| - 1], s[|s| - 1];
      assert s == init + [last];
      DistinctMeansOnce(init);
      assert Distinct(s) == Distinct(init) + {last};
      if last in Distinct(init) {
        assert Distinct(s) == Distinct(init);
        assert multiset(s)[last] >= 2;
      } else {
        assert last !in multiset(init);
        assert forall x :: multiset(s)[x] == multiset(init)[x] + if x == last then 1 else 0;
      }
    }
  }

  lemma {:induction false} FullSubset(a: set<nat>, n: nat)
    requires forall x | x in a :: 1 <= x <= n
    ensures |a| <= n
    ensures |a| == n ==> forall x: nat | 1 <= x <= n :: x in a
  {
    if n == 0 {
      assert a == {};
    } else {
      FullSubset(a - {n}, n - 1);
      assert |a - {n}| == |a| - if n in a then 1 else 0;
    }
  }

  /** The three aggregates are right: they accept a series exactly when it is 1..n, each once. */
  lemma {:induction false} AggregatesDecideGapless(s: seq<nat>)
    requires s != []
    ensures LooksGapless(s) <==> multiset(s) == multiset(Following(0, |s|))
  {
    LeastIsLeast(s);
    GreatestIsGreatest(s);
    DistinctMeansOnce(s);
    hide Least, Greatest, Following;
    var all: multiset<nat> := multiset(Following(0, |s|));
    forall x: nat
      ensures all[x] == if 0 < x <= |s| then 1 else 0
    {
      FollowingHolds(0, |s|, x);
    }
    if LooksGapless(s) {
      FullSubset(Distinct(s), |s|);
      forall x: nat
        ensures multiset(s)[x] == all[x]
      {
        assert 1 <= x <= |s| ==> x in Distinct(s);
        assert x in s <==> x in multiset(s);
      }
    }
    if multiset(s) == all {
      assert all[1] == 1 && all[|s|] == 1;
      assert 1 in multiset(s) && |s| in multiset(s);
      assert 1 in s && |s| in s;
      assert Least(s) in multiset(s) && Greatest(s) in multiset(s);
      assert all[Least(s)] > 0 && all[Greatest(s)] > 0;
      assert forall x :: multiset(s)[x] <= 1;
    }
  }

  /** The check's loop over the financial years that have invoices. */
  method VerifySeries(stored: seq<Invoice>, counters: Counters, years: seq<string>) returns (failures: nat)
    requires forall year | year in years :: Series(stored, year) != []
    ensures failures == 0 <==>
            forall year | year in years ::
              var series := Series(stored, year);
              Gapless(stored, year, |series|) && |series| <= CounterOf(counters, year)
  {
    hide Least, Greatest, Following, Series;
    failures := 0;
    for i := 0 to |years|
      invariant failures == 0 <==>
                forall k | 0 <= k < i ::
                  var series := Series(stored, years[k]);
                  Gapless(stored, years[k], |series|) && |series| <= CounterOf(counters, years[k])
    {
      var series := Series(stored, years[i]);
      AggregatesDecideGapless(series);
      if !(Least(series) == 1 && Greatest(series) == |series| && |Distinct(series)| == |series|) {
        failures := failures + 1;
      } else {
        assert LooksGapless(series);
      }
      if CounterOf(counters, years[i]) < Greatest(series) {
        failures := failures + 1;
      }
    }
  }

  /** A year that is 1..counter is one the check passes. */
  lemma GaplessCounts(stored: seq<Invoice>, year: string, top: nat)
    requires Gapless(stored, year, top)
    ensures |Series(stored, year)| == top
  {
    FollowingHolds(0, top, 0);
    assert |multiset(Series(stored, year))| == |Series(stored, year)|;
    assert |multiset(Following(0, top))| == |Following(0, top)|;
  }

  // ---------------------------------------------------------------------------------------------
  // The printed number
  // ---------------------------------------------------------------------------------------------

  function DigitOf(d: nat): char
    requires d < 10
  {
    "0123456789"[d]
  }

  function DecimalOf(n: nat): string {
    if n < 10 then [DigitOf(n)] else DecimalOf(n / 10) + [DigitOf(n % 10)]
  }

  function PadStart(s: string, width: nat): string
    decreases width - |s|
  {
    if |s| >= width then s else PadStart("0" + s, width)
  }

  function FormatInvoiceNumber(sequence: nat, year: string): string {
    "NW/" + year + "/" + PadStart(DecimalOf(sequence), 5)
  }

  lemma {:induction false} DecimalDenotes(n: nat)
    ensures var s := DecimalOf(n); (forall c | c in s :: IsDigit(c)) && WholeValue(s) == n
  {
    if n >= 10 {
      DecimalDenotes(n / 10);
      WholeOfAppend(DecimalOf(n / 10), n % 10);
      hide WholeValue, DigitOf;
    } else {
      WholeOfAppend("", n);
      assert "" + [DigitOf(n)] == [DigitOf(n)];
    }
  }

  lemma WholeOfAppend(s: string, d: nat)
    requires (forall c | c in s :: IsDigit(c)) && d < 10
    ensures var t := s + [DigitOf(d)];
            (forall c | c in t :: IsDigit(c)) && WholeValue(t) == 10 * WholeValue(s) + d
  {
    assert (s + [DigitOf(d)])[..|s|] == s;
  }

  lemma {:induction false} LeadingZero(s: string)
    requires forall c | c in s :: IsDigit(c)
    ensures WholeValue("0" + s) == WholeValue(s)
  {
    if s == "" {
      assert ("0" + s)[..0] == "";
    } else {
      assert ("0" + s)[..|s|] == "0" + s[..|s| - 1];
      LeadingZero(s[..|s| - 1]);
    }
  }

  lemma {:induction false} PaddingDenotes(s: string, width: nat)
    requires forall c | c in s :: IsDigit(c)
    ensures var t := PadStart(s, width); (forall c | c in t :: IsDigit(c)) && WholeValue(t) == WholeValue(s)
    decreases width - |s|
  {
    if |s| < width {
      LeadingZero(s);
      PaddingDenotes("0" + s, width);
    }
  }

  /** After the company and the year stand at least five digits that denote the sequence number, and no
      more of them than five or than it needs. */
  lemma PrintedExactly(n: nat, year: string)
    ensures exists digits ::
              && FormatInvoiceNumber(n, year) == "NW/" + year + "/" + digits
              && |digits| >= 5 && (|digits| > 5 ==> digits[0] != '0')
              && (forall c | c in digits :: IsDigit(c)) && WholeValue(digits) == n
  {
    var digits := PadStart(DecimalOf(n), 5);
    DecimalDenotes(n);
    PaddingDenotes(DecimalOf(n), 5);
    NoNeedlessZero(n);
    PaddingFills(DecimalOf(n), 5);
    hide PadStart, DecimalOf, WholeValue;
  }

  lemma {:induction false} NoNeedlessZero(n: nat)
    ensures DecimalOf(n) != "" && (|DecimalOf(n)| > 1 ==> DecimalOf(n)[0] != '0')
  {
    if n >= 10 {
      NoNeedlessZero(n / 10);
      assert n / 10 < 10 ==> DecimalOf(n / 10) == [DigitOf(n / 10)];
    }
  }

  lemma {:induction false} PaddingFills(s: string, width: nat)
    ensures |PadStart(s, width)| >= width && (|s| >= width ==> PadStart(s, width) == s)
    ensures |s| <= width ==> |PadStart(s, width)| == width
    decreases width - |s|
  {
    if |s| < width {
      PaddingFills("0" + s, width);
    }
  }

  /** Two invoices print the same number only when they share the year and the sequence number, so
      printed numbers are unique as long as each year's series is; also past 99999, where the padding
      runs out. */
  lemma {:induction false} PrintedNumberDecodes(m: nat, year: string, n: nat, year': string)
    requires '/' !in year && '/' !in year'
    requires FormatInvoiceNumber(m, year) == FormatInvoiceNumber(n, year')
    ensures m == n && year == year'
  {
    var a, b := PadStart(DecimalOf(m), 5), PadStart(DecimalOf(n), 5);
    DecimalDenotes(m);
    DecimalDenotes(n);
    PaddingDenotes(DecimalOf(m), 5);
    PaddingDenotes(DecimalOf(n), 5);
    SameSplit(year, a, year', b);
  }

  function BeforeSlash(s: string): nat {
    if s == "" || s[0] == '/' then 0 else 1 + BeforeSlash(s[1..])
  }

  lemma {:induction false} BeforeSlashOf(x: string, rest: string)
    requires '/' !in x
    ensures BeforeSlash(x + "/" + rest) == |x|
  {
    if x == "" {
      assert x + "/" + rest == "/" + rest;
    } else {
      assert (x + "/" + rest)[1..] == x[1..] + "/" + rest;
      BeforeSlashOf(x[1..], rest);
    }
  }

  lemma SameSplit(x: string, a: string, y: string, b: string)
    requires '/' !in x && '/' !in y
    requires "NW/" + x + "/" + a == "NW/" + y + "/" + b
    ensures x == y && a == b
  {
    var s, t := "NW/" + x + "/" + a, "NW/" + y + "/" + b;
    assert s[3..] == x + "/" + a && t[3..] == y + "/" + b;
    BeforeSlashOf(x, a);
    BeforeSlashOf(y, b);
    assert s[3..][..|x|] == x && t[3..][..|y|] == y;
    assert s[3..][|x| + 1..] == a && t[3..][|y| + 1..] == b;
  }
}
