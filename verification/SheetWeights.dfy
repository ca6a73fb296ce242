/** The weight column of a tariff sheet: flat steps and per-kilogram bands, and exactly which cells print
    them. */
module SheetWeights {
  import opened Text

  datatype RateType = Flat | PerKg

  datatype Weight = Weight(from: real, to: real, rateType: RateType)

  /** Length of the leading run of digits. */
  function DigitRun(s: string): (n: nat)
    ensures n <= |s|
    ensures forall i | 0 <= i < n :: IsDigit(s[i])
    ensures n < |s| ==> !IsDigit(s[n])
  {
    if s == "" || !IsDigit(s[0]) then 0 else 1 + DigitRun(s[1..])
  }

  /** Length of the longest prefix of the form digits, or digits "." digits; 0 when there is none. */
  function NumeralPrefix(s: string): (n: nat)
    ensures n <= |s|
  {
    var whole := DigitRun(s);
    if whole == 0 then 0
    else if whole + 1 < |s| && s[whole] == '.' && IsDigit(s[whole + 1]) then
      whole + 1 + DigitRun(s[whole + 1..])
    else whole
  }

  predicate IsNumeral(s: string) {
    s != "" && NumeralPrefix(s) == |s|
  }

  function FractionValue(s: string): (r: real)
    requires forall c | c in s :: IsDigit(c)
    ensures 0.0 <= r
  {
    if s == "" then 0.0 else (DigitValue(s[0]) as real + FractionValue(s[1..])) / 10.0
  }

  function NumeralValue(s: string): (r: real)
    requires IsNumeral(s)
    ensures 0.0 <= r
  {
    var whole := DigitRun(s);
    WholeValue(s[..whole]) as real +
    (if whole == |s| then 0.0 else FractionValue(s[whole + 1..]))
  }

  predicate IsUnit(s: string) {
    s == "" || Lower(s) == "kg" || Lower(s) == "kgs"
  }

  /** "0.5" is a flat step and "21-44 kgs" a per-kilogram band; both start where the previous slab
      ended. Anything else is a note. */
  function ParseWeight(raw: string, previousTo: real): Option<Weight> {
    var n := NumeralPrefix(raw);
    if n == 0 then None
    else if n == |raw| then Some(Weight(previousTo, NumeralValue(raw), Flat))
    else
      var dash := TrimStart(raw[n..]);
      if dash == "" || dash[0] != '-' then None
      else
        var upper := TrimStart(dash[1..]);
        var m := NumeralPrefix(upper);
        if m == 0 || !IsUnit(TrimStart(upper[m..])) then None
        else
          NumeralPrefixIsNumeral(upper);
          Some(Weight(previousTo, NumeralValue(upper[..m]), PerKg))
  }

  lemma DigitRunUnique(s: string, n: nat)
    requires n <= |s|
    requires forall i | 0 <= i < n :: IsDigit(s[i])
    requires n < |s| ==> !IsDigit(s[n])
    ensures DigitRun(s) == n
  {
  }

  /** The numeral at the front of a string stays the same numeral whatever follows it, as long as
      what follows cannot extend it. */
  lemma NumeralPrefixIsNumeral(s: string)
    requires NumeralPrefix(s) > 0
    ensures IsNumeral(s[..NumeralPrefix(s)])
  {
    var n := NumeralPrefix(s);
    var t := s[..n];
    var whole := DigitRun(s);
    DigitRunUnique(t, whole);
    if n > whole {
      assert t[whole + 1..] == s[whole + 1..][..n - whole - 1];
      DigitRunUnique(t[whole + 1..], n - whole - 1);
    }
  }

  lemma NumeralStartsWithDigit(s: string)
    requires IsNumeral(s)
    ensures IsDigit(s[0])
  {
  }

  lemma NumeralPrefixOfConcat(s: string, rest: string)
    requires IsNumeral(s)
    requires rest != "" && !IsDigit(rest[0]) && rest[0] != '.'
    ensures NumeralPrefix(s + rest) == |s|
  {
    var whole := DigitRun(s);
    DigitRunUnique(s + rest, whole);
    if whole < |s| {
      assert (s + rest)[whole + 1..] == s[whole + 1..] + rest;
      DigitRunUnique((s + rest)[whole + 1..], |s| - whole - 1);
    }
  }

  lemma NothingToTrim(s: string)
    requires s != "" && !IsSpace(s[0])
    ensures TrimStart(s) == s
  {
  }

  /** What the parser sees of a band after its lower numeral. */
  lemma AfterLower(lower: string, upper: string)
    requires IsNumeral(lower) && IsNumeral(upper)
    ensures var raw := lower + "-" + upper;
            NumeralPrefix(raw) == |lower| < |raw| && TrimStart(raw[|lower|..]) == "-" + upper
  {
    var rest := "-" + upper;
    assert lower + "-" + upper == lower + rest;
    NumeralPrefixOfConcat(lower, rest);
    hide NumeralPrefix;
    assert (lower + rest)[|lower|..] == rest;
    NothingToTrim(rest);
    hide TrimStart;
  }

  /** And after the dash. */
  lemma AfterDash(upper: string)
    requires IsNumeral(upper)
    ensures ("-" + upper)[1..] == upper && TrimStart(upper) == upper && NumeralPrefix(upper) == |upper| > 0
    ensures upper[..|upper|] == upper && IsUnit(TrimStart(upper[|upper|..]))
  {
    NumeralStartsWithDigit(upper);
    NothingToTrim(upper);
    assert ("-" + upper)[1..] == upper;
    assert upper[|upper|..] == "" && upper[..|upper|] == upper;
    hide NumeralPrefix;
  }

  /** The printed lower bound of a band is never used: "21-44" and "20-44" parse alike, as the band
      from wherever the previous slab ended to the printed upper bound. */
  lemma {:induction false} BandIgnoresPrintedLower(lower: string, upper: string, previousTo: real)
    requires IsNumeral(lower) && IsNumeral(upper)
    ensures ParseWeight(lower + "-" + upper, previousTo) == Some(Weight(previousTo, NumeralValue(upper), PerKg))
  {
    AfterLower(lower, upper);
    AfterDash(upper);
    assert |lower| > 0;
    hide NumeralPrefix, NumeralValue, TrimStart, IsUnit, IsNumeral;
  }

  // ---------------------------------------------------------------------------------------------
  // Exactly which cells are weights
  // ---------------------------------------------------------------------------------------------

  ghost predicate DigitsOnly(s: string) {
    s != "" && forall i | 0 <= i < |s| :: '0' <= s[i] <= '9'
  }

  lemma WholeNumeral(w: string)
    requires DigitsOnly(w)
    ensures IsNumeral(w) && DigitRun(w) == |w|
  {
    DigitRunUnique(w, |w|);
  }

  lemma FractionNumeral(w: string, f: string)
    requires DigitsOnly(w) && DigitsOnly(f)
    ensures IsNumeral(w + "." + f) && DigitRun(w + "." + f) == |w|
    ensures (w + "." + f)[..|w|] == w && (w + "." + f)[|w| + 1..] == f
  {
    hide DigitRun;
    var s := w + "." + f;
    AroundPoint(w, f);
    DigitRunUnique(s, |w|);
    DigitRunUnique(f, |f|);
  }

  lemma AroundPoint(w: string, f: string)
    ensures var s := w + "." + f;
            && |s| == |w| + 1 + |f| && s[..|w|] == w && s[|w|] == '.' && s[|w| + 1..] == f
            && (forall i | 0 <= i < |w| :: s[i] == w[i]) && (f != "" ==> s[|w| + 1] == f[0])
  {
  }

  lemma NumeralPart(s: string) returns (w: string, f: string)
    requires IsNumeral(s)
    ensures DigitsOnly(w) && (s == w || (DigitsOnly(f) && s == w + "." + f))
  {
    var whole := DigitRun(s);
    w, f := s[..whole], "";
    if whole < |s| {
      f := s[whole + 1..];
      assert s == w + "." + f;
    } else {
      assert s == w;
    }
  }

  /** A numeral is digits, or digits, a point and digits. */
  lemma NumeralExactly(s: string)
    ensures IsNumeral(s) <==> DigitsOnly(s) || exists w, f :: DigitsOnly(w) && DigitsOnly(f) && s == w + "." + f
  {
    if IsNumeral(s) {
      var w, f := NumeralPart(s);
    }
    if DigitsOnly(s) {
      WholeNumeral(s);
    }
    if w, f :| DigitsOnly(w) && DigitsOnly(f) && s == w + "." + f {
      FractionNumeral(w, f);
    }
    hide IsNumeral;
  }

  /** The value with the point moved so many digits to the right. */
  function Shifted(value: nat, digits: nat): nat {
    if digits == 0 then value else 10 * Shifted(value, digits - 1)
  }

  function Scaled(value: real, digits: nat): real {
    if digits == 0 then value else 10.0 * Scaled(value, digits - 1)
  }

  lemma {:induction false} ScaledParts(value: real, whole: nat, fraction: real, digits: nat)
    requires value == whole as real + fraction
    ensures Scaled(value, digits) == Shifted(whole, digits) as real + Scaled(fraction, digits)
  {
    if digits > 0 {
      ScaledParts(value, whole, fraction, digits - 1);
    }
  }

  /** A value with a tenth of its digits behind one more place. */
  lemma {:induction false} ScaledOnce(value: real, digit: nat, rest: real, digits: nat)
    requires value == (digit as real + rest) / 10.0
    ensures Scaled(value, digits + 1) == Shifted(digit, digits) as real + Scaled(rest, digits)
  {
    if digits > 0 {
      ScaledOnce(value, digit, rest, digits - 1);
    }
  }

  /** The whole number a digit string denotes, first digit first. */
  lemma {:induction false} WholeFromFront(d: char, s: string)
    requires IsDigit(d) && forall c | c in s :: IsDigit(c)
    ensures WholeValue([d] + s) == Shifted(DigitValue(d), |s|) + WholeValue(s)
  {
    if s == "" {
      assert [d] + s == [d] && [d][..0] == "";
    } else {
      var init, last := s[..|s| - 1], s[|s| - 1];
      assert ([d] + s)[..|s|] == [d] + init;
      WholeFromFront(d, init);
      assert WholeValue([d] + s) == 10 * WholeValue([d] + init) + DigitValue(last);
    }
  }

  lemma {:induction false} WholeOfConcat(w: string, f: string)
    requires (forall c | c in w :: IsDigit(c)) && forall c | c in f :: IsDigit(c)
    ensures WholeValue(w + f) == Shifted(WholeValue(w), |f|) + WholeValue(f)
  {
    if f == "" {
      assert w + f == w;
    } else {
      var init, last := f[..|f| - 1], f[|f| - 1];
      assert (w + f)[..|w + f| - 1] == w + init;
      WholeOfConcat(w, init);
    }
  }

  lemma FractionNext(f: string)
    requires f != "" && forall c | c in f :: IsDigit(c)
    ensures FractionValue(f) == (DigitValue(f[0]) as real + FractionValue(f[1..])) / 10.0
  {
  }

  lemma NothingScaled()
    ensures Scaled(FractionValue(""), 0) == WholeValue("") as real
  {
  }

  lemma {:induction false} FractionDenotes(f: string)
    requires forall c | c in f :: IsDigit(c)
    ensures Scaled(FractionValue(f), |f|) == WholeValue(f) as real
  {
    hide FractionValue, WholeValue, Scaled, Shifted;
    if f == "" {
      NothingScaled();
    } else {
      FractionDenotes(f[1..]);
      FractionNext(f);
      assert f == [f[0]] + f[1..];
      WholeFromFront(f[0], f[1..]);
      ScaledOnce(FractionValue(f), DigitValue(f[0]), FractionValue(f[1..]), |f| - 1);
    }
  }

  lemma NumeralParts(w: string, f: string)
    requires DigitsOnly(w) && DigitsOnly(f)
    ensures IsNumeral(w + "." + f) && NumeralValue(w + "." + f) == WholeValue(w) as real + FractionValue(f)
  {
    FractionNumeral(w, f);
    hide FractionValue, WholeValue, IsNumeral;
  }

  lemma WholeDenotes(w: string)
    requires DigitsOnly(w)
    ensures IsNumeral(w) && NumeralValue(w) == WholeValue(w) as real
  {
    WholeNumeral(w);
    assert w[..|w|] == w;
  }

  /** The value of a numeral: with the point left out, and as many tens as digits behind it, it is a
      whole number. */
  lemma NumeralDenotes(w: string, f: string)
    requires DigitsOnly(w)
    ensures IsNumeral(w) && NumeralValue(w) == WholeValue(w) as real
    ensures DigitsOnly(f) ==>
              && IsNumeral(w + "." + f)
              && Scaled(NumeralValue(w + "." + f), |f|) == WholeValue(w + f) as real
  {
    hide FractionValue, WholeValue, NumeralValue, IsNumeral, Scaled, Shifted;
    WholeDenotes(w);
    if DigitsOnly(f) {
      NumeralParts(w, f);
      FractionDenotes(f);
      WholeOfConcat(w, f);
      ScaledParts(NumeralValue(w + "." + f), WholeValue(w), FractionValue(f), |f|);
    }
  }

  /** A flat step is a numeral alone, and any numeral alone is one, up to the printed bound. */
  lemma FlatExactly(raw: string, previousTo: real, to: real)
    ensures ParseWeight(raw, previousTo) == Some(Weight(previousTo, to, Flat)) <==>
            IsNumeral(raw) && to == NumeralValue(raw)
  {
    hide NumeralValue;
  }

  /** The parts of a printed band: two numerals around a dash, blanks anywhere between, and at most a
      unit behind. */
  ghost predicate Band(raw: string, lower: string, a: string, b: string, upper: string, c: string, unit: string) {
    && raw == lower + a + "-" + b + upper + c + unit
    && IsNumeral(lower) && IsNumeral(upper)
    && Spaces(a) && Spaces(b) && Spaces(c) && Lower(unit) in {"", "kg", "kgs"}
  }

  lemma {:induction false} TrimStartDrops(spaces: string, s: string)
    requires Spaces(spaces)
    ensures TrimStart(spaces + s) == TrimStart(s)
  {
    if spaces == "" {
      assert spaces + s == s;
    } else {
      assert (spaces + s)[1..] == spaces[1..] + s;
      TrimStartDrops(spaces[1..], s);
    }
  }

  lemma TrimStartLeaves(s: string) returns (spaces: string)
    ensures s == spaces + TrimStart(s) && Spaces(spaces)
  {
    var n := StartCount(s);
    spaces := s[..n];
    hide TrimStart, IsSpace;
  }

  lemma UnitStarts(unit: string)
    ensures IsUnit(unit) <==> Lower(unit) in {"", "kg", "kgs"}
    ensures IsUnit(unit) && unit != "" ==> unit[0] in {'k', 'K'}
  {
    if IsUnit(unit) && unit != "" {
      assert Lower(unit)[0] == 'k';
    }
  }

  /** What can follow a numeral in a band cannot extend it. */
  lemma NumeralEnds(s: string, spaces: string, rest: string)
    requires IsNumeral(s) && Spaces(spaces)
    requires rest == "" || (!IsDigit(rest[0]) && rest[0] != '.')
    ensures NumeralPrefix(s + (spaces + rest)) == |s| && (s + (spaces + rest))[|s|..] == spaces + rest
  {
    var tail := spaces + rest;
    if tail == "" {
      assert s + tail == s;
    } else {
      assert tail[0] == if spaces == "" then rest[0] else spaces[0];
      NumeralPrefixOfConcat(s, tail);
    }
  }

  lemma BandParses(raw: string, previousTo: real, lower: string, a: string, b: string, upper: string, c: string,
                   unit: string)
    requires Band(raw, lower, a, b, upper, c, unit)
    ensures ParseWeight(raw, previousTo) == Some(Weight(previousTo, NumeralValue(upper), PerKg))
  {
    hide NumeralValue, NumeralPrefix;
    var afterDash, afterUpper := b + (upper + (c + unit)), c + unit;
    assert raw == lower + (a + ("-" + afterDash));
    UnitStarts(unit);
    NumeralEnds(lower, a, "-" + afterDash);
    TrimStartDrops(a, "-" + afterDash);
    assert ("-" + afterDash)[1..] == afterDash;
    TrimStartDrops(b, upper + afterUpper);
    NumeralStartsWithDigit(upper);
    assert (upper + afterUpper)[0] == upper[0];
    NothingToTrim(upper + afterUpper);
    NumeralEnds(upper, c, unit);
    TrimStartDrops(c, unit);
    if unit != "" {
      NothingToTrim(unit);
    }
    assert (upper + afterUpper)[..|upper|] == upper;
    NumeralNotEmpty(lower);
    NumeralNotEmpty(upper);
    hide IsNumeral, IsUnit, TrimStart;
  }

  lemma NumeralNotEmpty(s: string)
    requires IsNumeral(s)
    ensures |s| > 0
  {
  }

  lemma BandHasParts(raw: string, previousTo: real)
    returns (lower: string, a: string, b: string, upper: string, c: string, unit: string)
    requires ParseWeight(raw, previousTo).Some? && ParseWeight(raw, previousTo).value.rateType == PerKg
    ensures Band(raw, lower, a, b, upper, c, unit)
    ensures ParseWeight(raw, previousTo) == Some(Weight(previousTo, NumeralValue(upper), PerKg))
  {
    hide NumeralValue, IsUnit, NumeralPrefix, TrimStart;
    var n := NumeralPrefix(raw);
    lower := raw[..n];
    NumeralPrefixIsNumeral(raw);
    var dash := TrimStart(raw[n..]);
    a := TrimStartLeaves(raw[n..]);
    var rest := TrimStart(dash[1..]);
    b := TrimStartLeaves(dash[1..]);
    var m := NumeralPrefix(rest);
    upper := rest[..m];
    NumeralPrefixIsNumeral(rest);
    unit := TrimStart(rest[m..]);
    c := TrimStartLeaves(rest[m..]);
    UnitStarts(unit);
    assert dash == "-" + dash[1..];
    assert raw == lower + raw[n..] && rest == upper + rest[m..];
    BandText(raw, lower, a, b, upper, c, unit, dash, rest);
  }

  lemma BandText(raw: string, lower: string, a: string, b: string, upper: string, c: string, unit: string, dash: string,
                 rest: string)
    requires raw == lower + (a + dash) && dash == "-" + (b + rest) && rest == upper + (c + unit)
    ensures raw == lower + a + "-" + b + upper + c + unit
  {
    assert raw == lower + (a + ("-" + (b + (upper + (c + unit)))));
  }

  /** A band is read exactly where one is printed, from the previous bound to the printed upper one. */
  lemma BandExactly(raw: string, previousTo: real, to: real)
    ensures ParseWeight(raw, previousTo) == Some(Weight(previousTo, to, PerKg)) <==>
            exists lower, a, b, upper, c, unit :: Band(raw, lower, a, b, upper, c, unit) && to == NumeralValue(upper)
  {
    if ParseWeight(raw, previousTo) == Some(Weight(previousTo, to, PerKg)) {
      var lower, a, b, upper, c, unit := BandHasParts(raw, previousTo);
    }
    if lower, a, b, upper, c, unit :| Band(raw, lower, a, b, upper, c, unit) && to == NumeralValue(upper) {
      BandParses(raw, previousTo, lower, a, b, upper, c, unit);
    }
    hide ParseWeight, NumeralValue, Band;
  }
}
