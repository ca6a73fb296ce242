/** Joining a dial code to national digits and splitting a stored number again. */
module DialCodes {
  import opened Text
  import opened LongestMatch

  datatype Country = Country(code: string, name: string, dial: string)

  datatype Split = Split(countryCode: string, nationalNumber: string)

  const DEFAULT_COUNTRY := "IN"

  function Digits(s: string): string {
    if s == "" then "" else (if IsDigit(s[0]) then [s[0]] else []) + Digits(s[1..])
  }

  predicate AllDigits(s: string) {
    forall c | c in s :: IsDigit(c)
  }

  lemma {:induction false} DigitsOfDigits(s: string)
    ensures AllDigits(s) ==> Digits(s) == s
    ensures AllDigits(Digits(s)) && |Digits(s)| <= |s|
    ensures Digits(s) == s ==> AllDigits(s)
  {
    if s != "" {
      DigitsOfDigits(s[1..]);
      assert s == [s[0]] + s[1..];
    }
  }

  /** The digits of a text are those of its parts in turn, and of one character itself or nothing. */
  lemma {:induction false} DigitsExactly(a: string, b: string, c: char)
    ensures Digits(a + b) == Digits(a) + Digits(b)
    ensures Digits([c]) == if c in "0123456789" then [c] else ""
  {
    hide Digits;
    assert [c][1..] == "";
    DigitsStep([c]);
    NoDigits();
    if a == "" {
      assert a + b == b;
    } else {
      assert (a + b)[1..] == a[1..] + b;
      DigitsExactly(a[1..], b, c);
      DigitsStep(a);
      DigitsStep(a + b);
    }
  }

  lemma NoDigits()
    ensures Digits("") == ""
  {
  }

  lemma DigitsStep(s: string)
    requires s != ""
    ensures Digits(s) == (if s[0] in "0123456789" then [s[0]] else "") + Digits(s[1..])
  {
  }

  function ToE164(dial: string, nationalNumber: string): string {
    var digits := Digits(nationalNumber);
    if digits == "" then "" else dial + digits
  }

  predicate Dials(value: string, c: Country) {
    c.dial <= value
  }

  function DialLength(c: Country): nat {
    |c.dial|
  }

  function Matched(value: string, countries: seq<Country>): Option<Country> {
    FindLongest(countries, DialLength, (c: Country) => Dials(value, c))
  }

  function FromE164(value: string, countries: seq<Country>): Split {
    if !("+" <= value) then Split(DEFAULT_COUNTRY, Digits(value))
    else
      match Matched(value, countries)
      case None => Split(DEFAULT_COUNTRY, value[1..])
      case Some(c) => Split(c.code, value[|c.dial|..])
  }

  ghost predicate Listed(countries: seq<Country>) {
    && (forall i, j | 0 <= i < j < |countries| :: countries[i].code != countries[j].code)
    && (forall c | c in countries :: "+" <= c.dial)
  }

  /** The country found has a dial code the value begins with, none such is longer, and it comes first
      among those as long. */
  lemma MatchedIsFirstLongest(value: string, countries: seq<Country>) returns (k: nat)
    ensures Matched(value, countries).None? <==> forall c | c in countries :: !(c.dial <= value)
    ensures Matched(value, countries).Some? ==>
              && k < |countries| && Matched(value, countries) == Some(countries[k]) && countries[k].dial <= value
              && (forall j | 0 <= j < |countries| && countries[j].dial <= value ::
                    |countries[j].dial| <= |countries[k].dial|)
              && (forall j | 0 <= j < k && countries[j].dial <= value :: |countries[j].dial| < |countries[k].dial|)
  {
    k := FindsFirstLongest(countries, DialLength, (c: Country) => Dials(value, c));
  }

  /** A number with no plus is shown by its digits, one under no listed dial code whole but for its plus,
      both as of the default country; formatting what is shown keeps every digit that was stored. */
  lemma NothingMatched(value: string, countries: seq<Country>, dial: string)
    requires !("+" <= value) || forall c | c in countries :: !(c.dial <= value)
    ensures FromE164(value, countries).countryCode == "IN"
    ensures !("+" <= value) ==> FromE164(value, countries).nationalNumber == Digits(value)
    ensures "+" <= value ==> "+" + FromE164(value, countries).nationalNumber == value
    ensures ToE164(dial, FromE164(value, countries).nationalNumber) == ToE164(dial, value)
  {
    hide Matched, Digits, Dials;
    if "+" <= value {
      NoneMatches(value, countries);
    }
    DigitsOfDigits(Digits(value));
    DigitsOfDigits(value);
    if "+" <= value {
      PlusIsDropped(value);
    }
  }

  lemma NoneMatches(value: string, countries: seq<Country>)
    requires forall c | c in countries :: !(c.dial <= value)
    ensures Matched(value, countries).None?
  {
    var k := MatchedIsFirstLongest(value, countries);
  }

  lemma PlusIsDropped(value: string)
    requires "+" <= value
    ensures "+" + value[1..] == value && Digits(value[1..]) == Digits(value)
  {
  }

  /** A stored number splits into parts that join back into it, and formatting the parts again gives the
      same number exactly when what follows the dial code is a non-empty run of digits. */
  lemma SplitRejoins(value: string, countries: seq<Country>)
    requires "+" <= value && Matched(value, countries).Some?
    ensures var c, split := Matched(value, countries).value, FromE164(value, countries);
            && split.countryCode == c.code && c in countries
            && c.dial + split.nationalNumber == value
            && (ToE164(c.dial, split.nationalNumber) == value <==>
                  split.nationalNumber != "" && AllDigits(split.nationalNumber))
  {
    var k := MatchedIsFirstLongest(value, countries);
    var c, rest := countries[k], value[|countries[k].dial|..];
    assert c.dial + rest == value;
    DigitsOfDigits(rest);
    if ToE164(c.dial, rest) == value && Digits(rest) != "" {
      assert (c.dial + Digits(rest))[|c.dial|..] == Digits(rest);
    }
  }

  /** A country and digits, printed as one number, are recovered exactly when no country's longer dial
      code is a prefix of that number and the country is the first listed with its dial code. */
  lemma JoinSplitsBack(countries: seq<Country>, k: nat, digits: string)
    requires Listed(countries) && k < |countries|
    requires digits != "" && AllDigits(digits)
    ensures var c, value := countries[k], ToE164(countries[k].dial, digits);
            FromE164(value, countries) == Split(c.code, digits) <==>
            && (forall other | other in countries && other.dial <= value :: |other.dial| <= |c.dial|)
            && (forall j | 0 <= j < k :: countries[j].dial != c.dial)
  {
    var c := countries[k];
    DigitsOfDigits(digits);
    var value := c.dial + digits;
    assert ToE164(c.dial, digits) == value;
    assert Dials(value, c) && value[|c.dial|..] == digits;
    assert "+" <= value;
    var m := MatchedIsFirstLongest(value, countries);
    if FromE164(value, countries) == Split(c.code, digits) {
      assert m == k;
      forall j | 0 <= j < k
        ensures countries[j].dial != c.dial
      {
        assert Dials(value, countries[j]) ==> |countries[j].dial| < |c.dial|;
      }
    }
    if (forall other | other in countries && other.dial <= value :: |other.dial| <= |c.dial|)
      && (forall j | 0 <= j < k :: countries[j].dial != c.dial) {
      assert countries[m].dial == value[..|countries[m].dial|] && c.dial == value[..|c.dial|];
      assert m == k;
    }
  }
}
