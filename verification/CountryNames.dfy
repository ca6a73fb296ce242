/** Matching a carrier's printed country name to the countries table. */
module CountryNames {
  import opened Text
  import opened Runs

  type Id = string

  datatype Country = Country(id: Id, code: string, name: string)

  // ---------------------------------------------------------------------------------------------
  // The normal form
  // ---------------------------------------------------------------------------------------------

  /** Index of the first closing parenthesis, or the length when there is none. */
  function Closing(s: string): (n: nat)
    ensures n <= |s|
  {
    if s == "" || s[0] == ')' then 0 else 1 + Closing(s[1..])
  }

  /** Every parenthesis that is closed somewhere gives way, with all up to the closing, to a blank. */
  function WithoutParentheses(s: string): string
    decreases |s|
  {
    if s == "" then ""
    else if s[0] == '(' && Closing(s) < |s| then " " + WithoutParentheses(s[Closing(s) + 1..])
    else s[..1] + WithoutParentheses(s[1..])
  }

  predicate IsWordChar(c: char) {
    IsLower(c) || IsUpper(c) || IsDigit(c)
  }

  /** Runs of anything but ASCII letters and digits become one blank. This takes in the footnote
      markers, which the source blanks out a step earlier. */
  function Spaced(s: string): string {
    Collapsed(s, IsWordChar, ' ')
  }

  function WithoutMarkers(s: string): (t: string)
    ensures |t| == |s|
  {
    if s == "" then "" else (if s[0] == '*' || s[0] == '\U{2020}' then " " else s[..1]) + WithoutMarkers(s[1..])
  }

  /** The normal form of a name without closed parentheses. */
  function Plain(s: string): string {
    Lower(Trim(Spaced(WithoutMarkers(s))))
  }

  function Normalise(name: string): string {
    Plain(WithoutParentheses(name))
  }

  predicate IsKeyChar(c: char) {
    IsLower(c) || IsDigit(c)
  }

  /** Lower-case words of letters and digits with single blanks between them. */
  ghost predicate Normal(s: string) {
    && (forall i | 0 <= i < |s| :: IsKeyChar(s[i]) || s[i] == ' ')
    && (forall i, j | 0 <= i && j == i + 1 && j < |s| :: !(s[i] == ' ' && s[j] == ' '))
    && (s != "" ==> s[0] != ' ' && s[|s| - 1] != ' ')
  }

  /** Words with single blanks between them, perhaps one at either end. */
  ghost predicate Blanked(s: string) {
    && (forall i | 0 <= i < |s| :: IsWordChar(s[i]) || s[i] == ' ')
    && (forall i, j | 0 <= i && j == i + 1 && j < |s| :: !(s[i] == ' ' && s[j] == ' '))
  }

  lemma {:induction false} SpacedIsBlanked(s: string)
    ensures Blanked(Spaced(s))
    ensures s != "" ==> Spaced(s) != "" && (Spaced(s)[0] == ' ' <==> !IsWordChar(s[0]))
  {
    if s != "" {
      SpacedIsBlanked(s[1..]);
      var rest := Spaced(s[1..]);
      forall i, j | 0 <= i && j == i + 1 && j < |Spaced(s)|
        ensures !(Spaced(s)[i] == ' ' && Spaced(s)[j] == ' ')
      {
        if |Spaced(s)| == |rest| + 1 && i > 0 {
          assert Spaced(s)[i] == rest[i - 1] && Spaced(s)[j] == rest[j - 1];
        }
      }
    }
  }

  lemma BlankedPart(s: string, lo: nat, hi: nat)
    requires Blanked(s) && lo <= hi <= |s|
    ensures Blanked(s[lo..hi])
  {
    var t := s[lo..hi];
    assert forall i | 0 <= i < |t| :: t[i] == s[lo + i];
    forall i, j | 0 <= i && j == i + 1 && j < |t|
      ensures !(t[i] == ' ' && t[j] == ' ')
    {
      assert !(s[lo + i] == ' ' && s[lo + j] == ' ');
    }
  }

  lemma {:induction false} TrimStartBlanked(s: string)
    requires Blanked(s)
    ensures Blanked(TrimStart(s)) && (TrimStart(s) != "" ==> TrimStart(s)[0] != ' ')
  {
    if s != "" && IsSpace(s[0]) {
      BlankedPart(s, 1, |s|);
      TrimStartBlanked(s[1..]);
    }
  }

  lemma {:induction false} TrimEndBlanked(s: string)
    requires Blanked(s) && (s != "" ==> s[0] != ' ')
    ensures var t := TrimEnd(s); Blanked(t) && (t != "" ==> t[0] != ' ' && t[|t| - 1] != ' ')
  {
    if s != "" && IsSpace(s[|s| - 1]) {
      BlankedPart(s, 0, |s| - 1);
      TrimEndBlanked(s[..|s| - 1]);
    }
  }

  lemma LowerIsNormal(s: string)
    requires Blanked(s) && (s != "" ==> s[0] != ' ' && s[|s| - 1] != ' ')
    ensures Normal(Lower(s))
  {
    var t := Lower(s);
    forall i, j | 0 <= i && j == i + 1 && j < |t|
      ensures !(t[i] == ' ' && t[j] == ' ')
    {
      assert !(s[i] == ' ' && s[j] == ' ');
    }
  }

  /** Whatever is printed, its normal form is lower-case words of letters and digits with single blanks
      between them. */
  lemma NormaliseIsNormal(name: string)
    ensures Normal(Normalise(name))
  {
    var plain := WithoutMarkers(WithoutParentheses(name));
    SpacedIsBlanked(plain);
    TrimStartBlanked(Spaced(plain));
    TrimEndBlanked(TrimStart(Spaced(plain)));
    LowerIsNormal(Trim(Spaced(plain)));
  }

  lemma {:induction false} NothingToStrip(s: string)
    requires Blanked(s)
    ensures WithoutParentheses(s) == s && WithoutMarkers(s) == s && Spaced(s) == s
  {
    if s != "" {
      BlankedPart(s, 1, |s|);
      NothingToStrip(s[1..]);
      assert s == s[..1] + s[1..];
      assert IsWordChar(s[0]) || s[0] == ' ';
      if |s| > 1 {
        assert !(s[0] == ' ' && s[1] == ' ');
      }
    }
  }

  /** A normal form is its own normal form, so normalising twice is normalising once. */
  lemma NormaliseIdempotent(name: string)
    ensures Normal(name) ==> Normalise(name) == name
    ensures Normalise(Normalise(name)) == Normalise(name)
  {
    NormaliseIsNormal(name);
    if Normal(name) {
      NormalIsFixed(name);
    }
    NormalIsFixed(Normalise(name));
  }

  lemma NormalParts(s: string)
    requires Normal(s)
    ensures Blanked(s) && Trimmed(s)
    ensures forall i | 0 <= i < |s| :: !IsUpper(s[i])
  {
    if s != "" {
      assert IsKeyChar(s[0]) && IsKeyChar(s[|s| - 1]);
    }
  }

  lemma LowerIsFixed(s: string)
    requires forall i | 0 <= i < |s| :: !IsUpper(s[i])
    ensures Lower(s) == s
  {
  }

  lemma NormalIsFixed(s: string)
    requires Normal(s)
    ensures Normalise(s) == s
  {
    NormalParts(s);
    NothingToStrip(s);
    TrimmedIsFixed(s);
    LowerIsFixed(s);
    hide Normal, Blanked, Trimmed, WithoutParentheses, WithoutMarkers, Spaced, Trim, Lower, IsUpper;
  }

  // ---------------------------------------------------------------------------------------------
  // What the normal form keeps
  // ---------------------------------------------------------------------------------------------

  /** ASCII letters and digits, all of them, or none of them. */
  ghost predicate LettersOnly(s: string) {
    forall i | 0 <= i < |s| :: 'a' <= s[i] <= 'z' || 'A' <= s[i] <= 'Z' || '0' <= s[i] <= '9'
  }

  ghost predicate NoLetters(s: string) {
    forall i | 0 <= i < |s| :: !('a' <= s[i] <= 'z' || 'A' <= s[i] <= 'Z' || '0' <= s[i] <= '9')
  }

  lemma {:induction false} MarkersOfConcat(a: string, b: string)
    ensures WithoutMarkers(a + b) == WithoutMarkers(a) + WithoutMarkers(b)
  {
    if a == "" {
      assert a + b == b;
    } else {
      assert (a + b)[1..] == a[1..] + b && (a + b)[..1] == a[..1];
      MarkersOfConcat(a[1..], b);
    }
  }

  lemma {:induction false} MarkersKeepKind(s: string)
    ensures LettersOnly(s) ==> WithoutMarkers(s) == s
    ensures NoLetters(s) ==> NoLetters(WithoutMarkers(s))
  {
    if s != "" {
      MarkersKeepKind(s[1..]);
      assert s == s[..1] + s[1..];
    }
  }

  lemma TrimStartIsFirst(s: string)
    requires Blanked(s)
    ensures TrimStart(s) == WithoutFirst(s, ' ') && Blanked(WithoutFirst(s, ' '))
  {
    if s != "" {
      if s[0] == ' ' {
        BlankedPart(s, 1, |s|);
        if |s| > 1 {
          assert !(s[0] == ' ' && s[1] == ' ');
          assert IsWordChar(s[1]);
        }
      } else {
        assert IsWordChar(s[0]);
      }
    }
  }

  lemma TrimEndIsLast(s: string)
    requires Blanked(s)
    ensures TrimEnd(s) == WithoutLast(s, ' ')
  {
    if s != "" {
      var n := |s| - 1;
      if s[n] == ' ' {
        if n > 0 {
          assert s[n - 1] != ' ';
          assert IsWordChar(s[n - 1]);
        }
      } else {
        assert IsWordChar(s[n]);
      }
    }
  }

  /** On text with single blanks, trimming takes one blank off either end. */
  lemma TrimIsBare(s: string)
    requires Blanked(s)
    ensures Trim(s) == Bare(s, ' ')
  {
    TrimStartIsFirst(s);
    TrimEndIsLast(WithoutFirst(s, ' '));
    hide TrimStart, TrimEnd, WithoutFirst, WithoutLast, Blanked;
  }

  lemma PlainIsWritten(s: string)
    ensures Plain(s) == Lower(Written(WithoutMarkers(s), IsWordChar, ' '))
  {
    SpacedIsBlanked(WithoutMarkers(s));
    TrimIsBare(Spaced(WithoutMarkers(s)));
    hide Trim, Bare, Blanked, Collapsed;
  }

  lemma LowerOfConcat(a: string, b: string)
    ensures Lower(a + b) == Lower(a) + Lower(b)
  {
  }

  /** A word of letters and digits stays itself, in lower case. */
  lemma WordStays(w: string)
    requires LettersOnly(w)
    ensures Plain(w) == Lower(w)
  {
    MarkersKeepKind(w);
    PlainIsWritten(w);
    assert AllKept(w, IsWordChar);
    WordWritten(w, IsWordChar, ' ');
    hide Plain;
  }

  /** Whatever stands between two letters or digits is one blank; what stands before the first or after
      the last is nothing. With `WordStays` this says what the form of every such text is. */
  lemma RunsAreBlanks(a: string, run: string, b: string)
    requires run != "" && NoLetters(run)
    requires (a == "" || LettersOnly([a[|a| - 1]])) && (b == "" || LettersOnly([b[0]]))
    ensures Plain(a + run + b) == Plain(a) + (if a == "" || b == "" then "" else " ") + Plain(b)
  {
    var a', run', b' := WithoutMarkers(a), WithoutMarkers(run), WithoutMarkers(b);
    MarkersOfConcat(a + run, b);
    MarkersOfConcat(a, run);
    MarkersKeepKind(run);
    assert NoneKept(run', IsWordChar);
    EndStays(a);
    StartStays(b);
    hide WithoutMarkers, Plain, IsWordChar, Collapsed, Bare, Lower;
    RunsWritten(a', run', b', IsWordChar, ' ');
    PlainIsWritten(a + run + b);
    PlainIsWritten(a);
    PlainIsWritten(b);
    BlankLower(Written(a', IsWordChar, ' '), a == "" || b == "", Written(b', IsWordChar, ' '));
  }

  lemma BlankLower(x: string, none: bool, y: string)
    ensures Lower(x + (if none then "" else " ") + y) == Lower(x) + (if none then "" else " ") + Lower(y)
  {
  }

  lemma {:induction false} EndStays(s: string)
    requires s != "" ==> LettersOnly([s[|s| - 1]])
    ensures WithoutMarkers(s) == "" <==> s == ""
    ensures s != "" ==> IsWordChar(WithoutMarkers(s)[|s| - 1])
  {
    if s != "" {
      var init, last := s[..|s| - 1], s[|s| - 1];
      assert s == init + [last];
      MarkersOfConcat(init, [last]);
      MarkersKeepKind([last]);
      assert [last][0] == last;
    }
    hide WithoutMarkers;
  }

  lemma StartStays(s: string)
    requires s != "" ==> LettersOnly([s[0]])
    ensures WithoutMarkers(s) == "" <==> s == ""
    ensures s != "" ==> IsWordChar(WithoutMarkers(s)[0])
  {
    if s != "" {
      assert [s[0]][0] == s[0];
    }
  }

  /** The letters and digits of the normal form, in order, are those of the name outside its closed
      parentheses, in lower case. */
  lemma LettersStay(name: string)
    ensures Filtered(Normalise(name), IsWordChar) == Lower(Filtered(WithoutParentheses(name), IsWordChar))
  {
    var s := WithoutParentheses(name);
    var t := WithoutMarkers(s);
    PlainIsWritten(s);
    CollapsedKeeps(t, IsWordChar, ' ');
    BareKeeps(Collapsed(t, IsWordChar, ' '));
    MarkersFiltered(s);
    LowerFiltered(Written(t, IsWordChar, ' '));
    hide Plain, WithoutParentheses, WithoutMarkers, Collapsed, Bare, Filtered, Lower, IsWordChar;
  }

  lemma {:induction false} FilteredOfConcat(a: string, b: string)
    ensures Filtered(a + b, IsWordChar) == Filtered(a, IsWordChar) + Filtered(b, IsWordChar)
  {
    if a == "" {
      assert a + b == b;
    } else {
      assert (a + b)[1..] == a[1..] + b && (a + b)[..1] == a[..1];
      FilteredOfConcat(a[1..], b);
    }
    hide IsWordChar;
  }

  lemma BareKeeps(s: string)
    ensures Filtered(Bare(s, ' '), IsWordChar) == Filtered(s, IsWordChar)
  {
    var start := WithoutFirst(s, ' ');
    assert Filtered([' '], IsWordChar) == "";
    if start != s {
      assert s == [' '] + start;
      FilteredOfConcat([' '], start);
    }
    var rest := WithoutLast(start, ' ');
    if rest != start {
      assert start == rest + [' '];
      FilteredOfConcat(rest, [' ']);
    }
    hide Filtered;
  }

  lemma {:induction false} MarkersFiltered(s: string)
    ensures Filtered(WithoutMarkers(s), IsWordChar) == Filtered(s, IsWordChar)
  {
    if s != "" {
      MarkersFiltered(s[1..]);
      FilteredOfConcat(if s[0] == '*' || s[0] == '\U{2020}' then " " else s[..1], WithoutMarkers(s[1..]));
      FilteredOfConcat(s[..1], s[1..]);
      assert s == s[..1] + s[1..];
    }
  }

  lemma {:induction false} LowerFiltered(s: string)
    ensures Filtered(Lower(s), IsWordChar) == Lower(Filtered(s, IsWordChar))
  {
    if s != "" {
      LowerFiltered(s[1..]);
      assert Lower(s)[1..] == Lower(s[1..]);
      LowerOfConcat(if IsWordChar(s[0]) then s[..1] else "", Filtered(s[1..], IsWordChar));
    }
  }

  // ---------------------------------------------------------------------------------------------
  // What a closed parenthesis takes out
  // ---------------------------------------------------------------------------------------------

  lemma {:induction false} ClosingIs(s: string, n: nat)
    requires n <= |s| && forall i | 0 <= i < n :: s[i] != ')'
    requires n < |s| ==> s[n] == ')'
    ensures Closing(s) == n
  {
    if n > 0 {
      ClosingIs(s[1..], n - 1);
    }
  }

  /** Without an opening parenthesis that is closed later nothing is taken out. */
  lemma {:induction false} NoneClosed(s: string)
    requires forall i, j | 0 <= i < j < |s| :: !(s[i] == '(' && s[j] == ')')
    ensures WithoutParentheses(s) == s
  {
    if s != "" {
      if s[0] == '(' {
        ClosingIs(s, |s|);
      }
      NoneClosed(s[1..]);
      assert s == s[..1] + s[1..];
    }
  }

  /** The first opening parenthesis that is closed goes, with all up to the first closing one behind it,
      and leaves a blank. */
  lemma {:induction false} FirstClosed(a: string, inner: string, b: string)
    requires '(' !in a && ')' !in inner
    ensures WithoutParentheses(a + "(" + inner + ")" + b) == a + " " + WithoutParentheses(b)
  {
    var s := a + "(" + inner + ")" + b;
    if a == "" {
      assert s == "(" + inner + ")" + b;
      ClosingIs(s, |inner| + 1);
      assert s[|inner| + 2..] == b;
    } else {
      assert s[1..] == a[1..] + "(" + inner + ")" + b && s[..1] == a[..1];
      FirstClosed(a[1..], inner, b);
      assert a == a[..1] + a[1..];
    }
  }

  // ---------------------------------------------------------------------------------------------
  // Look-up
  // ---------------------------------------------------------------------------------------------

  datatype Lookup = Lookup(byIso: map<string, Id>, byName: map<string, Id>)

  function BuildLookup(countries: seq<Country>, upper: string -> string): Lookup {
    if countries == [] then Lookup(map[], map[])
    else
      var rest, last := BuildLookup(countries[..|countries| - 1], upper), countries[|countries| - 1];
      Lookup(rest.byIso[upper(last.code) := last.id], rest.byName[Normalise(last.name) := last.id])
  }

  /** The code in a trailing "(AF)". */
  function IsoFrom(name: string): Option<string> {
    var s := TrimEnd(name);
    if |s| >= 4 && s[|s| - 4] == '(' && IsUpper(s[|s| - 3]) && IsUpper(s[|s| - 2]) && s[|s| - 1] == ')' then
      Some(s[|s| - 3..|s| - 1])
    else None
  }

  lemma {:induction false} TrimEndCuts(s: string, spaces: string)
    requires forall c | c in spaces :: IsSpace(c)
    ensures TrimEnd(s + spaces) == TrimEnd(s)
  {
    if spaces == "" {
      assert s + spaces == s;
    } else {
      assert (s + spaces)[..|s + spaces| - 1] == s + spaces[..|spaces| - 1];
      TrimEndCuts(s, spaces[..|spaces| - 1]);
    }
  }

  /** The code read is the one printed: two capitals in parentheses that nothing but blanks follow. */
  lemma IsoFromExactly(name: string, code: string)
    ensures IsoFrom(name) == Some(code) <==>
            && |code| == 2 && IsUpper(code[0]) && IsUpper(code[1])
            && exists front, spaces :: name == front + "(" + code + ")" + spaces && forall c | c in spaces :: IsSpace(c)
  {
    if IsoFrom(name) == Some(code) {
      var s := TrimEnd(name);
      var n := EndCount(name);
      var spaces := name[n..];
      assert name == s + spaces;
      assert s == s[..|s| - 4] + "(" + code + ")";
      assert name == s[..|s| - 4] + "(" + code + ")" + spaces;
    }
    if |code| == 2 && IsUpper(code[0]) && IsUpper(code[1]) {
      if front, spaces :| name == front + "(" + code + ")" + spaces && forall c | c in spaces :: IsSpace(c) {
        PrintedCodeIsRead(front, code, spaces);
      }
    }
    hide TrimEnd;
  }

  lemma PrintedCodeIsRead(front: string, code: string, spaces: string)
    requires |code| == 2 && IsUpper(code[0]) && IsUpper(code[1]) && forall c | c in spaces :: IsSpace(c)
    ensures IsoFrom(front + "(" + code + ")" + spaces) == Some(code)
  {
    var s := front + "(" + code + ")";
    TrimEndCuts(s, spaces);
    assert TrimEnd(s) == s;
    hide TrimEnd;
    assert s[|s| - 3..|s| - 1] == code;
  }

  function Hint(printed: string, aliases: map<string, string>): Option<string> {
    var iso, key := IsoFrom(printed), Normalise(printed);
    if iso.Some? then iso else if key in aliases then Some(aliases[key]) else None
  }

  /** The printed or curated code first, the normal form after it, and never a guess. */
  function ResolveCountry(printed: string, aliases: map<string, string>, lookup: Lookup): Option<Id> {
    var hint, key := Hint(printed, aliases), Normalise(printed);
    if hint.Some? && hint.value in lookup.byIso then Some(lookup.byIso[hint.value])
    else if key in lookup.byName then Some(lookup.byName[key])
    else None
  }

  /** The last listed country with the code, or with the normal form, has this identifier. */
  ghost predicate LastWithCode(countries: seq<Country>, upper: string -> string, code: string, id: Id) {
    exists k | 0 <= k < |countries| ::
      && upper(countries[k].code) == code && countries[k].id == id
      && forall j | k < j < |countries| :: upper(countries[j].code) != code
  }

  ghost predicate LastWithForm(countries: seq<Country>, key: string, id: Id) {
    exists k | 0 <= k < |countries| ::
      && Normalise(countries[k].name) == key && countries[k].id == id
      && forall j | k < j < |countries| :: Normalise(countries[j].name) != key
  }

  lemma LastCodeOfAppend(init: seq<Country>, last: Country, upper: string -> string, code: string, id: Id)
    ensures LastWithCode(init + [last], upper, code, id) <==>
            if upper(last.code) == code then last.id == id else LastWithCode(init, upper, code, id)
  {
    var all := init + [last];
    assert all[|init|] == last && forall k | 0 <= k < |init| :: all[k] == init[k];
    if upper(last.code) != code && LastWithCode(init, upper, code, id) {
      var k :| 0 <= k < |init| && upper(init[k].code) == code && init[k].id == id
               && forall j | k < j < |init| :: upper(init[j].code) != code;
      assert upper(all[k].code) == code && forall j | k < j < |all| :: upper(all[j].code) != code;
    }
  }

  lemma LastFormOfAppend(init: seq<Country>, last: Country, key: string, id: Id)
    ensures LastWithForm(init + [last], key, id) <==>
            if Normalise(last.name) == key then last.id == id else LastWithForm(init, key, id)
  {
    hide Normalise;
    var all := init + [last];
    assert all[|init|] == last && forall k | 0 <= k < |init| :: all[k] == init[k];
    if Normalise(last.name) != key && LastWithForm(init, key, id) {
      var k :| 0 <= k < |init| && Normalise(init[k].name) == key && init[k].id == id
               && forall j | k < j < |init| :: Normalise(init[j].name) != key;
      assert Normalise(all[k].name) == key && forall j | k < j < |all| :: Normalise(all[j].name) != key;
    }
  }

  lemma {:induction false} CodesHold(countries: seq<Country>, upper: string -> string, code: string)
    ensures var l := BuildLookup(countries, upper);
            && (code in l.byIso <==> exists c | c in countries :: upper(c.code) == code)
            && (code in l.byIso ==> LastWithCode(countries, upper, code, l.byIso[code]))
  {
    hide Normalise, LastWithCode;
    if countries != [] {
      var init, last := countries[..|countries| - 1], countries[|countries| - 1];
      assert countries == init + [last];
      CodesHold(init, upper, code);
      LastCodeOfAppend(init, last, upper, code, BuildLookup(countries, upper).byIso[upper(last.code)]);
      if code in BuildLookup(init, upper).byIso {
        LastCodeOfAppend(init, last, upper, code, BuildLookup(init, upper).byIso[code]);
      }
    }
  }

  lemma {:induction false} FormsHold(countries: seq<Country>, upper: string -> string, key: string)
    ensures var l := BuildLookup(countries, upper);
            && (key in l.byName <==> exists c | c in countries :: Normalise(c.name) == key)
            && (key in l.byName ==> LastWithForm(countries, key, l.byName[key]))
  {
    hide Normalise, LastWithForm;
    if countries != [] {
      var init, last := countries[..|countries| - 1], countries[|countries| - 1];
      assert countries == init + [last];
      FormsHold(init, upper, key);
      LastFormOfAppend(init, last, key, BuildLookup(countries, upper).byName[Normalise(last.name)]);
      if key in BuildLookup(init, upper).byName {
        LastFormOfAppend(init, last, key, BuildLookup(init, upper).byName[key]);
      }
    }
  }

  /** Both maps hold exactly what is listed, the last listed country under a shared key. */
  lemma LookupHolds(countries: seq<Country>, upper: string -> string, code: string, key: string)
    ensures var l := BuildLookup(countries, upper);
            && (code in l.byIso <==> exists c | c in countries :: upper(c.code) == code)
            && (key in l.byName <==> exists c | c in countries :: Normalise(c.name) == key)
            && (code in l.byIso ==> LastWithCode(countries, upper, code, l.byIso[code]))
            && (key in l.byName ==> LastWithForm(countries, key, l.byName[key]))
  {
    CodesHold(countries, upper, code);
    FormsHold(countries, upper, key);
    hide Normalise, LastWithCode, LastWithForm, BuildLookup;
  }

  /** A printed name resolves to a listed country, by its code or by its normal form, exactly when one
      of the two is listed; the code goes first. */
  lemma ResolvesExactlyWhenListed(printed: string, aliases: map<string, string>, countries: seq<Country>,
                                  upper: string -> string)
    ensures var iso, key := IsoFrom(printed), Normalise(printed);
            var hint := if iso.Some? then iso else if key in aliases then Some(aliases[key]) else None;
            var result := ResolveCountry(printed, aliases, BuildLookup(countries, upper));
            if hint.Some? && (exists c | c in countries :: upper(c.code) == hint.value) then
              result.Some? && LastWithCode(countries, upper, hint.value, result.value)
            else if exists c | c in countries :: Normalise(c.name) == key then
              result.Some? && LastWithForm(countries, key, result.value)
            else result.None?
  {
    var hint := Hint(printed, aliases);
    LookupHolds(countries, upper, if hint.Some? then hint.value else "", Normalise(printed));
    hide Normalise, BuildLookup;
  }

  /** Any two spellings with one normal form and no code of their own resolve alike. */
  lemma SameFormSameCountry(printed: string, other: string, aliases: map<string, string>, lookup: Lookup)
    requires Normalise(printed) == Normalise(other)
    requires IsoFrom(printed).None? && IsoFrom(other).None?
    ensures ResolveCountry(printed, aliases, lookup) == ResolveCountry(other, aliases, lookup)
    ensures ResolveCountry(printed, aliases, lookup) == ResolveCountry(Normalise(printed), aliases, lookup)
  {
    NormaliseIsNormal(printed);
    NormaliseIdempotent(printed);
    NormalHasNoCode(Normalise(printed));
  }

  lemma NormalHasNoCode(s: string)
    requires Normal(s)
    ensures IsoFrom(s).None?
  {
    assert TrimEnd(s) == s;
  }
}
