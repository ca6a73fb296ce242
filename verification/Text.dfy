/** Characters and strings as the importers' regular expressions see them: ASCII digits, ASCII
    letter case, and the white space of JavaScript's `\s` and `trim`. */
module Text {

  datatype Option<+T> = None | Some(value: T)

  predicate IsDigit(c: char) { '0' <= c <= '9' }

  function DigitValue(c: char): (d: nat)
    requires IsDigit(c)
    ensures d < 10
  {
    c as int - '0' as int
  }

  /** The number a run of digits denotes. */
  function WholeValue(s: string): nat
    requires forall c | c in s :: IsDigit(c)
  {
    if s == "" then 0 else 10 * WholeValue(s[..|s| - 1]) + DigitValue(s[|s| - 1])
  }

  /** A numeral's value, digit by digit from the left. */
  lemma WholeValueExactly(s: string, d: char)
    requires d in "0123456789" && forall c | c in s :: c in "0123456789"
    ensures (forall c | c in s + [d] :: IsDigit(c)) && WholeValue("") == 0
    ensures WholeValue(s + [d]) == 10 * WholeValue(s) + WholeValue([d])
    ensures WholeValue([d]) < 10 && "0123456789"[WholeValue([d])] == d
  {
    assert (s + [d])[..|s|] == s;
    assert [d][..0] == "";
  }

  predicate IsUpper(c: char) { 'A' <= c <= 'Z' }

  predicate IsLower(c: char) { 'a' <= c <= 'z' }

  predicate IsSpace(c: char) {
    c == ' ' || c == '\t' || c == '\n' || c == '\r' || c == '\U{000B}' || c == '\U{000C}' ||
    c == '\U{00A0}' || c == '\U{1680}' || '\U{2000}' <= c <= '\U{200A}' || c == '\U{2028}' ||
    c == '\U{2029}' || c == '\U{202F}' || c == '\U{205F}' || c == '\U{3000}' || c == '\U{FEFF}'
  }

  /** The white space of the language's standard, by code point. */
  lemma SpacesExactly(c: char)
    ensures IsSpace(c) <==>
            || 0x09 <= c as int <= 0x0D || 0x2000 <= c as int <= 0x200A
            || c as int in {0x20, 0xA0, 0x1680, 0x2028, 0x2029, 0x202F, 0x205F, 0x3000, 0xFEFF}
  {
  }

  function LowerChar(c: char): char {
    if IsUpper(c) then c - 'A' + 'a' else c
  }

  function Lower(s: string): (t: string)
    ensures |t| == |s|
    ensures forall i | 0 <= i < |s| :: t[i] == LowerChar(s[i])
  {
    seq(|s|, i requires 0 <= i < |s| => LowerChar(s[i]))
  }

  /** The 26 capitals move thirty-two places up, to the small letters, and all else stays. */
  lemma LowerExactly(s: string, i: nat)
    requires i < |s|
    ensures Lower(s)[i] as int == s[i] as int + if 65 <= s[i] as int <= 90 then 32 else 0
  {
  }

  function TrimStart(s: string): string {
    if s == "" || !IsSpace(s[0]) then s else TrimStart(s[1..])
  }

  function TrimEnd(s: string): string {
    if s == "" || !IsSpace(s[|s| - 1]) then s else TrimEnd(s[..|s| - 1])
  }

  function Trim(s: string): string {
    TrimEnd(TrimStart(s))
  }

  /** A string that neither begins nor ends with white space. */
  predicate Trimmed(s: string) {
    s == "" || (!IsSpace(s[0]) && !IsSpace(s[|s| - 1]))
  }

  lemma TrimIsTrimmed(s: string)
    ensures Trimmed(Trim(s))
  {
    TrimStartTrims(s);
    TrimEndTrims(TrimStart(s));
  }

  ghost predicate Spaces(s: string) {
    forall i | 0 <= i < |s| :: IsSpace(s[i])
  }

  /** Nothing is lost but white space at the ends. */
  lemma TrimExactly(s: string)
    ensures exists front, back :: s == front + Trim(s) + back && Spaces(front) && Spaces(back)
  {
    hide IsSpace, TrimStart, TrimEnd;
    var n := StartCount(s);
    var m := EndCount(s[n..]);
    var front, back := s[..n], s[n..][m..];
    assert s == front + s[n..] && s[n..] == s[n..][..m] + back;
    assert s == front + Trim(s) + back;
  }

  /** The blanks at the start, and where those at the end begin. */
  lemma {:induction false} StartCount(s: string) returns (n: nat)
    ensures n <= |s| && TrimStart(s) == s[n..] && Spaces(s[..n])
  {
    hide IsSpace;
    n := 0;
    if s != "" && IsSpace(s[0]) {
      var m := StartCount(s[1..]);
      n := m + 1;
      assert forall i | 1 <= i < n :: s[i] == s[1..][..m][i - 1];
    }
  }

  lemma {:induction false} EndCount(s: string) returns (n: nat)
    ensures n <= |s| && TrimEnd(s) == s[..n] && Spaces(s[n..])
  {
    hide IsSpace;
    n := |s|;
    if s != "" && IsSpace(s[|s| - 1]) {
      n := EndCount(s[..|s| - 1]);
      assert s[..|s| - 1][..n] == s[..n];
      assert forall i | n <= i < |s| - 1 :: s[i] == s[..|s| - 1][n..][i - n];
    }
  }

  lemma TrimStartTrims(s: string)
    ensures TrimStart(s) != "" ==> !IsSpace(TrimStart(s)[0])
  {
  }

  lemma TrimEndTrims(s: string)
    ensures TrimEnd(s) <= s
    ensures TrimEnd(s) != "" ==> !IsSpace(TrimEnd(s)[|TrimEnd(s)| - 1])
  {
  }

  lemma TrimmedIsFixed(s: string)
    requires Trimmed(s)
    ensures Trim(s) == s
  {
    hide IsSpace;
  }
}
