/** Text with every run of unwanted characters written as one mark, and no mark at either end: what
    `replace(/[^...]+/g, mark)` and the trimming after it make of a string. */
module Runs {
  function Collapsed(s: string, kept: char -> bool, mark: char): string {
    if s == "" then ""
    else if kept(s[0]) then s[..1] + Collapsed(s[1..], kept, mark)
    else if |s| > 1 && !kept(s[1]) then Collapsed(s[1..], kept, mark)
    else [mark] + Collapsed(s[1..], kept, mark)
  }

  function WithoutFirst(s: string, mark: char): string {
    if s != "" && s[0] == mark then s[1..] else s
  }

  function WithoutLast(s: string, mark: char): string {
    if s != "" && s[|s| - 1] == mark then s[..|s| - 1] else s
  }

  /** At most one mark gone from either end. */
  function Bare(s: string, mark: char): string {
    WithoutLast(WithoutFirst(s, mark), mark)
  }

  function Written(s: string, kept: char -> bool, mark: char): string {
    Bare(Collapsed(s, kept, mark), mark)
  }

  ghost predicate AllKept(s: string, kept: char -> bool) {
    forall i | 0 <= i < |s| :: kept(s[i])
  }

  ghost predicate NoneKept(s: string, kept: char -> bool) {
    forall i | 0 <= i < |s| :: !kept(s[i])
  }

  lemma {:induction false} KeptStays(s: string, kept: char -> bool, mark: char)
    requires AllKept(s, kept)
    ensures Collapsed(s, kept, mark) == s
  {
    if s != "" {
      KeptStays(s[1..], kept, mark);
      assert s == s[..1] + s[1..];
    }
  }

  lemma {:induction false} RunIsMarked(s: string, kept: char -> bool, mark: char)
    requires s != "" && NoneKept(s, kept)
    ensures Collapsed(s, kept, mark) == [mark]
  {
    if |s| > 1 {
      RunIsMarked(s[1..], kept, mark);
    } else {
      assert s[1..] == "";
    }
  }

  /** Where no run is cut in two, both parts are written apart. */
  lemma {:induction false} CollapsedOfConcat(a: string, b: string, kept: char -> bool, mark: char)
    requires a == "" || b == "" || kept(a[|a| - 1]) || kept(b[0])
    ensures Collapsed(a + b, kept, mark) == Collapsed(a, kept, mark) + Collapsed(b, kept, mark)
  {
    hide Collapsed;
    NothingCollapsed(kept, mark);
    if a == "" {
      assert a + b == b;
    } else if b == "" {
      assert a + b == a;
    } else {
      CollapsedOfConcat(a[1..], b, kept, mark);
      HeadOfConcat(a, b, kept, mark);
      CollapsedHead(a, kept, mark);
      Reassociate(a[..1], [mark], Collapsed(a[1..], kept, mark), Collapsed(b, kept, mark));
    }
  }

  lemma NothingCollapsed(kept: char -> bool, mark: char)
    ensures Collapsed("", kept, mark) == ""
  {
  }

  lemma Reassociate(x: string, y: string, first: string, rest: string)
    ensures x + (first + rest) == x + first + rest && y + (first + rest) == y + first + rest
  {
  }

  /** How the first character goes is decided within the first part. */
  lemma HeadOfConcat(a: string, b: string, kept: char -> bool, mark: char)
    requires a != "" && b != "" && (kept(a[|a| - 1]) || kept(b[0]))
    ensures Collapsed(a + b, kept, mark) ==
            if kept(a[0]) then a[..1] + Collapsed(a[1..] + b, kept, mark)
            else if |a| > 1 && !kept(a[1]) then Collapsed(a[1..] + b, kept, mark)
            else [mark] + Collapsed(a[1..] + b, kept, mark)
  {
    hide Collapsed;
    CollapsedHead(a + b, kept, mark);
    assert (a + b)[1..] == a[1..] + b && (a + b)[..1] == a[..1];
  }

  lemma CollapsedHead(s: string, kept: char -> bool, mark: char)
    requires s != ""
    ensures Collapsed(s, kept, mark) ==
            if kept(s[0]) then s[..1] + Collapsed(s[1..], kept, mark)
            else if |s| > 1 && !kept(s[1]) then Collapsed(s[1..], kept, mark)
            else [mark] + Collapsed(s[1..], kept, mark)
  {
  }

  /** A kept character at an end stays at that end. */
  lemma {:induction false} EndsStay(s: string, kept: char -> bool, mark: char)
    requires s != ""
    ensures var t := Collapsed(s, kept, mark);
            && t != ""
            && t[0] == (if kept(s[0]) then s[0] else mark)
            && t[|t| - 1] == (if kept(s[|s| - 1]) then s[|s| - 1] else mark)
  {
    if |s| > 1 {
      EndsStay(s[1..], kept, mark);
    } else {
      assert s[1..] == "";
    }
  }

  lemma WordWritten(w: string, kept: char -> bool, mark: char)
    requires AllKept(w, kept) && !kept(mark)
    ensures Written(w, kept, mark) == w
  {
    KeptStays(w, kept, mark);
  }

  /** Between two parts that meet a run with kept characters stands one mark; at an end stands none. */
  lemma RunsWritten(a: string, run: string, b: string, kept: char -> bool, mark: char)
    requires run != "" && NoneKept(run, kept) && !kept(mark)
    requires (a == "" || kept(a[|a| - 1])) && (b == "" || kept(b[0]))
    ensures Written(a + run + b, kept, mark) ==
            Written(a, kept, mark) + (if a == "" || b == "" then "" else [mark]) + Written(b, kept, mark)
  {
    hide Collapsed;
    CollapsedOfConcat(a + run, b, kept, mark);
    CollapsedOfConcat(a, run, kept, mark);
    RunIsMarked(run, kept, mark);
    NothingCollapsed(kept, mark);
    if a != "" {
      EndsStay(a, kept, mark);
    }
    if b != "" {
      EndsStay(b, kept, mark);
    }
    BareOfConcat(Collapsed(a, kept, mark), Collapsed(b, kept, mark), mark);
  }

  lemma FirstOfConcat(x: string, y: string, mark: char)
    requires x != ""
    ensures WithoutFirst(x + y, mark) == WithoutFirst(x, mark) + y
  {
    assert (x + y)[1..] == x[1..] + y;
  }

  lemma LastOfConcat(x: string, y: string, mark: char)
    requires y != ""
    ensures WithoutLast(x + y, mark) == x + WithoutLast(y, mark)
  {
    assert (x + y)[..|x + y| - 1] == x + y[..|y| - 1];
  }

  lemma BareOfConcat(x: string, y: string, mark: char)
    requires (x == "" || x[|x| - 1] != mark) && (y == "" || y[0] != mark)
    ensures Bare(x + [mark] + y, mark) == Bare(x, mark) + (if x == "" || y == "" then "" else [mark]) + Bare(y, mark)
  {
    var front := WithoutFirst(x, mark);
    assert x + [mark] + y == x + ([mark] + y);
    assert y != "" ==> WithoutFirst(y, mark) == y;
    assert front != "" ==> front[|front| - 1] == x[|x| - 1];
    if x == "" {
      assert "" + ([mark] + y) == [mark] + y && ([mark] + y)[1..] == y;
      assert x + [mark] + y == [mark] + y;
    } else {
      FirstOfConcat(x, [mark] + y, mark);
      if y == "" {
        assert [mark] + y == [mark];
        LastOfConcat(front, [mark], mark);
        assert front + [] == front;
      } else {
        assert front + ([mark] + y) == front + [mark] + y;
        LastOfConcat(front + [mark], y, mark);
      }
    }
    hide WithoutFirst;
  }

  /** The kept characters, in order. */
  function Filtered(s: string, kept: char -> bool): string {
    if s == "" then "" else (if kept(s[0]) then s[..1] else "") + Filtered(s[1..], kept)
  }

  lemma {:induction false} CollapsedKeeps(s: string, kept: char -> bool, mark: char)
    requires !kept(mark)
    ensures Filtered(Collapsed(s, kept, mark), kept) == Filtered(s, kept)
  {
    if s != "" {
      var rest := Collapsed(s[1..], kept, mark);
      CollapsedKeeps(s[1..], kept, mark);
      if kept(s[0]) {
        assert (s[..1] + rest)[1..] == rest;
      } else {
        assert ([mark] + rest)[1..] == rest;
      }
    }
  }
}
