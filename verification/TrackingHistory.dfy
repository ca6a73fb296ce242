/** The visitor's recent look-ups: a short list kept in browser storage that other code may have
    written junk to and that may refuse to be written. */
module TrackingHistory {
  import opened Text

  const LIMIT := 8

  datatype Json = Str(text: string) | Other

  datatype Stored = Missing | Unreadable | Items(items: seq<Json>)

  function Texts(items: seq<Json>): seq<string> {
    if items == [] then []
    else
      Texts(items[..|items| - 1]) +
      (if items[|items| - 1].Str? && items[|items| - 1].text != "" then [items[|items| - 1].text] else [])
  }

  function Take(list: seq<string>, n: nat): seq<string> {
    if |list| <= n then list else list[..n]
  }

  /** Whatever is stored, reading it yields at most eight non-empty strings. */
  function Read(stored: Stored): (list: seq<string>)
    ensures |list| <= LIMIT
  {
    if stored.Items? then Take(Texts(stored.items), LIMIT) else []
  }

  function Without(list: seq<string>, value: string): seq<string> {
    if list == [] then []
    else (if list[0] == value then [] else [list[0]]) + Without(list[1..], value)
  }

  /** Moved to the front of the list, which is then cut to length. */
  function Remembered(list: seq<string>, value: string): seq<string> {
    Take([value] + Without(list, value), LIMIT)
  }

  class Browser {
    var storage: Stored

    constructor ()
      ensures storage == Missing
    {
      storage := Missing;
    }

    method Remember(trackingNumber: string, writable: bool) returns (list: seq<string>)
      modifies this
      ensures var value := Trim(trackingNumber);
              && list == (if value == "" then Read(old(storage)) else Remembered(Read(old(storage)), value))
              && (value == "" || !writable ==> storage == old(storage))
              && (value != "" && writable ==> Read(storage) == list)
    {
      var value := Trim(trackingNumber);
      if value == "" {
        return Read(storage);
      }
      list := Remembered(Read(storage), value);
      if writable {
        ReadNotBlank(storage);
        WithoutNotBlank(Read(storage), value);
        StoredReadsBack(list);
        storage := Items(seq(|list|, i requires 0 <= i < |list| => Str(list[i])));
      }
    }

    method Clear()
      modifies this
      ensures Read(storage) == []
    {
      storage := Missing;
    }

    /** After any look-ups in a fresh browser, with storage refusing some of the writes: the list is
        the last eight distinct numbers among those it accepted, most recent first. */
    method RememberAll(lookups: seq<string>, writable: seq<bool>)
      requires |writable| == |lookups| && storage == Missing
      modifies this
      ensures var recent := Recent(Accepted(lookups, writable, |lookups|));
              Read(storage) == if |recent| <= 8 then recent else recent[..8]
    {
      hide Trim, Recent, Remembered, Read;
      NothingRecent(storage);
      for i := 0 to |lookups|
        invariant Read(storage) == Take(Recent(Accepted(lookups, writable, i)), LIMIT)
      {
        ghost var before := Accepted(lookups, writable, i);
        var list := Remember(lookups[i], writable[i]);
        RememberedNext(before, lookups[i]);
        assert before + [] == before;
      }
    }
  }

  lemma NothingRecent(storage: Stored)
    requires storage == Missing
    ensures Read(storage) == Take(Recent([]), LIMIT)
  {
  }

  lemma RememberedNext(history: seq<string>, lookup: string)
    ensures Take(Recent(history + [lookup]), LIMIT) ==
            if Trim(lookup) == "" then Take(Recent(history), LIMIT)
              else Remembered(Take(Recent(history), LIMIT), Trim(lookup))
  {
    if Trim(lookup) == "" {
      BlankLosesNothing(history, lookup);
    } else {
      TruncationLosesNothing(history, lookup);
    }
    hide Recent, Remembered, Take, Trim;
  }

  /** Of what is stored, the non-empty strings count, in order, and the first eight of them are read. */
  lemma {:induction false} ReadExactly(a: seq<Json>, b: seq<Json>, item: Json)
    ensures Texts([item]) == (match item case Str(text) => if text == "" then [] else [text] case Other => [])
    ensures Texts(a + b) == Texts(a) + Texts(b)
    ensures Read(Items(a)) == if |Texts(a)| <= 8 then Texts(a) else Texts(a)[..8]
    ensures Read(Missing) == [] && Read(Unreadable) == []
    decreases |b|
  {
    assert [item][..0] == [];
    if b == [] {
      assert a + b == a;
    } else {
      assert (a + b)[..|a + b| - 1] == a + b[..|b| - 1];
      ReadExactly(a, b[..|b| - 1], item);
    }
  }

  lemma StoredReadsBack(list: seq<string>)
    requires |list| <= LIMIT && "" !in list
    ensures Read(Items(seq(|list|, i requires 0 <= i < |list| => Str(list[i])))) == list
  {
    TextsOfStrings(list);
  }

  lemma {:induction false} TextsOfStrings(list: seq<string>)
    requires "" !in list
    ensures Texts(seq(|list|, i requires 0 <= i < |list| => Str(list[i]))) == list
  {
    var items := seq(|list|, i requires 0 <= i < |list| => Str(list[i]));
    if list != [] {
      var init := list[..|list| - 1];
      TextsOfStrings(init);
      assert items[..|items| - 1] == seq(|init|, i requires 0 <= i < |init| => Str(init[i]));
    }
  }

  lemma {:induction false} TextsNotBlank(items: seq<Json>)
    ensures "" !in Texts(items)
  {
    if items != [] {
      TextsNotBlank(items[..|items| - 1]);
    }
  }

  lemma ReadNotBlank(stored: Stored)
    ensures "" !in Read(stored)
  {
    if stored.Items? {
      TextsNotBlank(stored.items);
    }
  }

  lemma {:induction false} WithoutNotBlank(list: seq<string>, value: string)
    requires "" !in list
    ensures "" !in Without(list, value)
  {
    if list != [] {
      WithoutNotBlank(list[1..], value);
    }
  }

  // ---------------------------------------------------------------------------------------------
  // What the list means
  // ---------------------------------------------------------------------------------------------

  /** The first `n` look-ups, less those whose write was refused. */
  function Accepted(lookups: seq<string>, writable: seq<bool>, n: nat): seq<string>
    requires n <= |lookups| == |writable|
  {
    if n == 0 then [] else Accepted(lookups, writable, n - 1) + if writable[n - 1] then [lookups[n - 1]] else []
  }

  /** Every distinct number of a history, most recently used first, however many there are. */
  function Recent(history: seq<string>): seq<string> {
    if history == [] then []
    else
      var rest, value := Recent(history[..|history| - 1]), Trim(history[|history| - 1]);
      if value == "" then rest else [value] + Without(rest, value)
  }

  ghost predicate Distinct(list: seq<string>) {
    forall i, j | 0 <= i < j < |list| :: list[i] != list[j]
  }

  lemma {:induction false} WithoutKeeps(list: seq<string>, value: string)
    ensures value !in Without(list, value)
    ensures forall x :: x in Without(list, value) <==> x in list && x != value
    ensures value !in list ==> Without(list, value) == list
    ensures Distinct(list) ==> Distinct(Without(list, value)) && |Without(list, value)| >= |list| - 1
  {
    if list != [] {
      var tail := list[1..];
      WithoutKeeps(tail, value);
      assert list == [list[0]] + tail;
      if Distinct(list) {
        assert forall j | 0 <= j < |tail| :: tail[j] == list[j + 1];
        assert list[0] !in tail && Distinct(tail);
      }
    }
  }

  lemma {:induction false} WithoutOfConcat(a: seq<string>, b: seq<string>, value: string)
    ensures Without(a + b, value) == Without(a, value) + Without(b, value)
  {
    if a == [] {
      assert a + b == b;
    } else {
      assert (a + b)[1..] == a[1..] + b;
      WithoutOfConcat(a[1..], b, value);
    }
  }

  lemma {:induction false} RecentDistinct(history: seq<string>)
    ensures Distinct(Recent(history)) && "" !in Recent(history)
  {
    if history != [] {
      var rest := Recent(history[..|history| - 1]);
      RecentDistinct(history[..|history| - 1]);
      WithoutKeeps(rest, Trim(history[|history| - 1]));
    }
  }

  lemma BlankLosesNothing(history: seq<string>, lookup: string)
    requires Trim(lookup) == ""
    ensures Recent(history + [lookup]) == Recent(history)
  {
    assert (history + [lookup])[..|history|] == history;
  }

  /** Cutting the list at every step gives what cutting the whole history's list once would. */
  lemma TruncationLosesNothing(history: seq<string>, lookup: string)
    requires Trim(lookup) != ""
    ensures Remembered(Take(Recent(history), 8), Trim(lookup)) == Take(Recent(history + [lookup]), 8)
  {
    var list, value := Recent(history), Trim(lookup);
    assert (history + [lookup])[..|history|] == history;
    RecentDistinct(history);
    if |list| > LIMIT {
      assert list == list[..LIMIT] + list[LIMIT..];
      WithoutOfConcat(list[..LIMIT], list[LIMIT..], value);
      WithoutKeeps(list[..LIMIT], value);
    }
  }

  /** The position of the last use of a number in a history, 0 when it was never used. */
  function LastUse(history: seq<string>, value: string): nat {
    if history == [] then 0
    else if Trim(history[|history| - 1]) == value then |history|
    else LastUse(history[..|history| - 1], value)
  }

  /** The list holds exactly the numbers used. */
  ghost predicate HoldsUsed(history: seq<string>, list: seq<string>) {
    forall x :: x in list <==> x != "" && LastUse(history, x) > 0
  }

  /** It holds them in falling order of their last use. */
  ghost predicate FallingUse(history: seq<string>, list: seq<string>) {
    forall i, j | 0 <= i < j < |list| :: LastUse(history, list[i]) > LastUse(history, list[j])
  }

  lemma {:induction false} RecentByLastUse(history: seq<string>)
    ensures HoldsUsed(history, Recent(history)) && FallingUse(history, Recent(history))
  {
    hide HoldsUsed, FallingUse, Trim, Without;
    if history == [] {
      NothingUsed();
    } else {
      var init, last := history[..|history| - 1], history[|history| - 1];
      RecentByLastUse(init);
      assert init + [last] == history;
      if Trim(last) == "" {
        BlankUse(init, Recent(init), last);
      } else {
        MovedToFront(init, Recent(init), last);
      }
    }
  }

  lemma NothingUsed()
    ensures HoldsUsed([], []) && FallingUse([], [])
  {
  }

  lemma LastUseOfAppend(init: seq<string>, last: string, x: string)
    ensures LastUse(init + [last], x) == if Trim(last) == x then |init| + 1 else LastUse(init, x)
  {
    assert (init + [last])[..|init|] == init;
  }

  lemma {:induction false} LastUseBounded(history: seq<string>, x: string)
    ensures LastUse(history, x) <= |history|
  {
    if history != [] {
      LastUseBounded(history[..|history| - 1], x);
    }
  }

  lemma BlankUse(init: seq<string>, list: seq<string>, last: string)
    requires HoldsUsed(init, list) && FallingUse(init, list) && Trim(last) == ""
    ensures HoldsUsed(init + [last], list) && FallingUse(init + [last], list)
  {
    forall x
      ensures x != "" ==> LastUse(init + [last], x) == LastUse(init, x)
    {
      LastUseOfAppend(init, last, x);
    }
    hide LastUse, Trim;
  }

  /** Using a number moves it to the front and leaves the order of the others. */
  lemma MovedToFront(init: seq<string>, list: seq<string>, last: string)
    requires HoldsUsed(init, list) && FallingUse(init, list) && Trim(last) != ""
    ensures HoldsUsed(init + [last], [Trim(last)] + Without(list, Trim(last)))
    ensures FallingUse(init + [last], [Trim(last)] + Without(list, Trim(last)))
  {
    var value := Trim(last);
    WithoutKeeps(list, value);
    WithoutFalls(init, list, value);
    forall x
      ensures LastUse(init + [last], x) == if value == x then |init| + 1 else LastUse(init, x)
      ensures LastUse(init, x) <= |init|
    {
      LastUseOfAppend(init, last, x);
      LastUseBounded(init, x);
    }
    FrontFalls(init, last, Without(list, value));
    hide LastUse, Trim, Without, FallingUse;
  }

  lemma FrontFalls(init: seq<string>, last: string, kept: seq<string>)
    requires FallingUse(init, kept) && Trim(last) !in kept
    requires forall x :: LastUse(init, x) <= |init|
    requires forall x :: LastUse(init + [last], x) == if Trim(last) == x then |init| + 1 else LastUse(init, x)
    ensures FallingUse(init + [last], [Trim(last)] + kept)
  {
    hide LastUse, Trim;
  }

  lemma TailFalls(history: seq<string>, list: seq<string>)
    requires list != [] && FallingUse(history, list)
    ensures FallingUse(history, list[1..])
    ensures forall x | x in list[1..] :: LastUse(history, list[0]) > LastUse(history, x)
  {
    hide LastUse;
    var tail := list[1..];
    assert forall j | 0 <= j < |tail| :: tail[j] == list[j + 1];
  }

  lemma HeadFalls(history: seq<string>, head: string, rest: seq<string>)
    requires FallingUse(history, rest) && forall x | x in rest :: LastUse(history, head) > LastUse(history, x)
    ensures FallingUse(history, [head] + rest)
  {
    hide LastUse;
  }

  lemma {:induction false} WithoutFalls(history: seq<string>, list: seq<string>, value: string)
    requires FallingUse(history, list)
    ensures FallingUse(history, Without(list, value))
  {
    hide LastUse, FallingUse;
    if list != [] {
      var tail := list[1..];
      TailFalls(history, list);
      WithoutFalls(history, tail, value);
      WithoutKeeps(tail, value);
      HeadFalls(history, list[0], Without(tail, value));
      assert [] + Without(tail, value) == Without(tail, value);
    }
  }
}
