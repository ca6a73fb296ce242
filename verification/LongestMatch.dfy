/** `[...items].sort((a, b) => length(b) - length(a)).find(matches)`, the idiom behind both the dial
    code and the navigation look-up, and what it finds. */
module LongestMatch {
  import opened Text
  import opened StableSort

  function Shortness<T>(length: T -> nat): T -> int {
    x => -(length(x) as int)
  }

  /** The stable sort, longest first. */
  function LongestFirst<T>(items: seq<T>, length: T -> nat): seq<T> {
    SortBy(items, Shortness(length))
  }

  function Find<T>(items: seq<T>, matches: T -> bool): (found: Option<T>)
    ensures found.Some? ==> found.value in items && matches(found.value)
  {
    if items == [] then None else if matches(items[0]) then Some(items[0]) else Find(items[1..], matches)
  }

  function FindLongest<T>(items: seq<T>, length: T -> nat, matches: T -> bool): Option<T> {
    Find(LongestFirst(items, length), matches)
  }

  /** `items[k]` matches, none matching is longer, and none before it matching is as long. */
  ghost predicate IsFirstLongest<T>(items: seq<T>, length: T -> nat, matches: T -> bool, k: nat)
    requires k < |items|
  {
    && matches(items[k])
    && (forall j | 0 <= j < |items| && matches(items[j]) :: length(items[j]) <= length(items[k]))
    && (forall j | 0 <= j < k && matches(items[j]) :: length(items[j]) < length(items[k]))
  }

  lemma {:induction false} FindOfConcat<T>(a: seq<T>, b: seq<T>, matches: T -> bool)
    ensures Find(a + b, matches) == if Find(a, matches).Some? then Find(a, matches) else Find(b, matches)
  {
    if a == [] {
      assert a + b == b;
    } else {
      assert (a + b)[1..] == a[1..] + b;
      FindOfConcat(a[1..], b, matches);
    }
  }

  lemma FindNothing<T>(matches: T -> bool)
    ensures Find([], matches) == None
    ensures forall x :: Find([x], matches) == if matches(x) then Some(x) else None
  {
  }

  /** Inserting changes what is found only if the new item matches and is longer than what was found. */
  lemma {:induction false} InsertFinds<T>(sorted: seq<T>, item: T, length: T -> nat, matches: T -> bool)
    requires Rising(sorted, Shortness(length))
    ensures Find(InsertBy(sorted, item, Shortness(length)), matches) ==
            var before := Find(sorted, matches);
            if matches(item) && (before.None? || length(before.value) < length(item)) then Some(item) else before
  {
    FindLengths(sorted, length, matches);
    FindNothing(matches);
    hide Find;
    if sorted == [] || length(sorted[|sorted| - 1]) >= length(item) {
      FindOfConcat(sorted, [item], matches);
    } else {
      var init, last := sorted[..|sorted| - 1], sorted[|sorted| - 1];
      InsertFinds(init, item, length, matches);
      FindOfConcat(InsertBy(init, item, Shortness(length)), [last], matches);
      FindOfConcat(init, [last], matches);
      assert sorted == init + [last];
    }
  }

  lemma {:induction false} FindLengths<T>(sorted: seq<T>, length: T -> nat, matches: T -> bool)
    requires Rising(sorted, Shortness(length))
    ensures Find(sorted, matches).Some? ==>
              forall x | x in sorted && matches(x) :: length(x) <= length(Find(sorted, matches).value)
    ensures Find(sorted, matches).Some? ==>
              Find(sorted, matches).value in sorted
                && length(Find(sorted, matches).value) >= length(sorted[|sorted| - 1])
  {
    if sorted != [] {
      FindLengths(sorted[1..], length, matches);
    }
  }

  /** One more item changes what is found only if it matches and is longer. */
  lemma LongestOfAppend<T>(items: seq<T>, length: T -> nat, matches: T -> bool)
    requires items != []
    ensures var before, last := FindLongest(items[..|items| - 1], length, matches), items[|items| - 1];
            FindLongest(items, length, matches) ==
            if matches(last) && (before.None? || length(before.value) < length(last)) then Some(last) else before
  {
    hide Find, InsertBy, Rising;
    SortSorts(items[..|items| - 1], Shortness(length));
    InsertFinds(LongestFirst(items[..|items| - 1], length), items[|items| - 1], length, matches);
  }

  /** The idiom finds the first of the longest matching items, and nothing only when nothing matches. */
  lemma {:induction false} FindsFirstLongest<T>(items: seq<T>, length: T -> nat, matches: T -> bool) returns (k: nat)
    ensures FindLongest(items, length, matches).None? <==> forall x | x in items :: !matches(x)
    ensures FindLongest(items, length, matches).Some? ==>
              && k < |items| && IsFirstLongest(items, length, matches, k)
              && FindLongest(items, length, matches) == Some(items[k])
  {
    k := 0;
    if items == [] {
      NothingLongest(length, matches);
    } else {
      hide FindLongest, IsFirstLongest;
      var n := |items| - 1;
      k := FindsFirstLongest(items[..n], length, matches);
      LongestOfAppend(items, length, matches);
      assert items == items[..n] + [items[n]];
      var found := FindLongest(items[..n], length, matches);
      if matches(items[n]) && (found.None? || length(items[k]) < length(items[n])) {
        LastIsLongest(items, length, matches, k, found.Some?);
        k := n;
      } else if found.Some? {
        FirstStays(items, length, matches, k);
      }
    }
  }

  lemma NothingLongest<T>(length: T -> nat, matches: T -> bool)
    ensures FindLongest([], length, matches) == None
  {
  }

  lemma LastIsLongest<T>(items: seq<T>, length: T -> nat, matches: T -> bool, k: nat, found: bool)
    requires items != [] && matches(items[|items| - 1])
    requires if found then
               && k < |items| - 1 && IsFirstLongest(items[..|items| - 1], length, matches, k)
               && length(items[k]) < length(items[|items| - 1])
             else forall x | x in items[..|items| - 1] :: !matches(x)
    ensures IsFirstLongest(items, length, matches, |items| - 1)
  {
    var init := items[..|items| - 1];
    forall j | 0 <= j < |init| && matches(items[j])
      ensures length(items[j]) < length(items[|items| - 1])
    {
      assert init[j] == items[j];
    }
  }

  lemma FirstStays<T>(items: seq<T>, length: T -> nat, matches: T -> bool, k: nat)
    requires k < |items| - 1 && IsFirstLongest(items[..|items| - 1], length, matches, k)
    requires matches(items[|items| - 1]) ==> length(items[|items| - 1]) <= length(items[k])
    ensures IsFirstLongest(items, length, matches, k)
  {
    var init := items[..|items| - 1];
    forall j | 0 <= j < |init|
      ensures init[j] == items[j]
    {
    }
  }
}
