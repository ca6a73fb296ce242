/** The stable sort the source's `sort` calls perform, by a number each item has. */
module StableSort {
  function InsertBy<T>(sorted: seq<T>, item: T, key: T -> int): seq<T> {
    if sorted == [] || key(sorted[|sorted| - 1]) <= key(item) then sorted + [item]
    else InsertBy(sorted[..|sorted| - 1], item, key) + [sorted[|sorted| - 1]]
  }

  function SortBy<T>(items: seq<T>, key: T -> int): seq<T> {
    if items == [] then [] else InsertBy(SortBy(items[..|items| - 1], key), items[|items| - 1], key)
  }

  ghost predicate Rising<T>(sorted: seq<T>, key: T -> int) {
    forall i, j | 0 <= i < j < |sorted| :: key(sorted[i]) <= key(sorted[j])
  }

  lemma {:induction false} InsertRises<T>(sorted: seq<T>, item: T, key: T -> int)
    requires Rising(sorted, key)
    ensures Rising(InsertBy(sorted, item, key), key)
    ensures forall x | x in InsertBy(sorted, item, key) :: x == item || x in sorted
  {
    if !(sorted == [] || key(sorted[|sorted| - 1]) <= key(item)) {
      var init, last := sorted[..|sorted| - 1], sorted[|sorted| - 1];
      InsertRises(init, item, key);
      forall x | x in InsertBy(init, item, key)
        ensures key(x) <= key(last)
      {
        assert x == item || x in init;
      }
    }
  }

  lemma {:induction false} InsertPermutes<T>(sorted: seq<T>, item: T, key: T -> int)
    ensures multiset(InsertBy(sorted, item, key)) == multiset(sorted) + multiset{item}
  {
    if sorted != [] {
      var init, last := sorted[..|sorted| - 1], sorted[|sorted| - 1];
      assert sorted == init + [last];
      InsertPermutes(init, item, key);
    }
  }

  /** The sort puts every item, once, in rising order. */
  lemma {:induction false} SortSorts<T>(items: seq<T>, key: T -> int)
    ensures Rising(SortBy(items, key), key)
    ensures multiset(SortBy(items, key)) == multiset(items)
  {
    hide Rising;
    if items == [] {
      NothingRises(key);
    } else {
      var init, last := items[..|items| - 1], items[|items| - 1];
      assert items == init + [last];
      SortSorts(init, key);
      InsertRises(SortBy(init, key), last, key);
      InsertPermutes(SortBy(init, key), last, key);
    }
  }

  lemma NothingRises<T>(key: T -> int)
    ensures Rising([], key)
  {
  }

  lemma SortKeepsLength<T>(items: seq<T>, key: T -> int)
    ensures |SortBy(items, key)| == |items|
  {
    SortSorts(items, key);
    hide SortBy;
    assert |multiset(SortBy(items, key))| == |multiset(items)|;
  }
}
