/** The four milestones of a parcel's journey, derived from the carrier's raw scans. */
module Milestones {
  import opened Text
  import opened StableSort

  datatype Status = PickedUp | InTransit | OutForDelivery | Delivered | Other(code: string)

  /** `at` in the functions below is the instant a printed time denotes. */
  datatype Event = Event(status: Status, time: string)

  const SEQUENCE := [PickedUp, InTransit, OutForDelivery, Delivered]

  // ---------------------------------------------------------------------------------------------
  // The derivation
  // ---------------------------------------------------------------------------------------------

  function InstantOf(at: string -> int): Event -> int {
    (e: Event) => at(e.time)
  }

  /** The stable sort, oldest first. */
  function Chronological(events: seq<Event>, at: string -> int): seq<Event> {
    SortBy(events, InstantOf(at))
  }

  /** The first time written for each status. */
  function FirstTimes(events: seq<Event>): map<Status, string> {
    if events == [] then map[]
    else
      var rest, last := FirstTimes(events[..|events| - 1]), events[|events| - 1];
      if last.status in rest then rest else rest[last.status := last.time]
  }

  function NextKnown(first: map<Status, string>, from: nat): Option<string>
    requires from <= |SEQUENCE|
    decreases |SEQUENCE| - from
  {
    if from == |SEQUENCE| then None
    else if SEQUENCE[from] in first && first[SEQUENCE[from]] != "" then Some(first[SEQUENCE[from]])
    else NextKnown(first, from + 1)
  }

  /** The last milestone scanned among the first `n`, or -1. */
  function Highest(first: map<Status, string>, n: nat): int
    requires n <= |SEQUENCE|
  {
    if n == 0 then -1 else if SEQUENCE[n - 1] in first then n - 1 else Highest(first, n - 1)
  }

  function ReachedAt(first: map<Status, string>, i: nat): Option<string>
    requires i < |SEQUENCE|
  {
    if SEQUENCE[i] in first then Some(first[SEQUENCE[i]])
    else if i < Highest(first, |SEQUENCE|) then NextKnown(first, i + 1)
    else None
  }

  function Derived(events: seq<Event>, at: string -> int): (reached: seq<Option<string>>)
    ensures |reached| == |SEQUENCE|
  {
    var first := FirstTimes(Chronological(events, at));
    seq(|SEQUENCE|, i requires 0 <= i < |SEQUENCE| => ReachedAt(first, i))
  }

  method NextKnownTime(first: map<Status, string>, fromIndex: nat) returns (time: Option<string>)
    requires fromIndex < |SEQUENCE|
    ensures time == NextKnown(first, fromIndex + 1)
  {
    for i := fromIndex + 1 to |SEQUENCE|
      invariant NextKnown(first, fromIndex + 1) == NextKnown(first, i)
    {
      if SEQUENCE[i] in first && first[SEQUENCE[i]] != "" {
        return Some(first[SEQUENCE[i]]);
      }
    }
    return None;
  }

  method DeriveMilestones(events: seq<Event>, at: string -> int) returns (reached: seq<Option<string>>)
    ensures reached == Derived(events, at)
  {
    hide Chronological, Highest, NextKnown;
    var chronological := Chronological(events, at);
    var firstTimeByStatus: map<Status, string> := map[];
    for k := 0 to |chronological|
      invariant firstTimeByStatus == FirstTimes(chronological[..k])
    {
      assert chronological[..k + 1][..k] == chronological[..k];
      var event := chronological[k];
      if event.status !in firstTimeByStatus {
        firstTimeByStatus := firstTimeByStatus[event.status := event.time];
      }
    }
    assert chronological[..|chronological|] == chronological;
    var highestReached := Highest(firstTimeByStatus, |SEQUENCE|);
    reached := [];
    for i := 0 to |SEQUENCE|
      invariant |reached| == i && forall k | 0 <= k < i :: reached[k] == ReachedAt(firstTimeByStatus, k)
    {
      var reachedAt := None;
      if SEQUENCE[i] in firstTimeByStatus {
        reachedAt := Some(firstTimeByStatus[SEQUENCE[i]]);
      } else if i < highestReached {
        reachedAt := NextKnownTime(firstTimeByStatus, i);
      }
      reached := reached + [reachedAt];
    }
  }

  // ---------------------------------------------------------------------------------------------
  // What is shown
  // ---------------------------------------------------------------------------------------------

  /** The event is of this status and none of the status is earlier. */
  ghost predicate Earliest(events: seq<Event>, status: Status, at: string -> int, e: Event) {
    e in events && e.status == status && forall o | o in events && o.status == status :: at(e.time) <= at(o.time)
  }

  /** The earliest event of a status; of several as early, the first listed. */
  function FirstScan(events: seq<Event>, status: Status, at: string -> int): Option<Event> {
    if events == [] then None
    else
      var rest, last := FirstScan(events[..|events| - 1], status, at), events[|events| - 1];
      if last.status == status && (rest.None? || at(last.time) < at(rest.value.time)) then Some(last) else rest
  }

  /** The first time listed for one status. */
  function FirstOf(events: seq<Event>, status: Status): Option<string> {
    if events == [] then None
    else
      var rest, last := FirstOf(events[..|events| - 1], status), events[|events| - 1];
      if rest.Some? then rest else if last.status == status then Some(last.time) else None
  }

  lemma {:induction false} FirstTimesLookUp(events: seq<Event>, status: Status)
    ensures FirstOf(events, status) == if status in FirstTimes(events) then Some(FirstTimes(events)[status]) else None
  {
    if events != [] {
      FirstTimesLookUp(events[..|events| - 1], status);
    }
  }

  lemma NothingFirst(status: Status)
    ensures FirstOf([], status) == None
  {
  }

  lemma FirstOfAppend(events: seq<Event>, e: Event, status: Status)
    ensures FirstOf(events + [e], status) ==
            if FirstOf(events, status).Some? then FirstOf(events, status)
            else if e.status == status then Some(e.time) else None
  {
    assert (events + [e])[..|events|] == events;
  }

  lemma {:induction false} FirstOfBounded(sorted: seq<Event>, at: string -> int, status: Status)
    requires Rising(sorted, InstantOf(at)) && FirstOf(sorted, status).Some?
    ensures at(FirstOf(sorted, status).value) <= at(sorted[|sorted| - 1].time)
  {
    if FirstOf(sorted[..|sorted| - 1], status).Some? {
      FirstOfBounded(sorted[..|sorted| - 1], at, status);
    }
  }

  function Earlier(before: Option<string>, time: string, at: string -> int): Option<string> {
    if before.None? || at(time) < at(before.value) then Some(time) else before
  }

  /** Inserting changes a status's first time only when the new event is of that status and earlier. */
  lemma {:induction false} InsertFirst(sorted: seq<Event>, e: Event, at: string -> int, status: Status)
    requires Rising(sorted, InstantOf(at))
    ensures FirstOf(InsertBy(sorted, e, InstantOf(at)), status) ==
            if e.status == status then Earlier(FirstOf(sorted, status), e.time, at) else FirstOf(sorted, status)
  {
    hide FirstOf;
    if sorted == [] || at(sorted[|sorted| - 1].time) <= at(e.time) {
      NothingFirst(status);
      FirstOfAppend(sorted, e, status);
      if FirstOf(sorted, status).Some? {
        FirstOfBounded(sorted, at, status);
      }
    } else {
      var init, last := sorted[..|sorted| - 1], sorted[|sorted| - 1];
      assert sorted == init + [last];
      InsertFirst(init, e, at, status);
      FirstOfAppend(init, last, status);
      FirstOfAppend(InsertBy(init, e, InstantOf(at)), last, status);
    }
  }

  /** The map the sorted scan builds holds each status's earliest time. */
  lemma {:induction false} FirstOfIsFirstScan(events: seq<Event>, at: string -> int, status: Status)
    ensures FirstOf(Chronological(events, at), status) ==
            match FirstScan(events, status, at) case None => None case Some(e) => Some(e.time)
  {
    if events != [] {
      var init, last := events[..|events| - 1], events[|events| - 1];
      FirstOfIsFirstScan(init, at, status);
      SortSorts(init, InstantOf(at));
      InsertFirst(Chronological(init, at), last, at, status);
    }
    hide InsertBy;
  }

  lemma {:induction false} ScanIsEarliest(events: seq<Event>, status: Status, at: string -> int)
    ensures FirstScan(events, status, at).None? <==> forall e | e in events :: e.status != status
    ensures FirstScan(events, status, at).Some? ==> Earliest(events, status, at, FirstScan(events, status, at).value)
  {
    if events != [] {
      var init, last := events[..|events| - 1], events[|events| - 1];
      assert events == init + [last];
      ScanIsEarliest(init, status, at);
    }
  }

  /** A milestone shows its own earliest scan, or else the earliest scan of the nearest later milestone
      that was scanned, or nothing when no later one was. */
  function Shown(events: seq<Event>, at: string -> int, i: nat): Option<string>
    requires i <= |SEQUENCE|
    decreases |SEQUENCE| - i
  {
    if i == |SEQUENCE| then None
    else
      match FirstScan(events, SEQUENCE[i], at)
      case Some(e) => Some(e.time)
      case None => Shown(events, at, i + 1)
  }

  /** Carriers print a time with every scan. */
  ghost predicate Timed(events: seq<Event>) {
    forall e | e in events :: e.time != ""
  }

  lemma {:induction false} NextKnownIsShown(events: seq<Event>, at: string -> int, i: nat)
    requires Timed(events) && i <= |SEQUENCE|
    ensures NextKnown(FirstTimes(Chronological(events, at)), i) == Shown(events, at, i)
    ensures Shown(events, at, i).Some? <==>
            exists j | i <= j < |SEQUENCE| :: SEQUENCE[j] in FirstTimes(Chronological(events, at))
    decreases |SEQUENCE| - i
  {
    if i < |SEQUENCE| {
      NextKnownIsShown(events, at, i + 1);
      FirstOfIsFirstScan(events, at, SEQUENCE[i]);
      FirstTimesLookUp(Chronological(events, at), SEQUENCE[i]);
      ScanIsEarliest(events, SEQUENCE[i], at);
    }
    hide FirstTimes, FirstOf, FirstScan, Chronological;
  }

  lemma {:induction false} HighestIsHighest(first: map<Status, string>, n: nat)
    requires n <= |SEQUENCE|
    ensures -1 <= Highest(first, n) < n
    ensures Highest(first, n) >= 0 ==> SEQUENCE[Highest(first, n)] in first
    ensures forall j | 0 <= j < n && SEQUENCE[j] in first :: j <= Highest(first, n)
  {
    if n > 0 {
      HighestIsHighest(first, n - 1);
    }
  }

  lemma DerivedIsShown(events: seq<Event>, at: string -> int, i: nat)
    requires Timed(events) && i < |SEQUENCE|
    ensures Derived(events, at)[i] == Shown(events, at, i)
  {
    hide FirstTimes, FirstOf, FirstScan, Chronological, Highest, Shown, NextKnown, Timed;
    var first := FirstTimes(Chronological(events, at));
    NextKnownIsShown(events, at, i);
    NextKnownIsShown(events, at, i + 1);
    HighestIsHighest(first, |SEQUENCE|);
    FirstOfIsFirstScan(events, at, SEQUENCE[i]);
    FirstTimesLookUp(Chronological(events, at), SEQUENCE[i]);
    assert SEQUENCE[i] in first ==> ReachedAt(first, i) == Some(first[SEQUENCE[i]]);
    ShownOwn(events, at, i);
  }

  lemma ShownOwn(events: seq<Event>, at: string -> int, i: nat)
    requires i < |SEQUENCE|
    ensures Shown(events, at, i) ==
            if FirstScan(events, SEQUENCE[i], at).Some? then Some(FirstScan(events, SEQUENCE[i], at).value.time)
            else Shown(events, at, i + 1)
  {
  }

  /** The time of a status's earliest scan. */
  function OwnTime(events: seq<Event>, status: Status, at: string -> int): Option<string> {
    match FirstScan(events, status, at) case None => None case Some(e) => Some(e.time)
  }

  function OrElse(own: Option<string>, later: Option<string>): Option<string> {
    if own.Some? then own else later
  }

  /** A scan without a printed time is never used for another milestone. */
  function Printed(time: Option<string>): Option<string> {
    if time == Some("") then None else time
  }

  /** The four milestones by name: each shows its own earliest scan, and else the nearest after it on the
      way from pick-up over transit and the delivery round to delivery. */
  lemma BackFilled(events: seq<Event>, at: string -> int)
    ensures var picked, transit := OwnTime(events, PickedUp, at), OwnTime(events, InTransit, at);
            var out, delivered := OwnTime(events, OutForDelivery, at), OwnTime(events, Delivered, at);
            Derived(events, at) ==
              [OrElse(picked, OrElse(Printed(transit), OrElse(Printed(out), Printed(delivered)))),
               OrElse(transit, OrElse(Printed(out), Printed(delivered))),
               OrElse(out, Printed(delivered)),
               delivered]
  {
    hide FirstTimes, FirstOf, FirstScan, Chronological, Highest;
    var first := FirstTimes(Chronological(events, at));
    forall i | 0 <= i < |SEQUENCE|
      ensures OwnTime(events, SEQUENCE[i], at) == if SEQUENCE[i] in first then Some(first[SEQUENCE[i]]) else None
    {
      FirstOfIsFirstScan(events, at, SEQUENCE[i]);
      FirstTimesLookUp(Chronological(events, at), SEQUENCE[i]);
    }
    HighestIsHighest(first, |SEQUENCE|);
    forall i | 0 <= i < |SEQUENCE|
      ensures ReachedAt(first, i) == OrElse(OwnTime(events, SEQUENCE[i], at), NextKnown(first, i + 1))
    {
      if i >= Highest(first, |SEQUENCE|) {
        NothingLater(first, i + 1);
      }
    }
    assert NextKnown(first, 3) == Printed(OwnTime(events, SEQUENCE[3], at));
  }

  lemma {:induction false} NothingLater(first: map<Status, string>, i: nat)
    requires i <= |SEQUENCE| && forall j | i <= j < |SEQUENCE| :: SEQUENCE[j] !in first
    ensures NextKnown(first, i) == None
    decreases |SEQUENCE| - i
  {
    if i < |SEQUENCE| {
      NothingLater(first, i + 1);
    }
  }

  /** The milestones reached are a beginning of the journey: a reached one has no hole before it. */
  lemma {:induction false} ReachedIsPrefix(events: seq<Event>, at: string -> int, i: nat, j: nat)
    requires Timed(events) && i <= j < |SEQUENCE|
    ensures Derived(events, at)[j].Some? ==> Derived(events, at)[i].Some?
  {
    DerivedIsShown(events, at, i);
    DerivedIsShown(events, at, j);
    NextKnownIsShown(events, at, i);
    NextKnownIsShown(events, at, j);
    hide FirstTimes, Chronological, Derived, Shown;
  }

  // ---------------------------------------------------------------------------------------------
  // The order of the scans
  // ---------------------------------------------------------------------------------------------

  /** Scans of one milestone that tie for the earliest print the same time. */
  ghost predicate TiesPrintAlike(events: seq<Event>, at: string -> int) {
    forall i, x, y |
      0 <= i < |SEQUENCE| && Earliest(events, SEQUENCE[i], at, x) && Earliest(events, SEQUENCE[i], at, y) ::
      x.time == y.time
  }

  lemma EarliestOfPermutation(events: seq<Event>, others: seq<Event>, status: Status, at: string -> int)
    requires multiset(events) == multiset(others)
    ensures forall e :: Earliest(events, status, at, e) <==> Earliest(others, status, at, e)
  {
    assert forall e :: e in events <==> e in multiset(events);
    assert forall e :: e in others <==> e in multiset(others);
  }

  /** The list of scans may come in any order: each milestone shows the same instant, and the same
      text if ties print alike. */
  lemma {:induction false} OrderDoesNotMatter(events: seq<Event>, others: seq<Event>, at: string -> int, i: nat)
    requires multiset(events) == multiset(others) && i <= |SEQUENCE|
    ensures Shown(events, at, i).Some? == Shown(others, at, i).Some?
    ensures Shown(events, at, i).Some? ==> at(Shown(events, at, i).value) == at(Shown(others, at, i).value)
    ensures TiesPrintAlike(events, at) ==> Shown(events, at, i) == Shown(others, at, i)
    decreases |SEQUENCE| - i
  {
    if i < |SEQUENCE| {
      OrderDoesNotMatter(events, others, at, i + 1);
      ShownOwn(events, at, i);
      ShownOwn(others, at, i);
      ScanIsEarliest(events, SEQUENCE[i], at);
      ScanIsEarliest(others, SEQUENCE[i], at);
      EarliestOfPermutation(events, others, SEQUENCE[i], at);
      assert forall e :: e in events <==> e in multiset(events);
      assert forall e :: e in others <==> e in multiset(others);
    }
    hide FirstScan, Shown;
  }

  /** Some order of the same scans lists `x` first. */
  lemma ListedFirst(events: seq<Event>, x: Event) returns (rest: seq<Event>)
    requires x in events
    ensures multiset([x] + rest) == multiset(events)
    ensures forall o | o in rest :: o in events
  {
    var k :| 0 <= k < |events| && events[k] == x;
    rest := events[..k] + events[k + 1..];
    assert events == events[..k] + [x] + events[k + 1..];
  }

  /** Each of two earliest scans of a milestone is the one shown when it is listed first. */
  lemma OrderDecidesTies(events: seq<Event>, at: string -> int, i: nat, x: Event) returns (others: seq<Event>)
    requires Timed(events) && i < |SEQUENCE| && Earliest(events, SEQUENCE[i], at, x)
    ensures multiset(others) == multiset(events) && Timed(others) && Derived(others, at)[i] == Some(x.time)
  {
    var rest := ListedFirst(events, x);
    others := [x] + rest;
    FirstListedWins(x, rest, SEQUENCE[i], at);
    hide Derived, Shown, FirstScan;
    DerivedIsShown(others, at, i);
    ShownOwn(others, at, i);
  }

  /** The printed milestones are the same for every order of the scans exactly when ties print alike. */
  lemma OrderIndependentExactly(events: seq<Event>, at: string -> int)
    requires Timed(events)
    ensures TiesPrintAlike(events, at) <==>
            forall others | multiset(others) == multiset(events) :: Derived(others, at) == Derived(events, at)
  {
    if TiesPrintAlike(events, at) {
      forall others | multiset(others) == multiset(events)
        ensures Derived(others, at) == Derived(events, at)
      {
        SameForPermutation(events, others, at);
      }
    } else {
      var i, x, y :| 0 <= i < |SEQUENCE| && Earliest(events, SEQUENCE[i], at, x) && Earliest(events, SEQUENCE[i], at, y)
        && x.time != y.time;
      var withX := OrderDecidesTies(events, at, i, x);
      var withY := OrderDecidesTies(events, at, i, y);
      assert Derived(withX, at)[i] != Derived(withY, at)[i];
    }
    hide Derived, TiesPrintAlike, Earliest;
  }

  lemma SameForPermutation(events: seq<Event>, others: seq<Event>, at: string -> int)
    requires Timed(events) && TiesPrintAlike(events, at) && multiset(others) == multiset(events)
    ensures Derived(others, at) == Derived(events, at)
  {
    assert forall o | o in others :: o in multiset(others);
    forall i | 0 <= i < |SEQUENCE|
      ensures Derived(others, at)[i] == Derived(events, at)[i]
    {
      OrderDoesNotMatter(events, others, at, i);
      DerivedIsShown(events, at, i);
      DerivedIsShown(others, at, i);
    }
    hide Derived, Shown, TiesPrintAlike;
  }

  lemma {:induction false} FirstListedWins(x: Event, rest: seq<Event>, status: Status, at: string -> int)
    requires x.status == status && forall o | o in rest && o.status == status :: at(x.time) <= at(o.time)
    ensures FirstScan([x] + rest, status, at) == Some(x)
  {
    if rest == [] {
      assert [x] + rest == [x];
    } else {
      assert ([x] + rest)[..|rest|] == [x] + rest[..|rest| - 1];
      FirstListedWins(x, rest[..|rest| - 1], status, at);
    }
  }

  // ---------------------------------------------------------------------------------------------
  // Scans outside the journey
  // ---------------------------------------------------------------------------------------------

  /** The scans that are of some milestone. */
  function OnJourney(events: seq<Event>): seq<Event> {
    if events == [] then []
    else
      var last := events[|events| - 1];
      OnJourney(events[..|events| - 1]) + (if last.status.Other? then [] else [last])
  }

  lemma {:induction false} OthersNeverFirst(events: seq<Event>, status: Status, at: string -> int)
    requires !status.Other?
    ensures FirstScan(OnJourney(events), status, at) == FirstScan(events, status, at)
  {
    if events != [] {
      var init, last := events[..|events| - 1], events[|events| - 1];
      OthersNeverFirst(init, status, at);
      assert OnJourney(init) + [] == OnJourney(init);
      assert (OnJourney(init) + [last])[..|OnJourney(init)|] == OnJourney(init);
    }
  }

  /** The two maps agree on the milestones. */
  ghost predicate SameTimes(first: map<Status, string>, other: map<Status, string>) {
    forall i | 0 <= i < |SEQUENCE| ::
      (SEQUENCE[i] in first <==> SEQUENCE[i] in other)
        && (SEQUENCE[i] in first ==> first[SEQUENCE[i]] == other[SEQUENCE[i]])
  }

  lemma {:induction false} SameNextKnown(first: map<Status, string>, other: map<Status, string>, i: nat)
    requires SameTimes(first, other) && i <= |SEQUENCE|
    ensures NextKnown(first, i) == NextKnown(other, i)
    decreases |SEQUENCE| - i
  {
    if i < |SEQUENCE| {
      SameNextKnown(first, other, i + 1);
    }
  }

  lemma {:induction false} SameHighest(first: map<Status, string>, other: map<Status, string>, n: nat)
    requires SameTimes(first, other) && n <= |SEQUENCE|
    ensures Highest(first, n) == Highest(other, n)
  {
    if n > 0 {
      SameHighest(first, other, n - 1);
    }
  }

  lemma SameReached(first: map<Status, string>, other: map<Status, string>, i: nat)
    requires SameTimes(first, other) && i < |SEQUENCE|
    ensures ReachedAt(first, i) == ReachedAt(other, i)
  {
    SameNextKnown(first, other, i + 1);
    SameHighest(first, other, |SEQUENCE|);
    hide NextKnown, Highest;
  }

  /** Exceptions, and all scans outside the journey, change nothing wherever they stand in the list:
      what is derived is what the other scans alone give, text and all. */
  lemma ExceptionsChangeNothing(events: seq<Event>, at: string -> int)
    ensures Derived(events, at) == Derived(OnJourney(events), at)
  {
    hide FirstOf, FirstScan, Chronological, ReachedAt, OnJourney, FirstTimes;
    var journey := OnJourney(events);
    var first, other := FirstTimes(Chronological(events, at)), FirstTimes(Chronological(journey, at));
    forall i | 0 <= i < |SEQUENCE|
      ensures (SEQUENCE[i] in first <==> SEQUENCE[i] in other)
      ensures (SEQUENCE[i] in first ==> first[SEQUENCE[i]] == other[SEQUENCE[i]])
    {
      OthersNeverFirst(events, SEQUENCE[i], at);
      FirstOfIsFirstScan(events, at, SEQUENCE[i]);
      FirstOfIsFirstScan(journey, at, SEQUENCE[i]);
      FirstTimesLookUp(Chronological(events, at), SEQUENCE[i]);
      FirstTimesLookUp(Chronological(journey, at), SEQUENCE[i]);
    }
    forall i | 0 <= i < |SEQUENCE|
      ensures Derived(events, at)[i] == Derived(journey, at)[i]
    {
      SameReached(first, other, i);
    }
  }
}
