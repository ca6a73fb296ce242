/** Push notifications: one sound per quiet window, with the window's start carried in the notification
    itself. */
module QuietWindow {
  import opened Text

  const QUIET := 10 * 60 * 1000

  /** The notifications on screen by tag, each with the time of the alert it counts from. */
  class ServiceWorker {
    var shown: map<string, int>

    constructor ()
      ensures shown == map[]
    {
      shown := map[];
    }

    method Show(tag: string, now: int) returns (silent: bool, alertedAt: int)
      modifies this
      ensures var before := if tag != "" && tag in old(shown) then Some(old(shown)[tag]) else None;
              var after := Pushed(Screen(before, []), now);
              && silent == (after.alerts == []) && after.shown == Some(alertedAt)
              && shown == if tag == "" then old(shown) else old(shown)[tag := alertedAt]
      ensures var lastAlert := if tag != "" && tag in old(shown) && old(shown)[tag] > 0 then old(shown)[tag] else 0;
              && (silent <==> now < lastAlert + 600_000) && alertedAt == (if silent then lastAlert else now)
    {
      var lastAlert := if tag != "" && tag in shown then Latest(shown[tag]) else 0;
      silent := now - lastAlert < QUIET;
      alertedAt := if silent then lastAlert else now;
      if tag != "" {
        shown := shown[tag := alertedAt];
      }
    }

    method Dismiss(tag: string)
      modifies this
      ensures shown == old(shown) - {tag}
    {
      shown := shown - {tag};
    }
  }

  function Latest(alertedAt: int): int {
    if alertedAt > 0 then alertedAt else 0
  }

  // ---------------------------------------------------------------------------------------------
  // One tag
  // ---------------------------------------------------------------------------------------------

  datatype Event = Push(time: int) | Dismissed

  /** The tag's notification, if any, and the times of the audible alerts so far. */
  datatype Screen = Screen(shown: Option<int>, alerts: seq<int>)

  function Pushed(s: Screen, now: int): Screen {
    var lastAlert := if s.shown.Some? then Latest(s.shown.value) else 0;
    if now - lastAlert < QUIET then s.(shown := Some(lastAlert)) else Screen(Some(now), s.alerts + [now])
  }

  function Step(s: Screen, e: Event): Screen {
    match e
    case Push(time) => Pushed(s, time)
    case Dismissed => s.(shown := None)
  }

  function Run(s: Screen, events: seq<Event>): Screen
    decreases |events|
  {
    if events == [] then s else Run(Step(s, events[0]), events[1..])
  }

  function Pushes(times: seq<int>): seq<Event> {
    seq(|times|, i requires 0 <= i < |times| => Push(times[i]))
  }

  /** The pushes at or after a time. */
  function From(times: seq<int>, start: int): seq<int> {
    if times == [] || times[0] >= start then times else From(times[1..], start)
  }

  /** The windows laid out one after another: each opens with the first push at or after the end of the
      one before. */
  function Windows(times: seq<int>): seq<int>
    decreases |times|
  {
    if times == [] then []
    else
      FromShortens(times[1..], times[0] + QUIET);
      [times[0]] + Windows(From(times[1..], times[0] + QUIET))
  }

  lemma FromShortens(times: seq<int>, start: int)
    ensures |From(times, start)| <= |times|
  {
  }

  /** A clock that does not run backwards, well past 1970. */
  ghost predicate Clock(times: seq<int>) {
    && (forall i | 0 <= i < |times| :: times[i] >= QUIET)
    && (forall i, j | 0 <= i < j < |times| :: times[i] <= times[j])
  }

  lemma PushesOf(times: seq<int>)
    requires times != []
    ensures Pushes(times)[0] == Push(times[0]) && Pushes(times)[1..] == Pushes(times[1..])
  {
  }

  lemma {:induction false} ClockTail(times: seq<int>, start: int)
    requires Clock(times)
    ensures Clock(From(times, start))
    ensures forall t | t in From(times, start) :: t >= start && t in times
  {
    if times != [] && times[0] < start {
      ClockTail(times[1..], start);
    }
  }

  /** Silent pushes neither sound nor move the window: a run within a window goes on to the first push
      at or after its end. */
  lemma {:induction false} SilentUntilEnd(begun: int, alerts: seq<int>, times: seq<int>)
    requires Clock(times) && begun >= QUIET
    ensures Run(Screen(Some(begun), alerts), Pushes(times)) ==
            Run(Screen(Some(begun), alerts), Pushes(From(times, begun + QUIET)))
  {
    if times != [] && times[0] < begun + QUIET {
      PushesOf(times);
      SilentUntilEnd(begun, alerts, times[1..]);
    }
  }

  lemma FirstSounds(times: seq<int>, s: Screen)
    requires Clock(times) && times != []
    requires s.shown.None? || times[0] >= Latest(s.shown.value) + QUIET
    ensures Run(s, Pushes(times)) == Run(Screen(Some(times[0]), s.alerts + [times[0]]), Pushes(times[1..]))
  {
    PushesOf(times);
  }

  /** Over any run of pushes without a dismissal, the sounds are exactly the openings of the windows,
      and the notification always carries the last of them. */
  lemma {:induction false} SoundsOpenWindows(times: seq<int>, s: Screen)
    requires Clock(times)
    requires s.shown.None? || times == [] || times[0] >= Latest(s.shown.value) + QUIET
    ensures var after := Run(s, Pushes(times));
            && after.alerts == s.alerts + Windows(times)
            && after.shown == if times == [] then s.shown else Some(Windows(times)[|Windows(times)| - 1])
    decreases |times|
  {
    hide From, Run, Pushes, Windows;
    WindowsNext(times);
    if times == [] {
      NothingSounds(s);
    } else {
      var begun := times[0];
      var rest := From(times[1..], begun + QUIET);
      var next := Screen(Some(begun), s.alerts + [begun]);
      FirstSounds(times, s);
      ClockTail(times[1..], begun + QUIET);
      SilentUntilEnd(begun, next.alerts, times[1..]);
      FromShortens(times[1..], begun + QUIET);
      if rest != [] {
        assert rest[0] in rest;
      }
      SoundsOpenWindows(rest, next);
      WindowsNext(rest);
      assert s.alerts + [begun] + Windows(rest) == s.alerts + Windows(times);
    }
  }

  lemma WindowsNext(times: seq<int>)
    ensures times == [] ==> Windows(times) == []
    ensures times != [] ==> Windows(times) == [times[0]] + Windows(From(times[1..], times[0] + QUIET))
  {
  }

  lemma NothingSounds(s: Screen)
    ensures Run(s, Pushes([])) == s
  {
  }

  /** Sounds are at least a quiet window apart, and every push falls within a window some sound opened:
      there is neither one too many nor one too few. */
  lemma SoundsAreSpacedAndCover(times: seq<int>)
    requires Clock(times)
    ensures var sounds := Windows(times);
            && (forall i | 0 < i < |sounds| :: sounds[i] >= sounds[i - 1] + 600_000)
            && (forall t | t in times :: exists k | 0 <= k < |sounds| :: sounds[k] <= t < sounds[k] + 600_000)
            && (forall k | 0 <= k < |sounds| :: sounds[k] in times)
  {
    hide Windows, Clock;
    AllSpaced(times);
    AllCovered(times);
    WindowsArePushes(times);
  }

  lemma AllSpaced(times: seq<int>)
    requires Clock(times)
    ensures forall i | 0 < i < |Windows(times)| :: Windows(times)[i] >= Windows(times)[i - 1] + QUIET
  {
    hide Windows, Clock;
    forall i | 0 < i < |Windows(times)|
      ensures Windows(times)[i] >= Windows(times)[i - 1] + QUIET
    {
      WindowsSpaced(times, i);
    }
  }

  lemma AllCovered(times: seq<int>)
    requires Clock(times)
    ensures forall t | t in times ::
              exists k | 0 <= k < |Windows(times)| :: Windows(times)[k] <= t < Windows(times)[k] + QUIET
  {
    hide Windows, Clock;
    forall t | t in times
      ensures exists k | 0 <= k < |Windows(times)| :: Windows(times)[k] <= t < Windows(times)[k] + QUIET
    {
      var k := WindowsCover(times, t);
    }
  }

  lemma {:induction false} WindowsSpaced(times: seq<int>, i: nat)
    requires Clock(times) && 0 < i < |Windows(times)|
    ensures Windows(times)[i] >= Windows(times)[i - 1] + QUIET
    decreases |times|
  {
    var rest := From(times[1..], times[0] + QUIET);
    ClockTail(times[1..], times[0] + QUIET);
    FromShortens(times[1..], times[0] + QUIET);
    assert Windows(times) == [times[0]] + Windows(rest);
    if i == 1 {
      assert Windows(rest)[0] == rest[0] && rest[0] in rest;
    } else {
      WindowsSpaced(rest, i - 1);
    }
  }

  lemma {:induction false} WindowsArePushes(times: seq<int>)
    requires Clock(times)
    ensures forall k | 0 <= k < |Windows(times)| :: Windows(times)[k] in times
    decreases |times|
  {
    if times != [] {
      ClockTail(times[1..], times[0] + QUIET);
      FromShortens(times[1..], times[0] + QUIET);
      WindowsArePushes(From(times[1..], times[0] + QUIET));
    }
  }

  lemma {:induction false} WindowsCover(times: seq<int>, t: int) returns (k: nat)
    requires Clock(times) && t in times
    ensures k < |Windows(times)| && Windows(times)[k] <= t < Windows(times)[k] + QUIET
    decreases |times|
  {
    var rest := From(times[1..], times[0] + QUIET);
    ClockTail(times[1..], times[0] + QUIET);
    FromShortens(times[1..], times[0] + QUIET);
    assert Windows(times) == [times[0]] + Windows(rest);
    if t < times[0] + QUIET {
      k := 0;
    } else {
      LaterIsFrom(times[1..], times[0] + QUIET, t);
      k := WindowsCover(rest, t);
      k := k + 1;
    }
  }

  lemma {:induction false} LaterIsFrom(times: seq<int>, start: int, t: int)
    requires t in times && t >= start
    ensures t in From(times, start)
  {
    if times[0] < start {
      LaterIsFrom(times[1..], start, t);
    }
  }

  lemma {:induction false} RunOfConcat(s: Screen, a: seq<Event>, b: seq<Event>)
    ensures Run(s, a + b) == Run(Run(s, a), b)
    decreases |a|
  {
    if a == [] {
      assert a + b == b;
    } else {
      assert (a + b)[1..] == a[1..] + b;
      RunOfConcat(Step(s, a[0]), a[1..], b);
    }
  }

  /** Dismissing the notification forgets its window: what follows sounds as if nothing had come before,
      so only across a dismissal can two sounds be closer than the window. */
  lemma DismissalStartsOver(s: Screen, before: seq<Event>, times: seq<int>)
    requires Clock(times)
    ensures Run(s, before + [Dismissed] + Pushes(times)).alerts == Run(s, before).alerts + Windows(times)
  {
    RunOfConcat(s, before + [Dismissed], Pushes(times));
    RunOfConcat(s, before, [Dismissed]);
    var reached := Run(s, before);
    assert [Dismissed][1..] == [];
    assert Run(reached, [Dismissed]) == reached.(shown := None);
    SoundsOpenWindows(times, reached.(shown := None));
  }
}
