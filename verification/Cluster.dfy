/** The cluster primary: a supervisor whose handlers interleave arbitrarily with its workers' exits. */
module Cluster {
  import opened Text

  datatype State = State(
    running: nat,      // worker processes alive
    unhandled: nat,    // workers gone whose exit event is still queued
    alive: int,        // the primary's own count
    stopping: bool,
    exited: bool,      // the primary has left
    forks: nat)

  datatype Event = WorkerDies | ExitEvent | StopSignal

  function Started(workers: nat): State {
    State(workers, 0, workers, false, false, workers)
  }

  class Primary {
    var alive: int
    var stopping: bool
    var exited: bool
    var forks: nat

    constructor (workers: nat)
      ensures alive == workers && !stopping && !exited && forks == workers
    {
      forks := workers;
      alive, stopping, exited := workers, false, false;
    }

    /** SIGTERM or SIGINT: remember it; the signal is passed on to the workers, which leave in their
        own time. */
    method OnSignal()
      modifies this
      ensures stopping && alive == old(alive) && exited == old(exited) && forks == old(forks)
    {
      stopping := true;
    }

    /** A worker's exit event: replace it, or count it out once stopping. */
    method OnExit()
      modifies this
      ensures stopping == old(stopping)
      ensures forks == old(forks) + if stopping then 0 else 1
      ensures alive == old(alive) - if stopping then 1 else 0
      ensures exited == (old(exited) || (stopping && alive == 0))
    {
      if stopping {
        alive := alive - 1;
        if alive == 0 {
          exited := true;
        }
        return;
      }
      forks := forks + 1;
    }

    ghost function Now(running: nat, unhandled: nat): State
      reads this
    {
      State(running, unhandled, alive, stopping, exited, forks)
    }

    /** The handlers are the transitions below. */
    method Handle(event: Event, ghost before: State)
      requires !event.WorkerDies? && Enabled(before, event) && Now(before.running, before.unhandled) == before
      modifies this
      ensures var after := Step(before, event); Now(after.running, after.unhandled) == after
    {
      if event.StopSignal? {
        OnSignal();
      } else {
        OnExit();
      }
    }
  }

  predicate Enabled(s: State, event: Event) {
    !s.exited &&
    match event
    case WorkerDies => s.running > 0
    case ExitEvent => s.unhandled > 0
    case StopSignal => true
  }

  function Step(s: State, event: Event): State
    requires Enabled(s, event)
  {
    match event
    case WorkerDies => s.(running := s.running - 1, unhandled := s.unhandled + 1)
    case StopSignal => s.(stopping := true)
    case ExitEvent =>
      if s.stopping then s.(unhandled := s.unhandled - 1, alive := s.alive - 1, exited := s.alive == 1)
      else s.(unhandled := s.unhandled - 1, running := s.running + 1, forks := s.forks + 1)
  }

  /** The state after these events in this order, if each could happen when it did. */
  function After(workers: nat, events: seq<Event>): Option<State> {
    if events == [] then Some(Started(workers))
    else
      var before, event := After(workers, events[..|events| - 1]), events[|events| - 1];
      if before.Some? && Enabled(before.value, event) then Some(Step(before.value, event)) else None
  }

  /** Exit events handled before, and after, the first stop signal. */
  function Replaced(events: seq<Event>): nat {
    if events == [] || StopSignal in events[..|events| - 1]
      then (if events == [] then 0 else Replaced(events[..|events| - 1]))
    else Replaced(events[..|events| - 1]) + if events[|events| - 1] == ExitEvent then 1 else 0
  }

  function CountedOut(events: seq<Event>): nat {
    if events == [] then 0
    else
      CountedOut(events[..|events| - 1]) +
      if StopSignal in events[..|events| - 1] && events[|events| - 1] == ExitEvent then 1 else 0
  }

  /** In every interleaving: the primary's count is the workers alive or awaiting their exit event;
      until a signal that is the configured number, each death replaced by one fork; from the signal
      on nothing is forked, each death counts down by one, and the primary leaves with the last. */
  lemma {:induction false} Supervised(workers: nat, events: seq<Event>)
    requires workers > 1 && After(workers, events).Some?
    ensures var s := After(workers, events).value;
            && s.alive == s.running + s.unhandled == workers - CountedOut(events)
            && s.stopping == (StopSignal in events)
            && s.forks == workers + Replaced(events)
            && s.exited == (CountedOut(events) == workers)
  {
    if events != [] {
      var init, last := events[..|events| - 1], events[|events| - 1];
      assert events == init + [last];
      Supervised(workers, init);
    }
  }

  /** Before a stop the full complement is running or being replaced, and a stop can come at any time. */
  lemma {:induction false} NothingCountedOutBeforeStop(workers: nat, events: seq<Event>)
    requires workers > 1 && After(workers, events).Some? && StopSignal !in events
    ensures var s := After(workers, events).value;
            s.running + s.unhandled == workers && !s.exited && Enabled(s, StopSignal)
  {
    Supervised(workers, events);
    NoneOut(events);
  }

  lemma {:induction false} NoneOut(events: seq<Event>)
    requires StopSignal !in events
    ensures CountedOut(events) == 0
  {
    if events != [] {
      NoneOut(events[..|events| - 1]);
    }
  }

  /** After a stop the primary cannot get stuck: until it has left, a worker can still die or an exit
      event is waiting, and of those exactly 2 * running + unhandled are left. */
  lemma StopDrains(workers: nat, events: seq<Event>)
    requires workers > 1 && After(workers, events).Some? && StopSignal in events
    ensures var s := After(workers, events).value;
            && (s.exited <==> s.running == 0 && s.unhandled == 0)
            && (!s.exited ==> Enabled(s, WorkerDies) || Enabled(s, ExitEvent))
            && (forall e | e in {WorkerDies, ExitEvent} && Enabled(s, e) ::
                  2 * Step(s, e).running + Step(s, e).unhandled == 2 * s.running + s.unhandled - 1)
            && (!s.exited ==> Enabled(s, StopSignal) && Step(s, StopSignal) == s)
  {
    Supervised(workers, events);
  }
}
