/** The hero headline's typewriter: one pure transition, iterated by a timer. */
module Typewriter {

  datatype State = State(index: nat, len: nat, deleting: bool)

  function WordOf(words: seq<string>, s: State): string
    requires words != []
  {
    words[s.index % |words|]
  }

  function Next(s: State, words: seq<string>, reduced: bool): State
    requires words != []
  {
    var word := WordOf(words, s);
    if reduced then (if s.len == |word| then s else s.(len := |word|))
    else if !s.deleting && s.len == |word| then s.(deleting := true)
    else if s.deleting && s.len == 0 then State((s.index + 1) % |words|, 0, false)
    else if s.deleting then s.(len := s.len - 1)
    else s.(len := s.len + 1)
  }

  /** The text never outruns the word. */
  ghost predicate Sound(s: State, words: seq<string>)
    requires words != []
  {
    s.index < |words| && s.len <= |WordOf(words, s)|
  }

  /** Ticks under a motion setting that may change at any of them. */
  function Ticked(s: State, words: seq<string>, reduced: seq<bool>): State
    requires words != []
    decreases |reduced|
  {
    if reduced == [] then s else Ticked(Next(s, words, reduced[0]), words, reduced[1..])
  }

  lemma {:induction false} TicksStaySound(s: State, words: seq<string>, reduced: seq<bool>)
    requires words != [] && Sound(s, words)
    ensures var after := Ticked(s, words, reduced);
            after.index < |words| && after.len <= |words[after.index]|
    decreases |reduced|
  {
    if reduced != [] {
      TicksStaySound(Next(s, words, reduced[0]), words, reduced[1..]);
    }
  }

  function Animated(s: State, words: seq<string>, ticks: nat): State
    requires words != []
    decreases ticks
  {
    if ticks == 0 then s else Animated(Next(s, words, false), words, ticks - 1)
  }

  lemma {:induction false} AnimatedSplits(s: State, words: seq<string>, m: nat, n: nat)
    requires words != []
    ensures Animated(s, words, m + n) == Animated(Animated(s, words, m), words, n)
    decreases m
  {
    if m > 0 {
      AnimatedSplits(Next(s, words, false), words, m - 1, n);
    }
  }

  lemma TypesOne(words: seq<string>, index: nat, len: nat)
    requires words != [] && index < |words| && len <= |words[index]|
    ensures len < |words[index]| ==> Next(State(index, len, false), words, false) == State(index, len + 1, false)
    ensures len > 0 ==> Next(State(index, len, true), words, false) == State(index, len - 1, true)
  {
    assert index % |words| == index;
  }

  lemma {:induction false} Types(words: seq<string>, index: nat, len: nat, more: nat)
    requires words != [] && index < |words| && len + more <= |words[index]|
    ensures Animated(State(index, len, false), words, more) == State(index, len + more, false)
    decreases more
  {
    hide Next;
    if more > 0 {
      TypesOne(words, index, len);
      Types(words, index, len + 1, more - 1);
    }
  }

  lemma {:induction false} Deletes(words: seq<string>, index: nat, len: nat, k: nat)
    requires words != [] && index < |words| && k <= len <= |words[index]|
    ensures Animated(State(index, len, true), words, k) == State(index, len - k, true)
    decreases k
  {
    hide Next;
    if k > 0 {
      TypesOne(words, index, len);
      Deletes(words, index, len - 1, k - 1);
    }
  }

  lemma Turns(words: seq<string>, index: nat)
    requires words != [] && index < |words|
    ensures Animated(State(index, |words[index]|, false), words, 1) == State(index, |words[index]|, true)
    ensures Animated(State(index, 0, true), words, 1) == State((index + 1) % |words|, 0, false)
  {
    assert index % |words| == index;
    var held := State(index, |words[index]|, false);
    assert Animated(Next(held, words, false), words, 0) == Next(held, words, false);
    var gone := State(index, 0, true);
    assert Animated(Next(gone, words, false), words, 0) == Next(gone, words, false);
  }

  /** A word is typed, held for one tick, deleted and left in 2 * length + 2 ticks, no matter which. */
  lemma WordTakes(words: seq<string>, index: nat)
    requires words != [] && index < |words|
    ensures Animated(State(index, 0, false), words, 2 * |words[index]| + 2) == State((index + 1) % |words|, 0, false)
    ensures forall k | 0 <= k < 2 * |words[index]| + 2 ::
              var shown := Animated(State(index, 0, false), words, k);
              shown.index == index && shown.len == if k <= |words[index]| then k else 2 * |words[index]| + 1 - k
  {
    hide Animated, Next;
    var n, start := |words[index]|, State(index, 0, false);
    Turns(words, index);
    Types(words, index, 0, n);
    Deletes(words, index, n, n);
    AnimatedSplits(start, words, n, 1);
    AnimatedSplits(start, words, n + 1, n);
    AnimatedSplits(start, words, 2 * n + 1, 1);
    forall k | 0 <= k < 2 * n + 2
      ensures var shown := Animated(start, words, k);
              shown.index == index && shown.len == if k <= n then k else 2 * n + 1 - k
    {
      if k <= n {
        Types(words, index, 0, k);
      } else {
        AnimatedSplits(start, words, n + 1, k - n - 1);
        Deletes(words, index, n, k - n - 1);
      }
    }
  }

  /** The ticks spent on the first `n` words. */
  function Period(words: seq<string>, n: nat): nat
    requires n <= |words|
  {
    if n == 0 then 0 else Period(words, n - 1) + 2 * |words[n - 1]| + 2
  }

  lemma {:induction false} ReachesWord(words: seq<string>, n: nat)
    requires words != [] && n <= |words|
    ensures Animated(State(0, 0, false), words, Period(words, n)) == State(n % |words|, 0, false)
  {
    hide Animated, Next;
    if n == 0 {
      NoTicks(words);
    } else {
      ReachesWord(words, n - 1);
      assert (n - 1) % |words| == n - 1;
      AnimatedSplits(State(0, 0, false), words, Period(words, n - 1), 2 * |words[n - 1]| + 2);
      WordTakes(words, n - 1);
    }
  }

  lemma NoTicks(words: seq<string>)
    requires words != []
    ensures Animated(State(0, 0, false), words, 0) == State(0, 0, false)
  {
  }

  /** The animation repeats with the period of the whole list, from the start and so for ever after. */
  lemma Cycles(words: seq<string>, ticks: nat)
    requires words != []
    ensures Animated(State(0, 0, false), words, Period(words, |words|) + ticks) ==
            Animated(State(0, 0, false), words, ticks)
  {
    ReachesWord(words, |words|);
    AnimatedSplits(State(0, 0, false), words, Period(words, |words|), ticks);
  }

  /** With reduced motion, one tick from any state shows the whole word and every later one changes
      nothing, so the timer stops. */
  lemma ReducedSettles(s: State, words: seq<string>, more: nat)
    requires words != []
    ensures var settled := Next(s, words, true);
            && settled.len == |WordOf(words, settled)|
            && Ticked(s, words, [true] + seq(more, _ => true)) == settled
  {
    var settled := Next(s, words, true);
    assert ([true] + seq(more, _ => true))[1..] == seq(more, _ => true);
    StaysSettled(settled, words, more);
  }

  lemma {:induction false} StaysSettled(s: State, words: seq<string>, more: nat)
    requires words != [] && s.len == |WordOf(words, s)|
    ensures Ticked(s, words, seq(more, _ => true)) == s
  {
    if more > 0 {
      assert seq(more, _ => true)[1..] == seq(more - 1, _ => true);
      StaysSettled(s, words, more - 1);
    }
  }
}
