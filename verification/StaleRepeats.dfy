/** What becomes of a loop that an abort segment ends, if it is entered again: its repeat has only the jumps left that it had then. */
module StaleRepeats {
  import opened RepeatSemantics
  import opened Programs

  /** The list that a program is sent as starts what the program starts, whatever the abort segments do. */
  ghost predicate AlwaysMeansProgram(p: Program) {
    forall skips: set<nat> :: RunsThrough(Flatten(p, 0), skips, Trace(p, 0, 0, skips))
  }

  // ----- The rest of a round -----

  /** What a loop that has just done its body still starts, if it can jump back k more times and no abort segment skips. */
  ghost function RestUnrolled(p: Program, k: nat, base: nat): seq<nat>
    requires p.Loop?
  {
    Range(EndAt(p.body, base), p.guards + 1) + RoundsUnrolled(p, k, base)
  }

  /** The rest of a loop and what follows it. */
  ghost function TailUnrolled(p: Program, k: nat, base: nat): seq<nat>
    requires p.Loop?
  {
    RestUnrolled(p, k, base) + Unrolled(p.next, RepeatAt(p, base) + 1)
  }

  /** The abort segments in front of a repeat do not skip. */
  lemma QuietRepeat(cmds: seq<Command>, rem: seq<nat>, p: Program, base: nat, k: nat, n: nat, skips: set<nat>)
    requires p.Loop? && Sits(cmds, rem, p, base) && k <= p.count && Quiet(skips, n, p.guards + 1)
    ensures var j, mid := RepeatAt(p, base), EndAt(p.body, base);
      j < |rem| &&
      if k == 0 then Does(cmds, rem[j := k], mid, n, skips, Range(mid, p.guards + 1), j + 1, rem[j := p.count])
      else Does(cmds, rem[j := k], mid, n, skips, Range(mid, p.guards + 1), base, rem[j := k - 1])
  {
    var j, mid := RepeatAt(p, base), EndAt(p.body, base);
    SitsParts(cmds, rem, p, base);
    QuietGuards(mid, p.guards, n, skips);
    if k == 0 {
      assert rem[j := k][j := p.count] == rem[j := p.count];
      FlatGuards(cmds, rem[j := k], mid, p.guards, n, skips, j + 1, rem[j := p.count]);
    } else {
      assert rem[j := k][j := k - 1] == rem[j := k - 1];
      FlatGuards(cmds, rem[j := k], mid, p.guards, n, skips, base, rem[j := k - 1]);
    }
  }

  /** The program is in the list; its repeats may be in any state. */
  ghost predicate Sits(cmds: seq<Command>, rem: seq<nat>, p: Program, base: nat) {
    ValidList(cmds) && ValidRemaining(cmds, rem) && WellFormed(p) && Occupies(cmds, p, base)
  }

  lemma SitsParts(cmds: seq<Command>, rem: seq<nat>, p: Program, base: nat)
    requires p.Loop? && Sits(cmds, rem, p, base)
    ensures var j := RepeatAt(p, base);
      j < |rem| && j < |cmds| && cmds[j] == Repeat(base, p.count) && Guarded(cmds, EndAt(p.body, base), p.guards) && ValidAt(cmds, j)
  {
  }

  /** A loop with k jumps left goes round k + 1 times, and is then fresh. */
  lemma {:induction false} QuietLoop(cmds: seq<Command>, rem: seq<nat>, p: Program, base: nat, k: nat, n: nat, skips: set<nat>)
    requires p.Loop? && Ready(cmds, rem, p, base) && k <= p.count && Quiet(skips, n, |RoundsUnrolled(p, k + 1, base)|)
    ensures var j := RepeatAt(p, base);
      j < |rem| && Does(cmds, rem[j := k], base, n, skips, RoundsUnrolled(p, k + 1, base), j + 1, rem)
    decreases k, 1
  {
    var j, body := RepeatAt(p, base), Unrolled(p.body, base);
    BodyReady(cmds, rem, p, base, k);
    RoundsSplit(p, k, base);
    QuietParts(skips, n, |body|, |RestUnrolled(p, k, base)|);
    FlatQuiet(cmds, rem[j := k], p.body, base, n, skips);
    QuietRest(cmds, rem, p, base, k, n + |body|, skips);
    DoesBoth(cmds, rem[j := k], base, n, skips, body, EndAt(p.body, base), rem[j := k], RestUnrolled(p, k, base), j + 1, rem);
  }

  lemma RoundsSplit(p: Program, k: nat, base: nat)
    requires p.Loop?
    ensures RoundsUnrolled(p, k + 1, base) == Unrolled(p.body, base) + RestUnrolled(p, k, base)
  {
    MoreRoundsUnrolled(p, k, base);
    Assoc(Unrolled(p.body, base), Range(EndAt(p.body, base), p.guards + 1), RoundsUnrolled(p, k, base));
  }

  lemma Assoc(a: seq<nat>, b: seq<nat>, c: seq<nat>)
    ensures (a + b) + c == a + (b + c)
  {
  }

  /** A loop that has done its body, with k jumps left, does the rest of its rounds. */
  lemma {:induction false} QuietRest(cmds: seq<Command>, rem: seq<nat>, p: Program, base: nat, k: nat, n: nat, skips: set<nat>)
    requires p.Loop? && Ready(cmds, rem, p, base) && k <= p.count && Quiet(skips, n, |RestUnrolled(p, k, base)|)
    ensures var j := RepeatAt(p, base);
      j < |rem| && Does(cmds, rem[j := k], EndAt(p.body, base), n, skips, RestUnrolled(p, k, base), j + 1, rem)
    decreases k, 0
  {
    var j, mid, led := RepeatAt(p, base), EndAt(p.body, base), Range(EndAt(p.body, base), p.guards + 1);
    NextReady(cmds, rem, p, base, p.count);
    QuietParts(skips, n, |led|, |RoundsUnrolled(p, k, base)|);
    QuietRepeat(cmds, rem, p, base, k, n, skips);
    if k == 0 {
      MoreRoundsUnrolled(p, 0, base);
      assert led + [] == led;
    } else {
      QuietLoop(cmds, rem, p, base, k - 1, n + |led|, skips);
      DoesBoth(cmds, rem[j := k], mid, n, skips, led, base, rem[j := k - 1], RoundsUnrolled(p, k, base), j + 1, rem);
    }
  }

  /** And goes on after the loop. */
  lemma QuietTail(cmds: seq<Command>, rem: seq<nat>, p: Program, base: nat, k: nat, n: nat, skips: set<nat>)
    requires p.Loop? && Ready(cmds, rem, p, base) && k <= p.count && Quiet(skips, n, |TailUnrolled(p, k, base)|)
    ensures var j := RepeatAt(p, base);
      j < |rem| && Does(cmds, rem[j := k], EndAt(p.body, base), n, skips, TailUnrolled(p, k, base), EndAt(p, base), rem)
  {
    var j, rest := RepeatAt(p, base), RestUnrolled(p, k, base);
    QuietParts(skips, n, |rest|, |Unrolled(p.next, j + 1)|);
    QuietRest(cmds, rem, p, base, k, n, skips);
    NextReady(cmds, rem, p, base, p.count);
    FlatQuiet(cmds, rem, p.next, j + 1, n + |rest|, skips);
    DoesBoth(cmds, rem[j := k], EndAt(p.body, base), n, skips, rest, j + 1, rem, Unrolled(p.next, j + 1), EndAt(p, base), rem);
  }

  lemma TailSplit(p: Program, k: nat, base: nat)
    requires p.Loop? && k > 0
    ensures TailUnrolled(p, k, base) ==
      (Range(EndAt(p.body, base), p.guards + 1) + Unrolled(p.body, base)) + TailUnrolled(p, k - 1, base)
  {
    var led, body, next := Range(EndAt(p.body, base), p.guards + 1), Unrolled(p.body, base), Unrolled(p.next, RepeatAt(p, base) + 1);
    RoundsSplit(p, k - 1, base);
    Assoc(led, body, RestUnrolled(p, k - 1, base));
    Assoc(led + body, RestUnrolled(p, k - 1, base), next);
  }

  /** If no abort segment skips after the first time through a loop's body, the loop starts its rest as unrolled. */
  lemma RoundsByBody(p: Program, base: nat, n: nat, skips: set<nat>)
    requires p.Loop? && p.count > 0
    requires Quiet(skips, n + |Starts(p.body, base, n, skips)|, |RestUnrolled(p, p.count, base)|)
    ensures LoopStarts(p, p.count, base, n, skips) == Starts(p.body, base, n, skips) + RestUnrolled(p, p.count, base)
  {
    var body, mid := Starts(p.body, base, n, skips), EndAt(p.body, base);
    var led, rounds := Range(mid, p.guards + 1), RoundsUnrolled(p, p.count, base);
    QuietParts(skips, n + |body|, |led|, |rounds|);
    QuietGuards(mid, p.guards, n + |body|, skips);
    QuietRounds(p, p.count - 1, base, n + |body| + |led|, skips);
    RoundThenRounds(p, p.count, base, n, skips);
    Assoc(body, led, rounds);
  }

  lemma StartsByBody(p: Program, base: nat, n: nat, skips: set<nat>, body: seq<nat>, rest: seq<nat>)
    requires p.Loop? && p.count > 0 && body == Starts(p.body, base, n, skips) && rest == RestUnrolled(p, p.count, base)
    requires Quiet(skips, n + |body|, |TailUnrolled(p, p.count, base)|)
    ensures Starts(p, base, n, skips) == body + TailUnrolled(p, p.count, base)
  {
    var next := Unrolled(p.next, RepeatAt(p, base) + 1);
    QuietParts(skips, n + |body|, |rest|, |next|);
    RoundsByBody(p, base, n, skips);
    QuietStarts(p.next, RepeatAt(p, base) + 1, n + |body| + |rest|, skips);
    LoopThenNext(p, base, n, skips);
    Assoc(body, rest, next);
  }

  // ----- The first segment or loop of a program -----

  /** What it starts if no abort segment skips. */
  ghost function Head(p: Program, base: nat): seq<nat>
    requires p != End
  {
    if p.Segment? then Range(base, p.guards + 1) else RoundsUnrolled(p, p.count + 1, base)
  }

  /** Where the rest of the program begins. */
  ghost function NextAt(p: Program, base: nat): nat
    requires p != End
  {
    if p.Segment? then base + p.guards + 1 else RepeatAt(p, base) + 1
  }

  /** The repeats in the first segment or loop are fresh; those behind it may be in any state. */
  ghost predicate HeadReady(cmds: seq<Command>, rem: seq<nat>, p: Program, base: nat)
    requires p != End
  {
    Sits(cmds, rem, p, base) && Fresh(cmds, rem, base, NextAt(p, base))
  }

  lemma HeadThenNext(p: Program, base: nat, n: nat, skips: set<nat>)
    requires p != End && Quiet(skips, n, |Head(p, base)|)
    ensures Starts(p, base, n, skips) == Head(p, base) + Starts(p.next, NextAt(p, base), n + |Head(p, base)|, skips)
    ensures EndAt(p.next, NextAt(p, base)) == EndAt(p, base)
  {
    if p.Segment? {
      SegmentStarts(p, base, n, skips);
      QuietGuards(base, p.guards, n, skips);
    } else {
      LoopThenNext(p, base, n, skips);
      QuietRounds(p, p.count, base, n, skips);
    }
  }

  lemma HeadUnrolled(p: Program, base: nat)
    requires p != End
    ensures Unrolled(p, base) == Head(p, base) + Unrolled(p.next, NextAt(p, base))
  {
  }

  lemma QuietHead(cmds: seq<Command>, rem: seq<nat>, p: Program, base: nat, n: nat, skips: set<nat>)
    requires p != End && HeadReady(cmds, rem, p, base) && Quiet(skips, n, |Head(p, base)|)
    ensures Does(cmds, rem, base, n, skips, Head(p, base), NextAt(p, base), rem)
  {
    if p.Segment? {
      QuietGuards(base, p.guards, n, skips);
      FlatGuards(cmds, rem, base, p.guards, n, skips, NextAt(p, base), rem);
    } else {
      var q := Loop(p.body, p.guards, p.count, End);
      LoopAlone(cmds, rem, p, base, q);
      NextReady(cmds, rem, q, base, q.count);
      QuietLoop(cmds, rem, q, base, q.count, n, skips);
    }
  }

  lemma LoopAlone(cmds: seq<Command>, rem: seq<nat>, p: Program, base: nat, q: Program)
    requires p.Loop? && HeadReady(cmds, rem, p, base) && q == Loop(p.body, p.guards, p.count, End)
    ensures Ready(cmds, rem, q, base) && RepeatAt(q, base) == RepeatAt(p, base)
    ensures RoundsUnrolled(q, q.count + 1, base) == RoundsUnrolled(p, p.count + 1, base)
  {
    assert RoundUnrolled(q, base) == RoundUnrolled(p, base);
  }

  lemma ReadyParts(cmds: seq<Command>, rem: seq<nat>, p: Program, base: nat)
    requires p != End && Ready(cmds, rem, p, base)
    ensures HeadReady(cmds, rem, p, base) && Ready(cmds, rem, p.next, NextAt(p, base))
    ensures EndAt(p.next, NextAt(p, base)) == EndAt(p, base) <= |rem|
  {
  }

  // ----- A loop that is left while its repeat still has jumps -----

  /** The repeat of the first loop of the program that an abort segment can end. */
  ghost function EscapedAt(p: Program, base: nat): nat
    requires !NoLoopIsGuarded(p) && NoInnerLoopIsGuarded(p)
  {
    if p.Loop? && p.guards > 0 then RepeatAt(p, base) else EscapedAt(p.next, NextAt(p, base))
  }

  /** The same by a name that is not recursive. */
  ghost function Escaped(p: Program, base: nat): nat
    requires !NoLoopIsGuarded(p) && NoInnerLoopIsGuarded(p)
  {
    EscapedAt(p, base)
  }

  lemma EscapedBehind(p: Program, base: nat)
    requires p != End && !NoLoopIsGuarded(p) && NoInnerLoopIsGuarded(p) && !(p.Loop? && p.guards > 0)
    ensures !NoLoopIsGuarded(p.next) && NoInnerLoopIsGuarded(p.next)
    ensures Escaped(p, base) == Escaped(p.next, NextAt(p, base))
  {
  }

  lemma {:induction false} EscapedRepeat(cmds: seq<Command>, rem: seq<nat>, p: Program, base: nat)
    requires Ready(cmds, rem, p, base) && !NoLoopIsGuarded(p) && NoInnerLoopIsGuarded(p)
    ensures var l := Escaped(p, base); base <= l < EndAt(p, base) <= |rem| && rem[l] > 0
  {
    if p.Loop? && p.guards > 0 {
      NextReady(cmds, rem, p, base, p.count);
    } else {
      ReadyParts(cmds, rem, p, base);
      EscapedBehind(p, base);
      EscapedRepeat(cmds, rem, p.next, NextAt(p, base));
    }
  }

  /** The repeats after the loop has been left in its second round. */
  ghost function Stale(rem: seq<nat>, l: nat): seq<nat>
    requires l < |rem| && rem[l] > 0
  {
    rem[l := rem[l] - 1]
  }

  /** The first time through: one abort segment skips, and the loop's repeat has a jump less from then on. */
  lemma {:induction false} FirstPass(cmds: seq<Command>, rem: seq<nat>, p: Program, base: nat, n: nat) returns (m: nat)
    requires Ready(cmds, rem, p, base) && !NoLoopIsGuarded(p) && NoInnerLoopIsGuarded(p)
    ensures n <= m < n + |Starts(p, base, n, {m})|
    ensures var l := Escaped(p, base);
      l < |rem| && rem[l] > 0 && Does(cmds, rem, base, n, {m}, Starts(p, base, n, {m}), EndAt(p, base), Stale(rem, l))
  {
    if p.Loop? && p.guards > 0 {
      m := Escape(cmds, rem, p, base, n);
    } else {
      var n1, next, l := n + |Head(p, base)|, NextAt(p, base), Escaped(p, base);
      ReadyParts(cmds, rem, p, base);
      EscapedBehind(p, base);
      m := FirstPass(cmds, rem, p.next, next, n1);
      HeadThenNext(p, base, n, {m});
      HeadFirst(cmds, rem, p, base, n, {m}, Starts(p.next, next, n1, {m}), Stale(rem, l));
    }
  }

  /** A run of the rest of a program is one of the whole, after its first segment or loop. */
  lemma HeadFirst(
      cmds: seq<Command>, rem: seq<nat>, p: Program, base: nat, n: nat, skips: set<nat>, rest: seq<nat>, rem': seq<nat>)
    requires p != End && HeadReady(cmds, rem, p, base) && Quiet(skips, n, |Head(p, base)|)
    requires Does(cmds, rem, NextAt(p, base), n + |Head(p, base)|, skips, rest, EndAt(p.next, NextAt(p, base)), rem')
    ensures Does(cmds, rem, base, n, skips, Head(p, base) + rest, EndAt(p, base), rem')
  {
    HeadThenNext(p, base, n, skips);
    QuietHead(cmds, rem, p, base, n, skips);
    DoesBoth(cmds, rem, base, n, skips, Head(p, base), NextAt(p, base), rem, rest, EndAt(p, base), rem');
  }

  /** A loop is left in its second round. */
  lemma Escape(cmds: seq<Command>, rem: seq<nat>, p: Program, base: nat, n: nat) returns (m: nat)
    requires p.Loop? && Ready(cmds, rem, p, base) && p.guards > 0 && NoLoopIsGuarded(p.body)
    ensures n <= m < n + |Starts(p, base, n, {m})|
    ensures var j := RepeatAt(p, base);
      j < |rem| && rem[j] > 0 && Does(cmds, rem, base, n, {m}, Starts(p, base, n, {m}), EndAt(p, base), Stale(rem, j))
  {
    var j, round, body := RepeatAt(p, base), RoundUnrolled(p, base), Unrolled(p.body, base);
    m := n + |round| + |body|;
    EscapeStarts(p, base, n, m);
    EscapeRounds(cmds, rem, p, base, n, m);
    AfterEscape(cmds, rem, p, base, m + 1, {m}, j);
    DoesBoth(cmds, rem, base, n, {m}, round + (body + [EndAt(p.body, base)]), j + 1, Stale(rem, j),
             Unrolled(p.next, j + 1), EndAt(p, base), Stale(rem, j));
  }

  lemma AfterEscape(cmds: seq<Command>, rem: seq<nat>, p: Program, base: nat, n: nat, skips: set<nat>, j: nat)
    requires p.Loop? && Ready(cmds, rem, p, base) && j == RepeatAt(p, base) && Quiet(skips, n, |Unrolled(p.next, j + 1)|)
    ensures j < |rem| && rem[j] > 0
    ensures Does(cmds, Stale(rem, j), j + 1, n, skips, Unrolled(p.next, j + 1), EndAt(p, base), Stale(rem, j))
  {
    NextReady(cmds, rem, p, base, p.count);
    NextReady(cmds, rem, p, base, p.count - 1);
    FlatQuiet(cmds, Stale(rem, j), p.next, j + 1, n, skips);
  }

  lemma EscapeStarts(p: Program, base: nat, n: nat, m: nat)
    requires p.Loop? && WellFormed(p) && p.guards > 0 && m == n + |RoundUnrolled(p, base)| + |Unrolled(p.body, base)|
    ensures Starts(p, base, n, {m}) ==
      (RoundUnrolled(p, base) + (Unrolled(p.body, base) + [EndAt(p.body, base)])) + Unrolled(p.next, RepeatAt(p, base) + 1)
  {
    QuietStarts(p.next, RepeatAt(p, base) + 1, m + 1, {m});
    LeavingRounds(p, base, n, m);
    LoopThenNext(p, base, n, {m});
  }

  lemma LeavingRounds(p: Program, base: nat, n: nat, m: nat)
    requires p.Loop? && WellFormed(p) && p.guards > 0 && m == n + |RoundUnrolled(p, base)| + |Unrolled(p.body, base)|
    ensures LoopStarts(p, p.count, base, n, {m}) == RoundUnrolled(p, base) + (Unrolled(p.body, base) + [EndAt(p.body, base)])
  {
    var round := RoundUnrolled(p, base);
    QuietRound(p, base, n, {m});
    LeavingRound(p, base, n + |round|, m);
    RoundThenRounds(p, p.count, base, n, {m});
    RoundThenRounds(p, p.count - 1, base, n + |round|, {m});
  }

  lemma LeavingRound(p: Program, base: nat, n: nat, m: nat)
    requires p.Loop? && p.guards > 0 && m == n + |Unrolled(p.body, base)|
    ensures RoundIsSkipped(p, base, n, {m}) && RoundStarts(p, base, n, {m}) == Unrolled(p.body, base) + [EndAt(p.body, base)]
  {
    QuietStarts(p.body, base, n, {m});
    assert GuardedStarts(EndAt(p.body, base), p.guards, m, {m}) == [EndAt(p.body, base)];
  }

  lemma EscapeRounds(cmds: seq<Command>, rem: seq<nat>, p: Program, base: nat, n: nat, m: nat)
    requires p.Loop? && Ready(cmds, rem, p, base) && p.guards > 0 && NoLoopIsGuarded(p.body)
    requires m == n + |RoundUnrolled(p, base)| + |Unrolled(p.body, base)|
    ensures var j := RepeatAt(p, base);
      j < |rem| && rem[j] > 0 &&
      Does(cmds, rem, base, n, {m}, RoundUnrolled(p, base) + (Unrolled(p.body, base) + [EndAt(p.body, base)]), j + 1, Stale(rem, j))
  {
    var j, round := RepeatAt(p, base), RoundUnrolled(p, base);
    NextReady(cmds, rem, p, base, p.count);
    QuietRound(p, base, n, {m});
    LeavingRound(p, base, n + |round|, m);
    OneLoopRound(cmds, rem, p, base, p.count, n, {m});
    OneLoopRound(cmds, rem, p, base, p.count - 1, n + |round|, {m});
    DoesBoth(cmds, rem, base, n, {m}, round, base, Stale(rem, j), Unrolled(p.body, base) + [EndAt(p.body, base)], j + 1, Stale(rem, j));
  }

  /** The next time through, no abort segment skips any more: the loop has a round too few, and its repeat is fresh again. */
  lemma {:induction false} SecondPass(cmds: seq<Command>, rem: seq<nat>, p: Program, base: nat, n: nat, skips: set<nat>)
    returns (t: seq<nat>)
    requires Ready(cmds, rem, p, base) && !NoLoopIsGuarded(p) && NoInnerLoopIsGuarded(p)
    requires forall m :: m in skips ==> m < n
    ensures |t| < |Unrolled(p, base)|
    ensures var l := Escaped(p, base);
      l < |rem| && rem[l] > 0 && Does(cmds, Stale(rem, l), base, n, skips, t, EndAt(p, base), rem)
  {
    EscapedRepeat(cmds, rem, p, base);
    if p.Loop? && p.guards > 0 {
      t := FewerRounds(cmds, rem, p, base, n, skips);
    } else {
      var l := Escaped(p, base);
      StaleBehind(cmds, rem, p, base);
      t := SecondPass(cmds, rem, p.next, NextAt(p, base), n + |Head(p, base)|, skips);
      HeadFirst(cmds, Stale(rem, l), p, base, n, skips, t, rem);
      t := Head(p, base) + t;
    }
  }

  /** The loop that has been left is not the first part of the program. */
  lemma StaleBehind(cmds: seq<Command>, rem: seq<nat>, p: Program, base: nat)
    requires Ready(cmds, rem, p, base) && !NoLoopIsGuarded(p) && NoInnerLoopIsGuarded(p) && !(p.Loop? && p.guards > 0)
    ensures p != End && Ready(cmds, rem, p.next, NextAt(p, base)) && !NoLoopIsGuarded(p.next) && NoInnerLoopIsGuarded(p.next)
    ensures var l := Escaped(p, base);
      l == Escaped(p.next, NextAt(p, base)) && l < |rem| && rem[l] > 0 && HeadReady(cmds, Stale(rem, l), p, base)
    ensures EndAt(p.next, NextAt(p, base)) == EndAt(p, base)
    ensures Unrolled(p, base) == Head(p, base) + Unrolled(p.next, NextAt(p, base))
  {
    ReadyParts(cmds, rem, p, base);
    EscapedBehind(p, base);
    HeadUnrolled(p, base);
    EscapedRepeat(cmds, rem, p.next, NextAt(p, base));
  }

  lemma FewerRounds(cmds: seq<Command>, rem: seq<nat>, p: Program, base: nat, n: nat, skips: set<nat>) returns (t: seq<nat>)
    requires p.Loop? && Ready(cmds, rem, p, base) && forall m :: m in skips ==> m < n
    ensures |t| < |Unrolled(p, base)|
    ensures var j := RepeatAt(p, base); j < |rem| && rem[j] > 0 && Does(cmds, Stale(rem, j), base, n, skips, t, EndAt(p, base), rem)
  {
    var j, rounds, next := RepeatAt(p, base), RoundsUnrolled(p, p.count, base), Unrolled(p.next, RepeatAt(p, base) + 1);
    NextReady(cmds, rem, p, base, p.count);
    MoreRoundsUnrolled(p, p.count, base);
    LoopUnrolled(p, base);
    QuietLoop(cmds, rem, p, base, p.count - 1, n, skips);
    FlatQuiet(cmds, rem, p.next, j + 1, n + |rounds|, skips);
    DoesBoth(cmds, Stale(rem, j), base, n, skips, rounds, j + 1, rem, next, EndAt(p, base), rem);
    t := rounds + next;
  }

  // ----- The exact condition -----

  /** If an inner loop can be left by an abort segment, there is a run in which it is, and the list starts too little after it. */
  lemma {:induction false} StartsTooLittle(cmds: seq<Command>, rem: seq<nat>, p: Program, base: nat, n: nat)
    returns (m: nat, t: seq<nat>)
    requires Ready(cmds, rem, p, base) && !NoInnerLoopIsGuarded(p)
    ensures n <= m < n + |t| && |t| < |Starts(p, base, n, {m})|
    ensures Does(cmds, rem, base, n, {m}, t, EndAt(p, base), rem)
  {
    if p.Loop? && !NoLoopIsGuarded(p.body) {
      if NoInnerLoopIsGuarded(p.body) {
        m, t := LoopStartsTooLittle(cmds, rem, p, base, n);
      } else {
        var b;
        NextReady(cmds, rem, p, base, p.count);
        BodyReady(cmds, rem, p, base, p.count);
        m, b := StartsTooLittle(cmds, rem, p.body, base, n);
        StartsByBody(p, base, n, {m}, Starts(p.body, base, n, {m}), RestUnrolled(p, p.count, base));
        QuietTail(cmds, rem, p, base, p.count, n + |b|, {m});
        t := b + TailUnrolled(p, p.count, base);
        DoesBoth(cmds, rem, base, n, {m}, b, EndAt(p.body, base), rem, TailUnrolled(p, p.count, base), EndAt(p, base), rem);
      }
    } else {
      ReadyParts(cmds, rem, p, base);
      m, t := StartsTooLittle(cmds, rem, p.next, NextAt(p, base), n + |Head(p, base)|);
      HeadThenNext(p, base, n, {m});
      HeadFirst(cmds, rem, p, base, n, {m}, t, rem);
      t := Head(p, base) + t;
    }
  }

  /** The body of a loop with a loop that can be left: the first round leaves it, the second has a jump of it too few. */
  lemma LoopStartsTooLittle(cmds: seq<Command>, rem: seq<nat>, p: Program, base: nat, n: nat) returns (m: nat, t: seq<nat>)
    requires p.Loop? && Ready(cmds, rem, p, base) && !NoLoopIsGuarded(p.body) && NoInnerLoopIsGuarded(p.body)
    ensures n <= m < n + |t| && |t| < |Starts(p, base, n, {m})|
    ensures Does(cmds, rem, base, n, {m}, t, EndAt(p, base), rem)
  {
    var j, mid := RepeatAt(p, base), EndAt(p.body, base);
    NextReady(cmds, rem, p, base, p.count);
    BodyReady(cmds, rem, p, base, p.count);
    m := FirstPass(cmds, rem, p.body, base, n);
    var first, led := Starts(p.body, base, n, {m}), Range(mid, p.guards + 1);
    var n1 := n + |first| + |led|;
    var second := RestTooLittle(cmds, rem, p, base, n + |first|, {m});
    StartsByBody(p, base, n, {m}, first, RestUnrolled(p, p.count, base));
    t := first + second;
    DoesBoth(cmds, rem, base, n, {m}, first, mid, Stale(rem, Escaped(p.body, base)), second, EndAt(p, base), rem);
  }

  lemma RestTooLittle(cmds: seq<Command>, rem: seq<nat>, p: Program, base: nat, n: nat, skips: set<nat>) returns (t: seq<nat>)
    requires p.Loop? && Ready(cmds, rem, p, base) && !NoLoopIsGuarded(p.body) && NoInnerLoopIsGuarded(p.body)
    requires forall m :: m in skips ==> m < n
    ensures |t| < |TailUnrolled(p, p.count, base)|
    ensures var l := Escaped(p.body, base);
      l < |rem| && rem[l] > 0 && Does(cmds, Stale(rem, l), EndAt(p.body, base), n, skips, t, EndAt(p, base), rem)
  {
    var mid, led, l := EndAt(p.body, base), Range(EndAt(p.body, base), p.guards + 1), Escaped(p.body, base);
    var again, now := SecondRound(cmds, rem, p, base, n, skips);
    var tail := TailUnrolled(p, p.count - 1, base);
    QuietTail(cmds, rem, p, base, p.count - 1, n + |led + again|, skips);
    TailSplit(p, p.count, base);
    DoesBoth(cmds, Stale(rem, l), mid, n, skips, led + again, mid, now, tail, EndAt(p, base), rem);
    t := (led + again) + tail;
  }

  /** From the end of the body, after its loop has been left, to the end of the body again. */
  lemma SecondRound(cmds: seq<Command>, rem: seq<nat>, p: Program, base: nat, n: nat, skips: set<nat>)
    returns (again: seq<nat>, now: seq<nat>)
    requires p.Loop? && Ready(cmds, rem, p, base) && !NoLoopIsGuarded(p.body) && NoInnerLoopIsGuarded(p.body)
    requires forall m :: m in skips ==> m < n
    ensures |again| < |Unrolled(p.body, base)|
    ensures RepeatAt(p, base) < |rem| && p.count > 0 && now == rem[RepeatAt(p, base) := p.count - 1]
    ensures var l, mid := Escaped(p.body, base), EndAt(p.body, base);
      l < |rem| && rem[l] > 0 && Does(cmds, Stale(rem, l), mid, n, skips, Range(mid, p.guards + 1) + again, mid, now)
  {
    var j, mid, led, l := RepeatAt(p, base), EndAt(p.body, base), Range(EndAt(p.body, base), p.guards + 1), Escaped(p.body, base);
    NextReady(cmds, rem, p, base, p.count);
    now := rem[j := p.count - 1];
    StaleRound(cmds, rem, p, base, n, skips, now);
    BodyReady(cmds, rem, p, base, p.count - 1);
    again := SecondPass(cmds, now, p.body, base, n + |led|, skips);
    DoesBoth(cmds, Stale(rem, l), mid, n, skips, led, base, Stale(now, l), again, mid, now);
  }

  lemma StaleRound(cmds: seq<Command>, rem: seq<nat>, p: Program, base: nat, n: nat, skips: set<nat>, now: seq<nat>)
    requires p.Loop? && Ready(cmds, rem, p, base) && !NoLoopIsGuarded(p.body) && NoInnerLoopIsGuarded(p.body)
    requires Quiet(skips, n, p.guards + 1) && RepeatAt(p, base) < |rem| && now == rem[RepeatAt(p, base) := p.count - 1]
    ensures var l, mid := Escaped(p.body, base), EndAt(p.body, base);
      && l < mid && l < |rem| && rem[l] > 0 && now[l] == rem[l]
      && Does(cmds, Stale(rem, l), mid, n, skips, Range(mid, p.guards + 1), base, Stale(now, l))
  {
    var j, l := RepeatAt(p, base), Escaped(p.body, base);
    NextReady(cmds, rem, p, base, p.count);
    BodyReady(cmds, rem, p, base, p.count);
    EscapedRepeat(cmds, rem, p.body, base);
    QuietRepeat(cmds, Stale(rem, l), p, base, p.count, n, skips);
    assert Stale(rem, l)[j := p.count] == Stale(rem, l);
    assert Stale(rem, l)[j := p.count - 1] == Stale(now, l);
  }

  /**
   * The list that a program is sent as starts what the program starts, whatever the abort segments do, exactly if no
   * loop inside another loop has abort segments in front of its repeat.
   */
  lemma FlatMeansProgramIff(p: Program)
    requires WellFormed(p)
    ensures AlwaysMeansProgram(p) <==> NoInnerLoopIsGuarded(p)
  {
    if NoInnerLoopIsGuarded(p) {
      forall skips: set<nat> ensures RunsThrough(Flatten(p, 0), skips, Trace(p, 0, 0, skips)) {
        FlatMeansProgram(p, skips);
      }
    } else {
      var cmds := Flatten(p, 0);
      FlattenIsValid(p);
      ReadyFromTheStart(p);
      var m, t := StartsTooLittle(cmds, FreshRemaining(cmds), p, 0, 0);
      NotThrough(cmds, {m}, t, State(|cmds|, FreshRemaining(cmds), |t|), Starts(p, 0, 0, {m}));
    }
  }

  lemma NotThrough(cmds: seq<Command>, skips: set<nat>, t: seq<nat>, s: State, trace: seq<nat>)
    requires Runs(cmds, skips, Begin(cmds), t, s) && s.at == |cmds| && |t| != |trace|
    ensures !RunsThrough(cmds, skips, trace)
  {
    if RunsThrough(cmds, skips, trace) {
      var s' :| Runs(cmds, skips, Begin(cmds), trace, s') && s'.at == |cmds|;
      OneRunOnly(cmds, skips, Begin(cmds), t, s, trace, s');
      assert false;
    }
  }

  // ----- Such a program -----

  /** A loop that an abort segment can end, inside another loop. */
  ghost function OuterLoop(): Program {
    Loop(Loop(Segment(0, true, End), 1, 1, End), 0, 1, End)
  }

  lemma GoOn(cmds: seq<Command>, skips: set<nat>, s: State, trace: seq<nat>, now: State, trace': seq<nat>, now': State)
    requires Runs(cmds, skips, s, trace, now) && ValidState(cmds, now) && now.at < |cmds|
    requires trace' == trace + [now.at] && now' == After(cmds, skips, now)
    ensures Runs(cmds, skips, s, trace', now')
  {
    RunOne(cmds, skips, now);
    RunOn(cmds, skips, s, trace, now, [now.at], now');
  }

  ghost function OuterList(): seq<Command> {
    [Plain(true), Abort, Repeat(0, 1), Repeat(0, 1)]
  }

  /** The list up to the end of the inner loop's first time, which is left in its second round. */
  lemma LeftRun()
    ensures Runs(OuterList(), {4}, State(0, [0, 0, 1, 1], 0), [0, 1, 2, 0, 1], State(3, [0, 0, 0, 1], 5))
  {
    var cmds, s := OuterList(), State(0, [0, 0, 1, 1], 0);
    assert ValidAt(cmds, 2) && ValidAt(cmds, 3);
    RunNothing(cmds, {4}, s);
    GoOn(cmds, {4}, s, [], s, [0], State(1, [0, 0, 1, 1], 1));
    GoOn(cmds, {4}, s, [0], State(1, [0, 0, 1, 1], 1), [0, 1], State(2, [0, 0, 1, 1], 2));
    assert [0, 0, 1, 1][2 := 0] == [0, 0, 0, 1];
    GoOn(cmds, {4}, s, [0, 1], State(2, [0, 0, 1, 1], 2), [0, 1, 2], State(0, [0, 0, 0, 1], 3));
    GoOn(cmds, {4}, s, [0, 1, 2], State(0, [0, 0, 0, 1], 3), [0, 1, 2, 0], State(1, [0, 0, 0, 1], 4));
    assert PastGroup(cmds, 2) == 3 && PastGroup(cmds, 1) == 3;
    GoOn(cmds, {4}, s, [0, 1, 2, 0], State(1, [0, 0, 0, 1], 4), [0, 1, 2, 0, 1], State(3, [0, 0, 0, 1], 5));
  }

  /** And from there to its end: the inner loop jumps back no more. */
  lemma ShortRun()
    ensures Runs(OuterList(), {4}, State(3, [0, 0, 0, 1], 5), [3, 0, 1, 2, 3], State(4, [0, 0, 1, 1], 10))
  {
    var cmds, s := OuterList(), State(3, [0, 0, 0, 1], 5);
    assert ValidAt(cmds, 2) && ValidAt(cmds, 3);
    RunNothing(cmds, {4}, s);
    assert [0, 0, 0, 1][3 := 0] == [0, 0, 0, 0];
    GoOn(cmds, {4}, s, [], s, [3], State(0, [0, 0, 0, 0], 6));
    GoOn(cmds, {4}, s, [3], State(0, [0, 0, 0, 0], 6), [3, 0], State(1, [0, 0, 0, 0], 7));
    GoOn(cmds, {4}, s, [3, 0], State(1, [0, 0, 0, 0], 7), [3, 0, 1], State(2, [0, 0, 0, 0], 8));
    assert [0, 0, 0, 0][2 := 1] == [0, 0, 1, 0];
    GoOn(cmds, {4}, s, [3, 0, 1], State(2, [0, 0, 0, 0], 8), [3, 0, 1, 2], State(3, [0, 0, 1, 0], 9));
    assert [0, 0, 1, 0][3 := 1] == [0, 0, 1, 1];
    GoOn(cmds, {4}, s, [3, 0, 1, 2], State(3, [0, 0, 1, 0], 9), [3, 0, 1, 2, 3], State(4, [0, 0, 1, 1], 10));
  }

  lemma OuterFlattened()
    ensures WellFormed(OuterLoop()) && Flatten(OuterLoop(), 0) == OuterList() && FreshRemaining(OuterList()) == [0, 0, 1, 1]
  {
    assert Flatten(Segment(0, true, End), 0) == [Plain(true)];
    assert Flatten(Loop(Segment(0, true, End), 1, 1, End), 0) == [Plain(true), Abort, Repeat(0, 1)];
  }

  lemma WholeRun(cmds: seq<Command>, trace: seq<nat>)
    requires cmds == OuterList() && trace == [0, 1, 2, 0, 1] + [3, 0, 1, 2, 3]
    ensures RunsThrough(cmds, {4}, trace)
  {
    OuterFlattened();
    LeftRun();
    ShortRun();
    RunOn(cmds, {4}, Begin(cmds), [0, 1, 2, 0, 1], State(3, [0, 0, 0, 1], 5), [3, 0, 1, 2, 3], State(4, [0, 0, 1, 1], 10));
  }

  /**
   * The abort segment skips at the fifth start, which is in the inner loop's second round; the next time the inner loop
   * has one round instead of two.
   */
  lemma LeftLoopIsShort()
    ensures Flatten(OuterLoop(), 0) == [Plain(true), Abort, Repeat(0, 1), Repeat(0, 1)]
    ensures RunsThrough(Flatten(OuterLoop(), 0), {4}, [0, 1, 2, 0, 1, 3, 0, 1, 2, 3])
    ensures !AlwaysMeansProgram(OuterLoop())
  {
    OuterFlattened();
    WholeRun(Flatten(OuterLoop(), 0), [0, 1, 2, 0, 1, 3, 0, 1, 2, 3]);
    FlatMeansProgramIff(OuterLoop());
  }
}
