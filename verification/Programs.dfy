/** Programs of segments and counted loops, the flat lists they are sent as, and the segments that those lists start. */
module Programs {
  import opened RepeatSemantics

  /**
   * A segment, with or without a Run, and with so many abort segments in front of it; or a counted loop, whose repeat may
   * have abort segments in front of it too.
   */
  datatype Program =
    | End
    | Segment(guards: nat, hasRun: bool, next: Program)
    | Loop(body: Program, guards: nat, count: nat, next: Program)

  function Size(p: Program): nat {
    match p
    case End => 0
    case Segment(guards, _, next) => guards + 1 + Size(next)
    case Loop(body, guards, _, next) => Size(body) + guards + 1 + Size(next)
  }

  /** No loop is empty, and every loop jumps back at least once. */
  predicate WellFormed(p: Program) {
    match p
    case End => true
    case Segment(_, _, next) => WellFormed(next)
    case Loop(body, _, count, next) => body != End && count > 0 && WellFormed(body) && WellFormed(next)
  }

  function Aborts(guards: nat): (cmds: seq<Command>)
    ensures |cmds| == guards && forall i :: 0 <= i < guards ==> cmds[i] == Abort
  {
    seq(guards, _ => Abort)
  }

  /** The list a program is sent as, when it begins at index `base`: a loop's repeat follows its body and names its first segment. */
  function Flatten(p: Program, base: nat): (cmds: seq<Command>)
    ensures |cmds| == Size(p)
  {
    match p
    case End => []
    case Segment(guards, hasRun, next) => Aborts(guards) + [Plain(hasRun)] + Flatten(next, base + guards + 1)
    case Loop(body, guards, count, next) =>
      Flatten(body, base) + (Aborts(guards) + [Repeat(base, count)] + Flatten(next, base + Size(body) + guards + 1))
  }

  // ----- What a program starts -----

  /** What is started from a on, if the first is the n-th start: the abort segments and the one they guard, or up to the one that skips. */
  function Led(a: nat, guards: nat, n: nat, skips: set<nat>): seq<nat>
    decreases guards
  {
    [a] + if guards == 0 || n in skips then [] else Led(a + 1, guards - 1, n + 1, skips)
  }

  /** One of the abort segments skips what they guard. */
  predicate Stops(guards: nat, n: nat, skips: set<nat>) {
    guards > 0 && (n in skips || Stops(guards - 1, n + 1, skips))
  }

  /**
   * The segments a program starts, if the first is the n-th start of the run: an abort segment that skips lets its
   * segment be left out, or ends the loop whose repeat it guards, which begins anew when it is entered again.
   */
  function Trace(p: Program, base: nat, n: nat, skips: set<nat>): seq<nat>
    decreases p, 0, 0
  {
    match p
    case End => []
    case Segment(guards, _, next) =>
      var led := Led(base, guards, n, skips);
      led + Trace(next, base + guards + 1, n + |led|, skips)
    case Loop(body, guards, count, next) =>
      var rounds := Rounds(body, guards, count, base, n, skips);
      rounds + Trace(next, base + Size(body) + guards + 1, n + |rounds|, skips)
  }

  /** The segments a loop starts that can jump back k more times. */
  function Rounds(body: Program, guards: nat, k: nat, base: nat, n: nat, skips: set<nat>): seq<nat>
    decreases body, 1, k
  {
    var first := Trace(body, base, n, skips);
    var round := first + Led(base + Size(body), guards, n + |first|, skips);
    if k == 0 || Stops(guards, n + |first|, skips) then round
    else round + Rounds(body, guards, k - 1, base, n + |round|, skips)
  }

  // ----- Where a program is in a list -----

  /** Abort segments from a on, in front of a segment that is none. */
  ghost predicate Guarded(cmds: seq<Command>, a: nat, guards: nat) {
    a + guards < |cmds| && !cmds[a + guards].Abort? && forall i :: a <= i < a + guards ==> cmds[i].Abort?
  }

  /** The program occupies the list from `base` on. */
  ghost predicate Occupies(cmds: seq<Command>, p: Program, base: nat) {
    base + Size(p) <= |cmds| &&
    match p
    case End => true
    case Segment(guards, hasRun, next) =>
      Guarded(cmds, base, guards) && cmds[base + guards] == Plain(hasRun) && Occupies(cmds, next, base + guards + 1)
    case Loop(body, guards, count, next) =>
      var j := base + Size(body) + guards;
      Occupies(cmds, body, base) && Guarded(cmds, base + Size(body), guards) && cmds[j] == Repeat(base, count) && Occupies(cmds, next, j + 1)
  }

  lemma TakeApart<T>(s: seq<T>, base: nat, a: seq<T>, b: seq<T>)
    requires base + |a| + |b| <= |s| && s[base..base + |a| + |b|] == a + b
    ensures s[base..base + |a|] == a && s[base + |a|..base + |a| + |b|] == b
  {
    var mine := s[base..base + |a| + |b|];
    assert s[base..base + |a|] == mine[..|a|];
    assert s[base + |a|..base + |a| + |b|] == mine[|a|..];
  }

  function EndAt(p: Program, base: nat): nat {
    base + Size(p)
  }

  /** Where a loop's repeat is. */
  function RepeatAt(p: Program, base: nat): nat
    requires p.Loop?
  {
    base + Size(p.body) + p.guards
  }

  /** The list that the program is sent as is part of the list. */
  ghost predicate Contains(cmds: seq<Command>, p: Program, base: nat) {
    EndAt(p, base) <= |cmds| && cmds[base..EndAt(p, base)] == Flatten(p, base)
  }

  lemma TakeHead(cmds: seq<Command>, a: nat, guards: nat, c: Command, tail: seq<Command>)
    requires a + guards + 1 + |tail| <= |cmds| && !c.Abort?
    requires cmds[a..a + guards + 1 + |tail|] == Aborts(guards) + [c] + tail
    ensures Guarded(cmds, a, guards) && cmds[a + guards] == c
    ensures cmds[a + guards + 1..a + guards + 1 + |tail|] == tail
  {
    var head := Aborts(guards) + [c];
    TakeApart(cmds, a, head, tail);
    forall i | a <= i <= a + guards ensures cmds[i] == head[i - a] {
      assert cmds[i] == cmds[a..a + guards + 1][i - a];
    }
  }

  lemma TakeSegment(cmds: seq<Command>, p: Program, base: nat)
    requires p.Segment? && Contains(cmds, p, base)
    ensures Guarded(cmds, base, p.guards) && cmds[base + p.guards] == Plain(p.hasRun)
    ensures Contains(cmds, p.next, base + p.guards + 1)
  {
    TakeHead(cmds, base, p.guards, Plain(p.hasRun), Flatten(p.next, base + p.guards + 1));
  }

  lemma TakeBody(cmds: seq<Command>, p: Program, base: nat)
    requires p.Loop? && Contains(cmds, p, base)
    ensures Contains(cmds, p.body, base)
    ensures var mid := EndAt(p.body, base);
      cmds[mid..EndAt(p, base)] == Aborts(p.guards) + [Repeat(base, p.count)] + Flatten(p.next, RepeatAt(p, base) + 1)
  {
    TakeApart(cmds, base, Flatten(p.body, base),
              Aborts(p.guards) + [Repeat(base, p.count)] + Flatten(p.next, RepeatAt(p, base) + 1));
  }

  lemma {:induction false} TakeLoop(cmds: seq<Command>, p: Program, base: nat)
    requires p.Loop? && Contains(cmds, p, base)
    ensures Contains(cmds, p.body, base) && Contains(cmds, p.next, RepeatAt(p, base) + 1)
    ensures Guarded(cmds, EndAt(p.body, base), p.guards) && cmds[RepeatAt(p, base)] == Repeat(base, p.count)
  {
    var mid, tail := EndAt(p.body, base), Flatten(p.next, RepeatAt(p, base) + 1);
    TakeBody(cmds, p, base);
    assert EndAt(p, base) == mid + p.guards + 1 + |tail|;
    TakeHead(cmds, mid, p.guards, Repeat(base, p.count), tail);
  }

  lemma {:induction false} FlattenOccupies(p: Program, base: nat, cmds: seq<Command>)
    requires Contains(cmds, p, base)
    ensures Occupies(cmds, p, base)
    decreases p, 1
  {
    match p
    case End =>
    case Segment(guards, _, next) =>
      TakeSegment(cmds, p, base);
      FlattenOccupies(next, base + guards + 1, cmds);
    case Loop(_, _, _, _) =>
      LoopOccupies(p, base, cmds);
  }

  lemma {:induction false} LoopOccupies(p: Program, base: nat, cmds: seq<Command>)
    requires p.Loop? && Contains(cmds, p, base)
    ensures Occupies(cmds, p, base)
    decreases p, 0
  {
    TakeLoop(cmds, p, base);
    FlattenOccupies(p.body, base, cmds);
    FlattenOccupies(p.next, RepeatAt(p, base) + 1, cmds);
    PutTogether(cmds, p, base);
  }

  lemma {:induction false} PutTogether(cmds: seq<Command>, p: Program, base: nat)
    requires p.Loop? && EndAt(p, base) <= |cmds| && Occupies(cmds, p.body, base) && Occupies(cmds, p.next, RepeatAt(p, base) + 1)
    requires Guarded(cmds, EndAt(p.body, base), p.guards) && cmds[RepeatAt(p, base)] == Repeat(base, p.count)
    ensures Occupies(cmds, p, base)
  {
  }

  lemma SizePositive(p: Program)
    requires p != End
    ensures Size(p) > 0
  {
  }

  ghost predicate ValidBetween(cmds: seq<Command>, from: nat, to: nat) {
    forall j :: from <= j < to && j < |cmds| ==> ValidAt(cmds, j)
  }

  lemma GuardsAreValid(cmds: seq<Command>, from: nat, a: nat, guards: nat, to: nat)
    requires ValidBetween(cmds, from, a) && Guarded(cmds, a, guards) && ValidAt(cmds, a + guards)
    requires ValidBetween(cmds, a + guards + 1, to)
    ensures ValidBetween(cmds, from, to)
  {
  }

  lemma {:induction false} OccupiedIsValid(p: Program, base: nat, cmds: seq<Command>)
    requires WellFormed(p) && Occupies(cmds, p, base)
    ensures ValidBetween(cmds, base, EndAt(p, base))
  {
    match p
    case End =>
    case Segment(guards, hasRun, next) =>
      OccupiedIsValid(next, base + guards + 1, cmds);
      GuardsAreValid(cmds, base, base, guards, EndAt(p, base));
    case Loop(body, guards, count, next) =>
      OccupiedIsValid(body, base, cmds);
      OccupiedIsValid(next, RepeatAt(p, base) + 1, cmds);
      SizePositive(body);
      GuardsAreValid(cmds, base, EndAt(body, base), guards, EndAt(p, base));
  }

  /** Every properly nested program passes the repeats' own validation. */
  lemma FlattenIsValid(p: Program)
    requires WellFormed(p)
    ensures ValidList(Flatten(p, 0)) && Occupies(Flatten(p, 0), p, 0)
  {
    var cmds := Flatten(p, 0);
    assert cmds[0..|cmds|] == cmds;
    assert Contains(cmds, p, 0);
    FlattenOccupies(p, 0, cmds);
    OccupiedIsValid(p, 0, cmds);
  }

  // ----- The flat list starts what the program starts -----

  /** Every repeat of the range has all its jumps left. */
  ghost predicate Fresh(cmds: seq<Command>, rem: seq<nat>, from: nat, to: nat)
    requires |rem| == |cmds|
  {
    forall j :: from <= j < to && j < |cmds| ==> rem[j] == CountOf(cmds[j])
  }

  /** The program occupies the list from `base` on, with all its repeats fresh. */
  ghost predicate Ready(cmds: seq<Command>, rem: seq<nat>, p: Program, base: nat) {
    && ValidList(cmds) && ValidRemaining(cmds, rem) && WellFormed(p) && Occupies(cmds, p, base)
    && Fresh(cmds, rem, base, base + Size(p))
  }

  /** No loop of the program can be left by an abort segment. */
  predicate NoLoopIsGuarded(p: Program) {
    match p
    case End => true
    case Segment(_, _, next) => NoLoopIsGuarded(next)
    case Loop(body, guards, _, next) => guards == 0 && NoLoopIsGuarded(body) && NoLoopIsGuarded(next)
  }

  /** No loop inside another loop can be left by an abort segment. */
  predicate NoInnerLoopIsGuarded(p: Program) {
    match p
    case End => true
    case Segment(_, _, next) => NoInnerLoopIsGuarded(next)
    case Loop(body, _, _, next) => NoLoopIsGuarded(body) && NoInnerLoopIsGuarded(next)
  }

  // The definitions above by names that are not recursive themselves: in these the lemmas below speak to each other.

  function Starts(p: Program, base: nat, n: nat, skips: set<nat>): seq<nat> {
    Trace(p, base, n, skips)
  }

  function GuardedStarts(a: nat, guards: nat, n: nat, skips: set<nat>): seq<nat> {
    Led(a, guards, n, skips)
  }

  predicate IsSkipped(guards: nat, n: nat, skips: set<nat>) {
    Stops(guards, n, skips)
  }

  function LoopStarts(p: Program, k: nat, base: nat, n: nat, skips: set<nat>): seq<nat>
    requires p.Loop?
  {
    Rounds(p.body, p.guards, k, base, n, skips)
  }

  function RoundStarts(p: Program, base: nat, n: nat, skips: set<nat>): seq<nat>
    requires p.Loop?
  {
    var body := Starts(p.body, base, n, skips);
    body + GuardedStarts(EndAt(p.body, base), p.guards, n + |body|, skips)
  }

  predicate RoundIsSkipped(p: Program, base: nat, n: nat, skips: set<nat>)
    requires p.Loop?
  {
    IsSkipped(p.guards, n + |Starts(p.body, base, n, skips)|, skips)
  }

  lemma SegmentStarts(p: Program, base: nat, n: nat, skips: set<nat>)
    requires p.Segment?
    ensures var led := GuardedStarts(base, p.guards, n, skips);
      Starts(p, base, n, skips) == led + Starts(p.next, base + p.guards + 1, n + |led|, skips)
    ensures EndAt(p.next, base + p.guards + 1) == EndAt(p, base)
  {
  }

  lemma LoopThenNext(p: Program, base: nat, n: nat, skips: set<nat>)
    requires p.Loop?
    ensures var rounds := LoopStarts(p, p.count, base, n, skips);
      Starts(p, base, n, skips) == rounds + Starts(p.next, RepeatAt(p, base) + 1, n + |rounds|, skips)
    ensures EndAt(p.next, RepeatAt(p, base) + 1) == EndAt(p, base)
  {
  }

  lemma RoundThenRounds(p: Program, k: nat, base: nat, n: nat, skips: set<nat>)
    requires p.Loop?
    ensures var round := RoundStarts(p, base, n, skips);
      LoopStarts(p, k, base, n, skips) ==
        if k == 0 || RoundIsSkipped(p, base, n, skips) then round else round + LoopStarts(p, k - 1, base, n + |round|, skips)
  {
  }

  lemma {:induction false} NobodyStops(guards: nat, n: nat)
    ensures !IsSkipped(guards, n, {})
    decreases guards
  {
    if guards > 0 { NobodyStops(guards - 1, n + 1); }
  }

  lemma NoRoundIsSkipped(p: Program, base: nat, n: nat, skips: set<nat>)
    requires p.Loop?
    ensures p.guards == 0 || skips == {} ==> !RoundIsSkipped(p, base, n, skips)
  {
    if skips == {} { NobodyStops(p.guards, n + |Starts(p.body, base, n, skips)|); }
  }

  lemma PastGuards(cmds: seq<Command>, a: nat, guards: nat, d: nat)
    requires Guarded(cmds, a, guards) && d <= guards
    ensures PastGroup(cmds, a + d) == a + guards + 1
    decreases guards - d
  {
    if d < guards { PastGuards(cmds, a, guards, d + 1); }
  }

  /** From position `from`, which is to make the n-th start, the list starts the trace, and it goes on at `to`. */
  ghost predicate Does(
    cmds: seq<Command>, rem: seq<nat>, from: nat, n: nat, skips: set<nat>, trace: seq<nat>, to: nat, rem': seq<nat>)
  {
    Runs(cmds, skips, State(from, rem, n), trace, State(to, rem', n + |trace|))
  }

  lemma DoesBoth(
      cmds: seq<Command>, rem: seq<nat>, from: nat, n: nat, skips: set<nat>, a: seq<nat>, mid: nat, rem1: seq<nat>,
      b: seq<nat>, to: nat, rem': seq<nat>)
    requires Does(cmds, rem, from, n, skips, a, mid, rem1) && Does(cmds, rem1, mid, n + |a|, skips, b, to, rem')
    ensures Does(cmds, rem, from, n, skips, a + b, to, rem')
  {
    RunOn(cmds, skips, State(from, rem, n), a, State(mid, rem1, n + |a|), b, State(to, rem', n + |a| + |b|));
  }

  /** An abort segment that does not skip, and what comes after it. */
  lemma GuardFirst(
      cmds: seq<Command>, rem: seq<nat>, a: nat, guards: nat, n: nat, skips: set<nat>, to: nat, rem': seq<nat>)
    requires ValidList(cmds) && ValidRemaining(cmds, rem) && Guarded(cmds, a, guards) && guards > 0 && n !in skips
    requires Does(cmds, rem, a + 1, n + 1, skips, GuardedStarts(a + 1, guards - 1, n + 1, skips), to, rem')
    ensures Does(cmds, rem, a, n, skips, GuardedStarts(a, guards, n, skips), to, rem')
  {
    RunOne(cmds, skips, State(a, rem, n));
    DoesBoth(cmds, rem, a, n, skips, [a], a + 1, rem, GuardedStarts(a + 1, guards - 1, n + 1, skips), to, rem');
  }

  /** If one of the abort segments skips, the segment they guard is passed over. */
  lemma {:induction false} FlatSkip(cmds: seq<Command>, rem: seq<nat>, a: nat, guards: nat, n: nat, skips: set<nat>)
    requires ValidList(cmds) && ValidRemaining(cmds, rem) && Guarded(cmds, a, guards) && IsSkipped(guards, n, skips)
    ensures Does(cmds, rem, a, n, skips, GuardedStarts(a, guards, n, skips), a + guards + 1, rem)
    decreases guards
  {
    if n in skips {
      PastGuards(cmds, a, guards, 0);
      RunOne(cmds, skips, State(a, rem, n));
      assert GuardedStarts(a, guards, n, skips) == [a];
    } else {
      FlatSkip(cmds, rem, a + 1, guards - 1, n + 1, skips);
      GuardFirst(cmds, rem, a, guards, n, skips, a + guards + 1, rem);
    }
  }

  /** If none of them does, it is started. */
  lemma {:induction false} FlatGuards(
      cmds: seq<Command>, rem: seq<nat>, a: nat, guards: nat, n: nat, skips: set<nat>, to: nat, rem': seq<nat>)
    requires ValidList(cmds) && ValidRemaining(cmds, rem) && Guarded(cmds, a, guards) && !IsSkipped(guards, n, skips)
    requires After(cmds, skips, State(a + guards, rem, n + guards)) == State(to, rem', n + guards + 1)
    ensures Does(cmds, rem, a, n, skips, GuardedStarts(a, guards, n, skips), to, rem')
    decreases guards
  {
    if guards == 0 {
      RunOne(cmds, skips, State(a, rem, n));
      assert GuardedStarts(a, guards, n, skips) == [a];
    } else {
      FlatGuards(cmds, rem, a + 1, guards - 1, n + 1, skips, to, rem');
      GuardFirst(cmds, rem, a, guards, n, skips, to, rem');
    }
  }

  /** The repeats of the range alone may have changed. */
  ghost predicate SameOutside(rem: seq<nat>, rem': seq<nat>, from: nat, to: nat) {
    |rem'| == |rem| && forall j :: 0 <= j < |rem| && !(from <= j < to) ==> rem'[j] == rem[j]
  }

  /** No inner loop is left by an abort segment, for lack of them or because none skips. */
  ghost predicate Tame(p: Program, skips: set<nat>) {
    NoInnerLoopIsGuarded(p) || skips == {}
  }

  /** Nor is any other loop. */
  ghost predicate Restored(p: Program, skips: set<nat>) {
    NoLoopIsGuarded(p) || skips == {}
  }

  lemma RestoredIsTame(p: Program, skips: set<nat>)
    requires Restored(p, skips)
    ensures Tame(p, skips)
  {
    if NoLoopIsGuarded(p) {
      InnerLoops(p);
    }
  }

  lemma {:induction false} InnerLoops(p: Program)
    requires NoLoopIsGuarded(p)
    ensures NoInnerLoopIsGuarded(p)
  {
    match p
    case End =>
    case Segment(_, _, next) => InnerLoops(next);
    case Loop(_, _, _, next) => InnerLoops(next);
  }

  /** The program has been run: what it has started, and what has become of the repeats. */
  ghost predicate Meant(cmds: seq<Command>, rem: seq<nat>, p: Program, base: nat, n: nat, skips: set<nat>, rem': seq<nat>) {
    && ValidRemaining(cmds, rem') && SameOutside(rem, rem', base, EndAt(p, base)) && (Restored(p, skips) ==> rem' == rem)
    && Does(cmds, rem, base, n, skips, Starts(p, base, n, skips), EndAt(p, base), rem')
  }

  /**
   * From the start of a program whose repeats are fresh, the flat list starts what the program starts, and goes on after
   * it. That holds whatever the abort segments do if none of them is in an inner loop's way out, and for all programs
   * if none of them skips. Afterwards the repeats are fresh again, except those of loops that were left by an abort segment.
   */
  lemma {:induction false} FlatMeansTrace(cmds: seq<Command>, rem: seq<nat>, p: Program, base: nat, n: nat, skips: set<nat>)
    returns (rem': seq<nat>)
    requires Ready(cmds, rem, p, base) && Tame(p, skips)
    ensures Meant(cmds, rem, p, base, n, skips, rem')
    decreases p, 2, 0
  {
    match p
    case End =>
      rem' := rem;
      RunNothing(cmds, skips, State(base, rem, n));
    case Segment(_, _, _) =>
      rem' := FlatSegment(cmds, rem, p, base, n, skips);
    case Loop(_, _, _, _) =>
      rem' := FlatLoop(cmds, rem, p, base, n, skips);
  }

  lemma {:induction false} FlatSegment(cmds: seq<Command>, rem: seq<nat>, p: Program, base: nat, n: nat, skips: set<nat>)
    returns (rem': seq<nat>)
    requires p.Segment? && Ready(cmds, rem, p, base) && Tame(p, skips)
    ensures Meant(cmds, rem, p, base, n, skips, rem')
    decreases p, 1, 0
  {
    var after, led := base + p.guards + 1, GuardedStarts(base, p.guards, n, skips);
    SegmentStarts(p, base, n, skips);
    if IsSkipped(p.guards, n, skips) {
      FlatSkip(cmds, rem, base, p.guards, n, skips);
    } else {
      FlatGuards(cmds, rem, base, p.guards, n, skips, after, rem);
    }
    rem' := FlatMeansTrace(cmds, rem, p.next, after, n + |led|, skips);
    DoesBoth(cmds, rem, base, n, skips, led, after, rem, Starts(p.next, after, n + |led|, skips), EndAt(p, base), rem');
  }

  lemma {:induction false} FlatLoop(cmds: seq<Command>, rem: seq<nat>, p: Program, base: nat, n: nat, skips: set<nat>)
    returns (rem': seq<nat>)
    requires p.Loop? && Ready(cmds, rem, p, base) && Tame(p, skips)
    ensures Meant(cmds, rem, p, base, n, skips, rem')
    decreases p, 1, 0
  {
    var j, rounds := RepeatAt(p, base), LoopStarts(p, p.count, base, n, skips);
    assert j < |rem| && rem[j := p.count] == rem by { NextReady(cmds, rem, p, base, p.count); }
    var left := LoopRepeats(cmds, rem, p, base, p.count, n, skips);
    rem' := FlatNext(cmds, rem, p, base, n + |rounds|, skips, left);
    assert Does(cmds, rem, base, n, skips, Starts(p, base, n, skips), EndAt(p, base), rem') by {
      LoopThenNext(p, base, n, skips);
      DoesBoth(cmds, rem, base, n, skips, rounds, j + 1, rem[j := left],
               Starts(p.next, j + 1, n + |rounds|, skips), EndAt(p, base), rem');
    }
  }

  /** What follows a loop does not depend on what the loop's repeat has left. */
  lemma {:induction false} FlatNext(
      cmds: seq<Command>, rem: seq<nat>, p: Program, base: nat, n: nat, skips: set<nat>, left: nat)
    returns (rem': seq<nat>)
    requires p.Loop? && Ready(cmds, rem, p, base) && Tame(p, skips) && left <= p.count
    ensures ValidRemaining(cmds, rem') && SameOutside(rem, rem', base, EndAt(p, base))
    ensures Restored(p, skips) && left == p.count ==> rem' == rem
    ensures var j := RepeatAt(p, base);
      j < |rem| && Does(cmds, rem[j := left], j + 1, n, skips, Starts(p.next, j + 1, n, skips), EndAt(p, base), rem')
    decreases p, 0, 0
  {
    var j := RepeatAt(p, base);
    NextReady(cmds, rem, p, base, left);
    rem' := FlatMeansTrace(cmds, rem[j := left], p.next, j + 1, n, skips);
  }

  lemma NextReady(cmds: seq<Command>, rem: seq<nat>, p: Program, base: nat, left: nat)
    requires p.Loop? && Ready(cmds, rem, p, base) && left <= p.count
    ensures var j := RepeatAt(p, base);
      && j < |rem| && Ready(cmds, rem[j := left], p.next, j + 1) && EndAt(p.next, j + 1) == EndAt(p, base)
      && (left == p.count ==> rem[j := left] == rem)
  {
    var j := RepeatAt(p, base);
    assert rem[j] == CountOf(cmds[j]) == p.count;
  }

  lemma BodyReady(cmds: seq<Command>, rem: seq<nat>, p: Program, base: nat, k: nat)
    requires p.Loop? && Ready(cmds, rem, p, base) && k <= p.count
    ensures var j := RepeatAt(p, base);
      && j < |rem| && Ready(cmds, rem[j := k], p.body, base) && ValidAt(cmds, j)
      && Guarded(cmds, EndAt(p.body, base), p.guards) && cmds[j] == Repeat(base, p.count)
  {
  }

  /** A loop that can jump back k more times does its rounds; what its repeat has left then is all of it unless a round was broken off. */
  lemma {:induction false} LoopRepeats(
      cmds: seq<Command>, rem: seq<nat>, p: Program, base: nat, k: nat, n: nat, skips: set<nat>)
    returns (left: nat)
    requires p.Loop? && Ready(cmds, rem, p, base) && Restored(p.body, skips) && k <= p.count
    ensures left <= p.count && (p.guards == 0 || skips == {} ==> left == p.count)
    ensures var j := RepeatAt(p, base);
      j < |rem| && Does(cmds, rem[j := k], base, n, skips, LoopStarts(p, k, base, n, skips), j + 1, rem[j := left])
    decreases p, 0, k + 1
  {
    var j, round := RepeatAt(p, base), RoundStarts(p, base, n, skips);
    RoundThenRounds(p, k, base, n, skips);
    OneLoopRound(cmds, rem, p, base, k, n, skips);
    NoRoundIsSkipped(p, base, n, skips);
    if RoundIsSkipped(p, base, n, skips) {
      left := k;
    } else if k == 0 {
      left := p.count;
    } else {
      left := LoopRepeats(cmds, rem, p, base, k - 1, n + |round|, skips);
      DoesBoth(cmds, rem[j := k], base, n, skips, round, base, rem[j := k - 1],
               LoopStarts(p, k - 1, base, n + |round|, skips), j + 1, rem[j := left]);
    }
  }

  /** Where a loop goes on after a round, and what its repeat has left. */
  function AfterRound(p: Program, base: nat, k: nat, n: nat, skips: set<nat>): (nat, nat)
    requires p.Loop?
  {
    if RoundIsSkipped(p, base, n, skips) then (RepeatAt(p, base) + 1, k)
    else if k == 0 then (RepeatAt(p, base) + 1, p.count)
    else (base, k - 1)
  }

  /** A round of a loop: its body, and the repeat with what guards it; then the next round, or what follows the loop. */
  lemma {:induction false} OneLoopRound(
      cmds: seq<Command>, rem: seq<nat>, p: Program, base: nat, k: nat, n: nat, skips: set<nat>)
    requires p.Loop? && Ready(cmds, rem, p, base) && Restored(p.body, skips) && k <= p.count
    ensures var j, after := RepeatAt(p, base), AfterRound(p, base, k, n, skips);
      && j < |rem|
      && Does(cmds, rem[j := k], base, n, skips, RoundStarts(p, base, n, skips), after.0, rem[j := after.1])
    decreases p, 0, 0
  {
    var j, mid, body := RepeatAt(p, base), EndAt(p.body, base), Starts(p.body, base, n, skips);
    var after := AfterRound(p, base, k, n, skips);
    BodyReady(cmds, rem, p, base, k);
    RestoredIsTame(p.body, skips);
    var same := FlatMeansTrace(cmds, rem[j := k], p.body, base, n, skips);
    FlatRepeat(cmds, rem, p, base, k, n, skips);
    DoesBoth(cmds, rem[j := k], base, n, skips, body, mid, rem[j := k],
             GuardedStarts(mid, p.guards, n + |body|, skips), after.0, rem[j := after.1]);
  }

  lemma FlatRepeat(cmds: seq<Command>, rem: seq<nat>, p: Program, base: nat, k: nat, n: nat, skips: set<nat>)
    requires p.Loop? && Ready(cmds, rem, p, base) && k <= p.count
    ensures var j, mid, after := RepeatAt(p, base), EndAt(p.body, base), AfterRound(p, base, k, n, skips);
      var n' := n + |Starts(p.body, base, n, skips)|;
      && j < |rem|
      && Does(cmds, rem[j := k], mid, n', skips, GuardedStarts(mid, p.guards, n', skips), after.0, rem[j := after.1])
  {
    var j, mid, after := RepeatAt(p, base), EndAt(p.body, base), AfterRound(p, base, k, n, skips);
    var n' := n + |Starts(p.body, base, n, skips)|;
    BodyReady(cmds, rem, p, base, k);
    if IsSkipped(p.guards, n', skips) {
      FlatSkip(cmds, rem[j := k], mid, p.guards, n', skips);
    } else {
      assert rem[j := k][j := after.1] == rem[j := after.1];
      FlatGuards(cmds, rem[j := k], mid, p.guards, n', skips, after.0, rem[j := after.1]);
    }
  }

  // ----- Without skips: loops unrolled -----

  function Range(a: nat, length: nat): (s: seq<nat>)
    ensures |s| == length
  {
    seq(length, i requires 0 <= i < length => a + i)
  }

  function Repetitions(s: seq<nat>, k: nat): seq<nat> {
    if k == 0 then [] else s + Repetitions(s, k - 1)
  }

  /** The program with its loops unrolled: a loop's body and repeat occur once more than the repeat's count, each time it is entered. */
  function Unroll(p: Program, base: nat): seq<nat> {
    match p
    case End => []
    case Segment(guards, _, next) => Range(base, guards + 1) + Unroll(next, base + guards + 1)
    case Loop(body, guards, count, next) =>
      Repetitions(Unroll(body, base) + Range(base + Size(body), guards + 1), count + 1)
      + Unroll(next, base + Size(body) + guards + 1)
  }

  function Unrolled(p: Program, base: nat): seq<nat> {
    Unroll(p, base)
  }

  function RoundUnrolled(p: Program, base: nat): seq<nat>
    requires p.Loop?
  {
    Unrolled(p.body, base) + Range(EndAt(p.body, base), p.guards + 1)
  }

  function RoundsUnrolled(p: Program, k: nat, base: nat): seq<nat>
    requires p.Loop?
  {
    Repetitions(RoundUnrolled(p, base), k)
  }

  lemma SegmentUnrolled(p: Program, base: nat)
    requires p.Segment?
    ensures Unrolled(p, base) == Range(base, p.guards + 1) + Unrolled(p.next, base + p.guards + 1)
  {
  }

  lemma LoopUnrolled(p: Program, base: nat)
    requires p.Loop?
    ensures Unrolled(p, base) == RoundsUnrolled(p, p.count + 1, base) + Unrolled(p.next, RepeatAt(p, base) + 1)
  {
  }

  lemma MoreRoundsUnrolled(p: Program, k: nat, base: nat)
    requires p.Loop?
    ensures RoundsUnrolled(p, k + 1, base) == RoundUnrolled(p, base) + RoundsUnrolled(p, k, base)
    ensures RoundsUnrolled(p, 0, base) == []
  {
  }

  /** None of these starts is that of an abort segment that skips. */
  ghost predicate Quiet(skips: set<nat>, n: nat, starts: nat) {
    forall m :: m in skips ==> !(n <= m < n + starts)
  }

  lemma QuietParts(skips: set<nat>, n: nat, a: nat, b: nat)
    ensures Quiet(skips, n, a + b) <==> Quiet(skips, n, a) && Quiet(skips, n + a, b)
  {
  }

  lemma {:induction false} QuietGuards(a: nat, guards: nat, n: nat, skips: set<nat>)
    requires Quiet(skips, n, guards + 1)
    ensures !IsSkipped(guards, n, skips) && GuardedStarts(a, guards, n, skips) == Range(a, guards + 1)
    decreases guards
  {
    if guards > 0 {
      QuietParts(skips, n, 1, guards);
      QuietGuards(a + 1, guards - 1, n + 1, skips);
      assert Range(a, guards + 1) == [a] + Range(a + 1, guards);
    }
  }

  /** Where no abort segment skips, a program starts what its unrolling starts. */
  lemma {:induction false} QuietStarts(p: Program, base: nat, n: nat, skips: set<nat>)
    requires Quiet(skips, n, |Unrolled(p, base)|)
    ensures Starts(p, base, n, skips) == Unrolled(p, base)
    decreases p, 1, 0
  {
    match p
    case End =>
    case Segment(guards, _, next) =>
      SegmentStarts(p, base, n, skips);
      SegmentUnrolled(p, base);
      QuietParts(skips, n, guards + 1, |Unrolled(next, base + guards + 1)|);
      QuietGuards(base, guards, n, skips);
      QuietStarts(next, base + guards + 1, n + guards + 1, skips);
    case Loop(_, _, count, next) =>
      var rounds := RoundsUnrolled(p, count + 1, base);
      LoopThenNext(p, base, n, skips);
      LoopUnrolled(p, base);
      QuietParts(skips, n, |rounds|, |Unrolled(next, RepeatAt(p, base) + 1)|);
      QuietRounds(p, count, base, n, skips);
      QuietStarts(next, RepeatAt(p, base) + 1, n + |rounds|, skips);
  }

  lemma {:induction false} QuietRounds(p: Program, k: nat, base: nat, n: nat, skips: set<nat>)
    requires p.Loop? && Quiet(skips, n, |RoundsUnrolled(p, k + 1, base)|)
    ensures LoopStarts(p, k, base, n, skips) == RoundsUnrolled(p, k + 1, base)
    decreases p, 0, k + 1
  {
    var round := RoundUnrolled(p, base);
    MoreRoundsUnrolled(p, k, base);
    RoundThenRounds(p, k, base, n, skips);
    QuietParts(skips, n, |round|, |RoundsUnrolled(p, k, base)|);
    QuietRound(p, base, n, skips);
    if k == 0 {
      assert round + [] == round;
    } else {
      QuietRounds(p, k - 1, base, n + |round|, skips);
    }
  }

  lemma {:induction false} QuietRound(p: Program, base: nat, n: nat, skips: set<nat>)
    requires p.Loop? && Quiet(skips, n, |RoundUnrolled(p, base)|)
    ensures RoundStarts(p, base, n, skips) == RoundUnrolled(p, base) && !RoundIsSkipped(p, base, n, skips)
    decreases p, 0, 0
  {
    var body := Unrolled(p.body, base);
    QuietParts(skips, n, |body|, p.guards + 1);
    QuietStarts(p.body, base, n, skips);
    QuietGuards(EndAt(p.body, base), p.guards, n + |body|, skips);
  }

  /** There the flat list does the same, and leaves all repeats as they were. */
  lemma FlatQuiet(cmds: seq<Command>, rem: seq<nat>, p: Program, base: nat, n: nat, skips: set<nat>)
    requires Ready(cmds, rem, p, base) && Quiet(skips, n, |Unrolled(p, base)|)
    ensures Does(cmds, rem, base, n, skips, Unrolled(p, base), EndAt(p, base), rem)
  {
    QuietStarts(p, base, n, {});
    var same := FlatMeansTrace(cmds, rem, p, base, n, {});
    RunsAlike(cmds, {}, skips, State(base, rem, n), Unrolled(p, base), State(EndAt(p, base), rem, n + |Unrolled(p, base)|));
  }

  // ----- Whole programs -----

  ghost function Begin(cmds: seq<Command>): State {
    State(0, FreshRemaining(cmds), 0)
  }

  /** The list runs to its end, and starts exactly the trace. */
  ghost predicate RunsThrough(cmds: seq<Command>, skips: set<nat>, trace: seq<nat>) {
    exists s {:trigger Runs(cmds, skips, Begin(cmds), trace, s)} :: Runs(cmds, skips, Begin(cmds), trace, s) && s.at == |cmds|
  }

  lemma ReadyFromTheStart(p: Program)
    requires WellFormed(p)
    ensures Ready(Flatten(p, 0), FreshRemaining(Flatten(p, 0)), p, 0)
  {
    FlattenIsValid(p);
  }

  /** A program sent as a list starts what the program starts, whatever the abort segments do, unless one can end an inner loop. */
  lemma FlatMeansProgram(p: Program, skips: set<nat>)
    requires WellFormed(p) && NoInnerLoopIsGuarded(p)
    ensures ValidList(Flatten(p, 0)) && RunsThrough(Flatten(p, 0), skips, Trace(p, 0, 0, skips))
  {
    var cmds, trace := Flatten(p, 0), Starts(p, 0, 0, skips);
    FlattenIsValid(p);
    ReadyFromTheStart(p);
    var rem' := FlatMeansTrace(cmds, FreshRemaining(cmds), p, 0, 0, skips);
    assert Runs(cmds, skips, Begin(cmds), trace, State(|cmds|, rem', |trace|));
  }

  /** If no abort segment skips, any program sent as a list starts exactly its loops unrolled. */
  lemma FlatRepeatsMeanUnrolledLoops(p: Program)
    requires WellFormed(p)
    ensures ValidList(Flatten(p, 0)) && RunsThrough(Flatten(p, 0), {}, Unroll(p, 0))
  {
    var cmds, trace := Flatten(p, 0), Unrolled(p, 0);
    FlattenIsValid(p);
    ReadyFromTheStart(p);
    FlatQuiet(cmds, FreshRemaining(cmds), p, 0, 0, {});
    assert Runs(cmds, {}, Begin(cmds), trace, State(|cmds|, FreshRemaining(cmds), |trace|));
  }
}
