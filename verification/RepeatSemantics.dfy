/** What a flat list of segments with counted backward jumps means, and why it always ends. */
module RepeatSemantics {

  /** A segment's command. A repeat jumps back to `target` so many times before it lets go. */
  datatype Command = Plain(hasRun: bool) | Repeat(target: nat, count: nat) | Abort

  /** What the repeat segments' own validation asks: jump strictly backwards, at least once. */
  predicate ValidAt(cmds: seq<Command>, j: nat)
    requires j < |cmds|
  {
    cmds[j].Repeat? ==> cmds[j].target < j && cmds[j].count > 0
  }

  ghost predicate ValidList(cmds: seq<Command>) {
    forall j :: 0 <= j < |cmds| ==> ValidAt(cmds, j)
  }

  function CountOf(c: Command): nat {
    if c.Repeat? then c.count else 0
  }

  /** The jumps each repeat still has to make before it lets go. */
  ghost predicate ValidRemaining(cmds: seq<Command>, rem: seq<nat>) {
    |rem| == |cmds| && forall j :: 0 <= j < |cmds| ==> rem[j] <= CountOf(cmds[j])
  }

  // ----- The measure -----

  /** The weight of one jump of repeat k: more than everything the segments below it can spend. */
  ghost function Radix(cmds: seq<Command>, k: nat): (w: nat)
    requires k <= |cmds|
    ensures w > 0
  {
    if k == 0 then |cmds| + 1 else Times(CountOf(cmds[k - 1]) + 1, Radix(cmds, k - 1))
  }

  /** Multiplication by repeated addition. */
  ghost function Times(a: nat, b: nat): (r: nat)
    ensures a > 0 && b > 0 ==> r > 0
  {
    if a == 0 then 0 else Times(a - 1, b) + b
  }

  lemma {:induction false} TimesMonotone(a: nat, a': nat, b: nat)
    requires a <= a'
    ensures Times(a, b) <= Times(a', b)
  {
    if a < a' {
      TimesMonotone(a, a' - 1, b);
    }
  }

  /** What is left to spend at position i, counting the first k segments: jumps of the repeats still ahead, and the way to the end. */
  ghost function Pot(cmds: seq<Command>, rem: seq<nat>, i: nat, k: nat): nat
    requires |rem| == |cmds| && k <= |cmds| && i <= |cmds|
  {
    if k == 0 then |cmds| - i
    else Pot(cmds, rem, i, k - 1) + (if i <= k - 1 then Times(rem[k - 1], Radix(cmds, k - 1)) else 0)
  }

  ghost function Measure(cmds: seq<Command>, rem: seq<nat>, i: nat): nat
    requires |rem| == |cmds| && i <= |cmds|
  {
    Pot(cmds, rem, i, |cmds|)
  }

  lemma {:induction false} PotBelowRadix(cmds: seq<Command>, rem: seq<nat>, i: nat, k: nat)
    requires ValidRemaining(cmds, rem) && k <= |cmds| && i <= |cmds|
    ensures Pot(cmds, rem, i, k) < Radix(cmds, k)
  {
    if k > 0 {
      PotBelowRadix(cmds, rem, i, k - 1);
      TimesMonotone(rem[k - 1], CountOf(cmds[k - 1]), Radix(cmds, k - 1));
    }
  }

  /** Moving forward spends at least the distance, whatever becomes of the repeats left behind. */
  lemma {:induction false} ForwardSpends(cmds: seq<Command>, rem: seq<nat>, rem': seq<nat>, i: nat, i': nat, k: nat)
    requires |rem| == |rem'| == |cmds| && k <= |cmds| && i <= i' <= |cmds|
    requires forall j :: i' <= j < |cmds| ==> rem'[j] == rem[j]
    ensures Pot(cmds, rem', i', k) + (i' - i) <= Pot(cmds, rem, i, k)
  {
    if k > 0 {
      ForwardSpends(cmds, rem, rem', i, i', k - 1);
    }
  }

  /** A jump back spends one of the repeat's own jumps, which outweighs everything it makes available again. */
  lemma {:induction false} JumpSpends(cmds: seq<Command>, rem: seq<nat>, j: nat, target: nat, k: nat)
    requires ValidRemaining(cmds, rem) && target <= j < k <= |cmds| && rem[j] > 0
    ensures Pot(cmds, rem[j := rem[j] - 1], target, k) < Pot(cmds, rem, j, k)
  {
    var rem' := rem[j := rem[j] - 1];
    if k == j + 1 {
      PotBelowRadix(cmds, rem', target, j);
    } else {
      JumpSpends(cmds, rem, j, target, k - 1);
    }
  }

  // ----- The flat meaning -----

  /** Where execution goes on when an abort segment skips: past its group of aborts and the segment they guard. */
  function PastGroup(cmds: seq<Command>, i: nat): (next: nat)
    requires i < |cmds|
    ensures i < next <= |cmds|
    decreases |cmds| - i
  {
    if !cmds[i].Abort? then i + 1
    else if i + 1 == |cmds| then |cmds|
    else PastGroup(cmds, i + 1)
  }

  /** Where a run is between two starts: the segment to start next, the jumps its repeats have left, and the starts made so far. */
  datatype State = State(at: nat, rem: seq<nat>, starts: nat)

  ghost predicate ValidState(cmds: seq<Command>, s: State) {
    ValidList(cmds) && ValidRemaining(cmds, s.rem) && s.at <= |cmds|
  }

  /**
   * A segment is started and left again. It is followed by the next one, except that a repeat with jumps left is followed
   * by its target. `skips` says which starts are those of abort segments that skip what they guard.
   */
  ghost function After(cmds: seq<Command>, skips: set<nat>, s: State): (s': State)
    requires ValidState(cmds, s) && s.at < |cmds|
    ensures ValidState(cmds, s')
  {
    var c, n := cmds[s.at], s.starts + 1;
    assert ValidAt(cmds, s.at);
    if c.Abort? && s.starts in skips then State(PastGroup(cmds, s.at), s.rem, n)
    else if !c.Repeat? then State(s.at + 1, s.rem, n)
    else if s.rem[s.at] > 0 then State(c.target, s.rem[s.at := s.rem[s.at] - 1], n)
    else State(s.at + 1, s.rem[s.at := c.count], n)
  }

  ghost predicate IsStep(cmds: seq<Command>, skips: set<nat>, s: State, started: nat, s': State) {
    ValidState(cmds, s) && started == s.at < |cmds| && s' == After(cmds, skips, s)
  }

  /** The states between the starts of the trace, each the one after the state before it. */
  ghost predicate IsPath(cmds: seq<Command>, skips: set<nat>, trace: seq<nat>, path: seq<State>) {
    && |path| == |trace| + 1 && ValidState(cmds, path[0])
    && forall k {:trigger trace[k]} :: 0 <= k < |trace| ==> IsStep(cmds, skips, path[k], trace[k], path[k + 1])
  }

  /** From s, the flat list starts the segments of the trace and is in s' then. */
  ghost predicate Runs(cmds: seq<Command>, skips: set<nat>, s: State, trace: seq<nat>, s': State) {
    exists path {:trigger IsPath(cmds, skips, trace, path)} :: IsPath(cmds, skips, trace, path) && path[0] == s && path[|trace|] == s'
  }

  lemma RunNothing(cmds: seq<Command>, skips: set<nat>, s: State)
    requires ValidState(cmds, s)
    ensures Runs(cmds, skips, s, [], s)
  {
    assert IsPath(cmds, skips, [], [s]);
  }

  lemma RunOne(cmds: seq<Command>, skips: set<nat>, s: State)
    requires ValidState(cmds, s) && s.at < |cmds|
    ensures Runs(cmds, skips, s, [s.at], After(cmds, skips, s))
  {
    assert IsPath(cmds, skips, [s.at], [s, After(cmds, skips, s)]);
  }

  lemma RunOn(cmds: seq<Command>, skips: set<nat>, s: State, a: seq<nat>, s1: State, b: seq<nat>, s2: State)
    requires Runs(cmds, skips, s, a, s1) && Runs(cmds, skips, s1, b, s2)
    ensures Runs(cmds, skips, s, a + b, s2)
  {
    var p: seq<State> :| IsPath(cmds, skips, a, p) && p[0] == s && p[|a|] == s1;
    var q: seq<State> :| IsPath(cmds, skips, b, q) && q[0] == s1 && q[|b|] == s2;
    PathOn(cmds, skips, a, p, b, q);
  }

  lemma PathOn(cmds: seq<Command>, skips: set<nat>, a: seq<nat>, p: seq<State>, b: seq<nat>, q: seq<State>)
    requires IsPath(cmds, skips, a, p) && IsPath(cmds, skips, b, q) && q[0] == p[|a|]
    ensures var path := p + q[1..]; IsPath(cmds, skips, a + b, path) && path[0] == p[0] && path[|a + b|] == q[|b|]
  {
    var path := p + q[1..];
    forall k | 0 <= k < |a + b| ensures IsStep(cmds, skips, path[k], (a + b)[k], path[k + 1]) {
      if k < |a| {
        assert IsStep(cmds, skips, p[k], a[k], p[k + 1]);
      } else {
        assert IsStep(cmds, skips, q[k - |a|], b[k - |a|], q[k - |a| + 1]);
        assert path[k] == q[k - |a|];
      }
    }
  }

  /** A run that has been going on for a while is at a valid place, has counted its starts, and has paid for each of them. */
  lemma RunSpends(cmds: seq<Command>, skips: set<nat>, s: State, trace: seq<nat>, s': State)
    requires Runs(cmds, skips, s, trace, s')
    ensures ValidState(cmds, s) && ValidState(cmds, s') && s'.starts == s.starts + |trace|
    ensures |trace| + Measure(cmds, s'.rem, s'.at) <= Measure(cmds, s.rem, s.at)
  {
    var path: seq<State> :| IsPath(cmds, skips, trace, path) && path[0] == s && path[|trace|] == s';
    PathSpends(cmds, skips, trace, path, |trace|);
  }

  lemma {:induction false} PathSpends(cmds: seq<Command>, skips: set<nat>, trace: seq<nat>, path: seq<State>, k: nat)
    requires IsPath(cmds, skips, trace, path) && k <= |trace|
    ensures ValidState(cmds, path[k]) && path[k].starts == path[0].starts + k
    ensures k + Measure(cmds, path[k].rem, path[k].at) <= Measure(cmds, path[0].rem, path[0].at)
  {
    if k > 0 {
      PathSpends(cmds, skips, trace, path, k - 1);
      assert trace[k - 1] == path[k - 1].at;
      AfterSpends(cmds, skips, path[k - 1]);
    }
  }

  lemma AfterSpends(cmds: seq<Command>, skips: set<nat>, s: State)
    requires ValidState(cmds, s) && s.at < |cmds|
    ensures var s' := After(cmds, skips, s); Measure(cmds, s'.rem, s'.at) < Measure(cmds, s.rem, s.at)
  {
    var s' := After(cmds, skips, s);
    assert ValidAt(cmds, s.at);
    if s.at < s'.at {
      ForwardSpends(cmds, s.rem, s'.rem, s.at, s'.at, |cmds|);
    } else {
      JumpSpends(cmds, s.rem, s.at, s'.at, |cmds|);
    }
  }

  /** A list has one run only, for given decisions: one that is over is an extension of every other. */
  lemma OneRunOnly(cmds: seq<Command>, skips: set<nat>, s: State, a: seq<nat>, s1: State, b: seq<nat>, s2: State)
    requires Runs(cmds, skips, s, a, s1) && Runs(cmds, skips, s, b, s2) && s2.at == |cmds|
    ensures a <= b && (s1.at == |cmds| ==> |a| == |b| && s1 == s2)
  {
    var p: seq<State> :| IsPath(cmds, skips, a, p) && p[0] == s && p[|a|] == s1;
    var q: seq<State> :| IsPath(cmds, skips, b, q) && q[0] == s && q[|b|] == s2;
    OnePathOnly(cmds, skips, a, p, b, q);
  }

  lemma OnePathOnly(cmds: seq<Command>, skips: set<nat>, a: seq<nat>, p: seq<State>, b: seq<nat>, q: seq<State>)
    requires IsPath(cmds, skips, a, p) && IsPath(cmds, skips, b, q) && p[0] == q[0] && q[|b|].at == |cmds|
    ensures a <= b && (p[|a|].at == |cmds| ==> |a| == |b| && p[|a|] == q[|b|])
  {
    var n := if |a| <= |b| then |a| else |b|;
    SamePath(cmds, skips, a, p, b, q, n);
    NotOver(cmds, skips, a, p, n);
    NotOver(cmds, skips, b, q, n);
    assert a[..|a|] == a;
  }

  lemma NotOver(cmds: seq<Command>, skips: set<nat>, trace: seq<nat>, path: seq<State>, k: nat)
    requires IsPath(cmds, skips, trace, path) && k <= |trace|
    ensures k < |trace| ==> path[k].at < |cmds|
  {
    assert k < |trace| ==> trace[k] == path[k].at;
  }

  lemma {:induction false} SamePath(
      cmds: seq<Command>, skips: set<nat>, a: seq<nat>, p: seq<State>, b: seq<nat>, q: seq<State>, n: nat)
    requires IsPath(cmds, skips, a, p) && IsPath(cmds, skips, b, q) && p[0] == q[0] && n <= |a| && n <= |b|
    ensures a[..n] == b[..n] && p[n] == q[n]
  {
    if n > 0 {
      SamePath(cmds, skips, a, p, b, q, n - 1);
      assert a[n - 1] == p[n - 1].at && b[n - 1] == q[n - 1].at;
      assert a[..n] == a[..n - 1] + [a[n - 1]] && b[..n] == b[..n - 1] + [b[n - 1]];
    }
  }

  /** Only the decisions made at its own starts matter to a run. */
  lemma RunsAlike(cmds: seq<Command>, skips: set<nat>, skips': set<nat>, s: State, trace: seq<nat>, s': State)
    requires Runs(cmds, skips, s, trace, s')
    requires forall n :: s.starts <= n < s.starts + |trace| ==> (n in skips <==> n in skips')
    ensures Runs(cmds, skips', s, trace, s')
  {
    var path: seq<State> :| IsPath(cmds, skips, trace, path) && path[0] == s && path[|trace|] == s';
    forall k | 0 <= k < |trace| ensures IsStep(cmds, skips', path[k], trace[k], path[k + 1]) {
      PathSpends(cmds, skips, trace, path, k);
      assert IsStep(cmds, skips, path[k], trace[k], path[k + 1]);
    }
    assert IsPath(cmds, skips', trace, path);
  }

  ghost function FreshRemaining(cmds: seq<Command>): (rem: seq<nat>)
    ensures ValidRemaining(cmds, rem)
  {
    seq(|cmds|, j requires 0 <= j < |cmds| => CountOf(cmds[j]))
  }
}
