/** What a set of signals means: windows, delays, and the value of every signal at every index. */
module Signals {

  /** A double as the calculator tells them apart: the three marker constants, the IEEE specials, and the rest. */
  datatype Value = Num(r: real) | Dne | NanMark | InfMark | IeeeNan | IeeeInf

  /** A result as it is stored: the IEEE specials become their markers. */
  function Sanitize(v: Value): (r: Value)
    ensures !r.IeeeNan? && !r.IeeeInf?
    ensures !v.IeeeNan? && !v.IeeeInf? ==> r == v
    ensures r == NanMark <==> v in {IeeeNan, NanMark}
    ensures r == InfMark <==> v in {IeeeInf, InfMark}
  {
    match v
    case IeeeNan => NanMark
    case IeeeInf => InfMark
    case _ => v
  }

  /** A signal may read `source` from `back` indices behind its own index to `fwd` indices ahead of it. */
  datatype Input = Input(source: nat, back: nat, fwd: nat)

  /** A calculated signal: the calculation sees one window per input and nothing else. */
  datatype Calc = Calc(inputs: seq<Input>, f: seq<seq<Value>> -> Value)

  /** Raw signals take the result indices below `raws`, calculated ones follow in table order. */
  datatype System = System(raws: nat, calcs: seq<Calc>) {
    function Size(): nat { raws + |calcs| }

    function Inputs(s: nat): seq<Input>
      requires s < Size()
    {
      if s < raws then [] else calcs[s - raws].inputs
    }

    /** Every signal reads only signals before it in the table. */
    ghost predicate Ordered() {
      forall s, i :: 0 <= s < Size() && 0 <= i < |Inputs(s)| ==> Inputs(s)[i].source < s
    }
  }

  datatype Direction = Back | Fwd

  function Window(d: Direction, i: Input): nat {
    if d == Back then i.back else i.fwd
  }

  function Max(a: nat, b: nat): nat {
    if a < b then b else a
  }

  // ----- Delays -----

  /** The widest window among the first k inputs. */
  function RelDelay(d: Direction, ins: seq<Input>, k: nat): nat
    requires k <= |ins|
  {
    if k == 0 then 0 else Max(RelDelay(d, ins, k - 1), Window(d, ins[k - 1]))
  }

  /** The total delay of a signal in one direction: its inputs' windows plus those inputs' own delays. */
  ghost function AbsDelay(sys: System, d: Direction, s: nat): nat
    requires sys.Ordered() && s < sys.Size()
    decreases s, 1, 0
  {
    AbsDelayUpTo(sys, d, s, |sys.Inputs(s)|)
  }

  ghost function AbsDelayUpTo(sys: System, d: Direction, s: nat, k: nat): nat
    requires sys.Ordered() && s < sys.Size() && k <= |sys.Inputs(s)|
    decreases s, 0, k
  {
    if k == 0 then 0 else Max(AbsDelayUpTo(sys, d, s, k - 1), ThroughInput(sys, d, s, k - 1))
  }

  ghost function ThroughInput(sys: System, d: Direction, s: nat, i: nat): nat
    requires sys.Ordered() && s < sys.Size() && i < |sys.Inputs(s)|
    decreases s, 0, i
  {
    Window(d, sys.Inputs(s)[i]) + AbsDelay(sys, d, sys.Inputs(s)[i].source)
  }

  lemma {:induction false} RelDelayBounds(d: Direction, ins: seq<Input>, k: nat, i: nat)
    requires i < k <= |ins|
    ensures Window(d, ins[i]) <= RelDelay(d, ins, k)
  {
    if i < k - 1 {
      RelDelayBounds(d, ins, k - 1, i);
    }
  }

  /** The widest window is that of some input. */
  lemma {:induction false} RelDelayAttained(d: Direction, ins: seq<Input>, k: nat)
    requires k <= |ins|
    ensures RelDelay(d, ins, k) == 0 || exists i :: 0 <= i < k && Window(d, ins[i]) == RelDelay(d, ins, k)
  {
    if k > 0 {
      RelDelayAttained(d, ins, k - 1);
      assert RelDelay(d, ins, k) == RelDelay(d, ins, k - 1) || RelDelay(d, ins, k) == Window(d, ins[k - 1]);
    }
  }

  lemma {:induction false} AbsDelayUpToBounds(sys: System, d: Direction, s: nat, k: nat, i: nat)
    requires sys.Ordered() && s < sys.Size() && i < k <= |sys.Inputs(s)|
    ensures ThroughInput(sys, d, s, i) <= AbsDelayUpTo(sys, d, s, k)
  {
    if i < k - 1 {
      AbsDelayUpToBounds(sys, d, s, k - 1, i);
    }
  }

  lemma {:induction false} AbsDelayUpToAttained(sys: System, d: Direction, s: nat, k: nat) returns (i: nat)
    requires sys.Ordered() && s < sys.Size() && 0 < k <= |sys.Inputs(s)|
    ensures i < k && ThroughInput(sys, d, s, i) == AbsDelayUpTo(sys, d, s, k)
  {
    i := k - 1;
    if k > 1 && ThroughInput(sys, d, s, i) < AbsDelayUpTo(sys, d, s, k - 1) {
      i := AbsDelayUpToAttained(sys, d, s, k - 1);
    }
  }

  /** A dependency chain from signal s, as the input taken at each signal on the way. */
  ghost predicate IsChain(sys: System, s: nat, chain: seq<nat>)
    requires sys.Ordered() && s < sys.Size()
    decreases |chain|
  {
    chain == [] || (chain[0] < |sys.Inputs(s)| && IsChain(sys, sys.Inputs(s)[chain[0]].source, chain[1..]))
  }

  /** The chain cannot be extended: it has reached a raw signal (or a calculation without inputs). */
  ghost predicate ReachesLeaf(sys: System, s: nat, chain: seq<nat>)
    requires sys.Ordered() && s < sys.Size() && IsChain(sys, s, chain)
    decreases |chain|
  {
    if chain == [] then sys.Inputs(s) == [] else ReachesLeaf(sys, sys.Inputs(s)[chain[0]].source, chain[1..])
  }

  /** The sum of the windows along a chain. */
  ghost function ChainDelay(sys: System, d: Direction, s: nat, chain: seq<nat>): nat
    requires sys.Ordered() && s < sys.Size() && IsChain(sys, s, chain)
    decreases |chain|
  {
    if chain == [] then 0
    else Window(d, sys.Inputs(s)[chain[0]]) + ChainDelay(sys, d, sys.Inputs(s)[chain[0]].source, chain[1..])
  }

  lemma {:induction false} NoChainIsLonger(sys: System, d: Direction, s: nat, chain: seq<nat>)
    requires sys.Ordered() && s < sys.Size() && IsChain(sys, s, chain)
    ensures ChainDelay(sys, d, s, chain) <= AbsDelay(sys, d, s)
    decreases |chain|
  {
    if chain != [] {
      NoChainIsLonger(sys, d, sys.Inputs(s)[chain[0]].source, chain[1..]);
      AbsDelayUpToBounds(sys, d, s, |sys.Inputs(s)|, chain[0]);
    }
  }

  lemma {:induction false} LongestChain(sys: System, d: Direction, s: nat) returns (chain: seq<nat>)
    requires sys.Ordered() && s < sys.Size()
    ensures IsChain(sys, s, chain) && ReachesLeaf(sys, s, chain)
    ensures ChainDelay(sys, d, s, chain) == AbsDelay(sys, d, s)
    decreases s
  {
    if sys.Inputs(s) == [] {
      chain := [];
    } else {
      var i := AbsDelayUpToAttained(sys, d, s, |sys.Inputs(s)|);
      var rest := LongestChain(sys, d, sys.Inputs(s)[i].source);
      chain := [i] + rest;
      assert chain[1..] == rest;
    }
  }

  /** The recursive delay is the longest path to a leaf: no chain sums to more, and a complete one sums to exactly it. */
  lemma AbsDelayIsLongestPath(sys: System, d: Direction, s: nat)
    requires sys.Ordered() && s < sys.Size()
    ensures forall chain :: IsChain(sys, s, chain) ==> ChainDelay(sys, d, s, chain) <= AbsDelay(sys, d, s)
    ensures exists chain :: IsChain(sys, s, chain) && ReachesLeaf(sys, s, chain) && ChainDelay(sys, d, s, chain) == AbsDelay(sys, d, s)
  {
    forall chain | IsChain(sys, s, chain)
      ensures ChainDelay(sys, d, s, chain) <= AbsDelay(sys, d, s)
    {
      NoChainIsLonger(sys, d, s, chain);
    }
    var longest := LongestChain(sys, d, s);
  }

  /** What one input adds to the delays of the signal that reads it. */
  lemma DelayThroughInput(sys: System, d: Direction, s: nat, i: nat)
    requires sys.Ordered() && s < sys.Size() && i < |sys.Inputs(s)|
    ensures sys.Inputs(s)[i].source < s
    ensures Window(d, sys.Inputs(s)[i]) + AbsDelay(sys, d, sys.Inputs(s)[i].source) <= AbsDelay(sys, d, s)
  {
    AbsDelayUpToBounds(sys, d, s, |sys.Inputs(s)|, i);
  }

  // ----- Meaning -----

  /** One row of raw samples per run of the epoch so far. */
  type History = seq<seq<Value>>

  ghost predicate Complete(sys: System, hist: History) {
    forall t :: 0 <= t < |hist| ==> |hist[t]| == sys.raws
  }

  /** The mathematical value of signal s at index n, by recursion on the table order. */
  ghost function Val(sys: System, hist: History, s: nat, n: int): Value
    requires sys.Ordered() && s < sys.Size() && Complete(sys, hist)
    decreases s, 1
  {
    if s < sys.raws then
      if 0 <= n < |hist| then Sanitize(hist[n][s]) else Dne
    else
      Sanitize(sys.calcs[s - sys.raws].f(Readings(sys, hist, s, n)))
  }

  /** The windows that signal s sees at index n. */
  ghost function Readings(sys: System, hist: History, s: nat, n: int): seq<seq<Value>>
    requires sys.Ordered() && s < sys.Size() && Complete(sys, hist)
    decreases s, 0
  {
    seq(|sys.Inputs(s)|, i requires 0 <= i < |sys.Inputs(s)| => Reading(sys, hist, sys.Inputs(s)[i], n))
  }

  ghost function Reading(sys: System, hist: History, input: Input, n: int): seq<Value>
    requires sys.Ordered() && input.source < sys.Size() && Complete(sys, hist)
    decreases input.source, 2
  {
    seq(input.back + input.fwd + 1, k => Val(sys, hist, input.source, n - input.back + k))
  }

  /** For each input one window, whose k-th entry is the input's value that many places after the first one the window allows. */
  ghost predicate IsWindows(sys: System, hist: History, ins: seq<Input>, n: int, w: seq<seq<Value>>)
    requires sys.Ordered() && Complete(sys, hist) && forall i :: 0 <= i < |ins| ==> ins[i].source < sys.Size()
  {
    |w| == |ins| && forall i :: 0 <= i < |ins| ==> IsWindow(sys, hist, ins[i], n, w[i])
  }

  ghost predicate IsWindow(sys: System, hist: History, input: Input, n: int, w: seq<Value>)
    requires sys.Ordered() && Complete(sys, hist) && input.source < sys.Size()
  {
    |w| == input.back + input.fwd + 1 && forall k :: 0 <= k < |w| ==> w[k] == Val(sys, hist, input.source, n - input.back + k)
  }

  /** The windows that a signal sees, and there are no others. */
  lemma ReadingsAreWindows(sys: System, hist: History, s: nat, n: int, w: seq<seq<Value>>)
    requires sys.Ordered() && s < sys.Size() && Complete(sys, hist)
    ensures IsWindows(sys, hist, sys.Inputs(s), n, w) <==> w == Readings(sys, hist, s, n)
  {
    var ins := sys.Inputs(s);
    if IsWindows(sys, hist, ins, n, w) {
      forall i | 0 <= i < |ins| ensures w[i] == Reading(sys, hist, ins[i], n) {
        assert IsWindow(sys, hist, ins[i], n, w[i]);
      }
    }
    forall i | 0 <= i < |ins| ensures IsWindow(sys, hist, ins[i], n, Reading(sys, hist, ins[i], n)) {
    }
  }

  /** A raw signal is its samples, and a calculated one what its calculation makes of the windows of its inputs. */
  lemma ValueIsCalculated(sys: System, hist: History, s: nat, n: int, w: seq<seq<Value>>)
    requires sys.Ordered() && s < sys.Size() && Complete(sys, hist) && IsWindows(sys, hist, sys.Inputs(s), n, w)
    ensures s < sys.raws && 0 <= n < |hist| ==> Val(sys, hist, s, n) == Sanitize(hist[n][s])
    ensures s >= sys.raws ==> Val(sys, hist, s, n) == Sanitize(sys.calcs[s - sys.raws].f(w))
  {
    ReadingsAreWindows(sys, hist, s, n, w);
  }

  /** A calculation that returns one of the entries it sees makes its signal a delay, or an advance, of that input. */
  lemma EntryIsDelay(sys: System, hist: History, s: nat, n: int, i: nat, k: nat)
    requires sys.Ordered() && sys.raws <= s < sys.Size() && Complete(sys, hist) && i < |sys.Inputs(s)|
    requires k <= sys.Inputs(s)[i].back + sys.Inputs(s)[i].fwd && sys.Inputs(s)[i].source < s
    requires forall w: seq<seq<Value>> :: |w| > i && |w[i]| > k ==> sys.calcs[s - sys.raws].f(w) == w[i][k]
    ensures Val(sys, hist, s, n) == Val(sys, hist, sys.Inputs(s)[i].source, n - sys.Inputs(s)[i].back + k)
  {
    var w := Readings(sys, hist, s, n);
    assert w[i] == Reading(sys, hist, sys.Inputs(s)[i], n);
  }

  /** What is recorded for signal s at index n: nothing until all the data behind it exists, then its value. */
  ghost function Cell(sys: System, hist: History, s: nat, n: int): Value
    requires sys.Ordered() && s < sys.Size() && Complete(sys, hist)
  {
    if n < AbsDelay(sys, Back, s) then Dne else Val(sys, hist, s, n)
  }

  /** An index that signal s looks at through one of its inputs when it is computed at n. */
  ghost predicate Looks(sys: System, s: nat, n: int, i: nat, m: int)
    requires s < sys.Size()
  {
    i < |sys.Inputs(s)| && n - sys.Inputs(s)[i].back <= m <= n + sys.Inputs(s)[i].fwd
  }

  /** A computed signal never looks at a negative index nor at a warm-up cell. */
  lemma ReadsPastWarmUp(sys: System, hist: History, s: nat, n: int, i: nat, m: int)
    requires sys.Ordered() && s < sys.Size() && Complete(sys, hist)
    requires Looks(sys, s, n, i, m) && AbsDelay(sys, Back, s) <= n
    ensures 0 <= m && AbsDelay(sys, Back, sys.Inputs(s)[i].source) <= m
    ensures Cell(sys, hist, sys.Inputs(s)[i].source, m) == Val(sys, hist, sys.Inputs(s)[i].source, m)
  {
    DelayThroughInput(sys, Back, s, i);
  }

  /** A value depends on no sample later than its forward delay: appending runs does not change it. */
  lemma {:induction false} Causality(sys: System, hist: History, more: History, s: nat, n: int)
    requires sys.Ordered() && s < sys.Size() && Complete(sys, hist) && Complete(sys, hist + more)
    requires n + AbsDelay(sys, Fwd, s) < |hist|
    ensures Val(sys, hist + more, s, n) == Val(sys, hist, s, n)
    decreases s
  {
    if s >= sys.raws {
      var ins := sys.Inputs(s);
      forall i | 0 <= i < |ins|
        ensures Reading(sys, hist + more, ins[i], n) == Reading(sys, hist, ins[i], n)
      {
        DelayThroughInput(sys, Fwd, s, i);
        forall m | m <= n + ins[i].fwd
          ensures Val(sys, hist + more, ins[i].source, m) == Val(sys, hist, ins[i].source, m)
        {
          Causality(sys, hist, more, ins[i].source, m);
        }
      }
      assert Readings(sys, hist + more, s, n) == Readings(sys, hist, s, n);
    }
  }
}
