/** The delays of a signal: loops over its inputs, recursion down the dependency chains, and changes of the windows. */
module Delays {
  import opened Signals

  /** The widest window of a signal in one direction. */
  method FindRelativeBuffering(d: Direction, ins: seq<Input>) returns (max: nat)
    ensures max == RelDelay(d, ins, |ins|)
  {
    max := 0;
    for i := 0 to |ins|
      invariant max == RelDelay(d, ins, i)
    {
      if Window(d, ins[i]) > max {
        max := Window(d, ins[i]);
      }
    }
  }

  /** The total delay of a calculated signal in one direction: first the delay through each input, then their maximum. */
  method FindAbsoluteBuffering(sys: System, d: Direction, s: nat) returns (max: nat)
    requires sys.Ordered() && sys.raws <= s < sys.Size()
    ensures max == AbsDelay(sys, d, s)
    decreases s
  {
    var ins := sys.Inputs(s);
    var delays := new nat[|ins|];
    for i := 0 to |ins|
      invariant forall k: nat :: k < i ==> delays[k] == ThroughInput(sys, d, s, k)
    {
      delays[i] := Window(d, ins[i]);
      if ins[i].source >= sys.raws {
        var below := FindAbsoluteBuffering(sys, d, ins[i].source);
        delays[i] := delays[i] + below;
      } else {
        assert AbsDelayUpTo(sys, d, ins[i].source, 0) == 0;
      }
    }
    max := 0;
    for i := 0 to |ins|
      invariant max == AbsDelayUpTo(sys, d, s, i)
    {
      if delays[i] > max {
        max := delays[i];
      }
    }
  }

  // ----- Changing the windows of a signal -----

  /** The list names the inputs of the signal, with windows of its own. */
  ghost predicate SameInputs(ins: seq<Input>, list: seq<Input>) {
    |list| == |ins| && forall i :: 0 <= i < |ins| ==> list[i].source == ins[i].source
  }

  /** The windows the signal has after the call: the index of the loop goes up twice in each round. */
  ghost function EveryOther(ins: seq<Input>, list: seq<Input>): (changed: seq<Input>)
    requires |list| == |ins|
    ensures |changed| == |ins|
  {
    seq(|ins|, i requires 0 <= i < |ins| => if i % 2 == 0 then list[i] else ins[i])
  }

  /**
   * Takes over the windows of the list. The assertion at the end, that the whole list was seen, is met exactly if the
   * number of inputs is odd; otherwise the program aborts there.
   */
  method ChangeWindows(ins: seq<Input>, list: seq<Input>) returns (passed: bool, changed: seq<Input>)
    requires SameInputs(ins, list)
    ensures changed == EveryOther(ins, list) && (passed <==> |ins| % 2 == 1)
  {
    changed := ins;
    var i := 0;
    while i < |ins|
      invariant i % 2 == 0 && i <= |ins| + 1 && |changed| == |ins|
      invariant forall k :: 0 <= k < |ins| ==> changed[k] == if k % 2 == 0 && k < i then list[k] else ins[k]
    {
      changed := changed[i := list[i]];
      i := i + 1;
      i := i + 1;
    }
    passed := i == |ins| + 1;
  }

  /** A change goes through as asked exactly if the inputs are odd in number and every second one keeps its window. */
  lemma ChangeIsMadeIff(ins: seq<Input>, list: seq<Input>)
    requires SameInputs(ins, list)
    ensures |ins| % 2 == 1 && EveryOther(ins, list) == list <==>
      |ins| % 2 == 1 && forall k :: 0 <= k < |ins| && k % 2 == 1 ==> list[k] == ins[k]
  {
    if EveryOther(ins, list) == list {
      forall k | 0 <= k < |ins| && k % 2 == 1 ensures list[k] == ins[k] {
        assert EveryOther(ins, list)[k] == ins[k];
      }
    }
  }

  /** So all changes of a signal go through exactly if it has one input. */
  lemma AnyChangeIsMadeIffOneInput(ins: seq<Input>)
    ensures (forall list :: SameInputs(ins, list) ==> |ins| % 2 == 1 && EveryOther(ins, list) == list) <==> |ins| == 1
  {
    if |ins| == 1 {
      forall list | SameInputs(ins, list) ensures EveryOther(ins, list) == list {
        ChangeIsMadeIff(ins, list);
      }
    } else if |ins| % 2 == 0 {
      assert SameInputs(ins, ins);
    } else {
      var list := ins[1 := ins[1].(back := ins[1].back + 1)];
      ChangeIsMadeIff(ins, list);
      assert SameInputs(ins, list) && list[1] != ins[1];
    }
  }

  /** A signal with three inputs keeps the window of the second, and the program goes on with it. */
  lemma SecondWindowStays()
    ensures
      var ins := [Input(0, 1, 0), Input(1, 1, 0), Input(2, 1, 0)];
      var list := [Input(0, 5, 0), Input(1, 5, 0), Input(2, 5, 0)];
      && SameInputs(ins, list) && |ins| % 2 == 1
      && EveryOther(ins, list) == [Input(0, 5, 0), Input(1, 1, 0), Input(2, 5, 0)]
  {
    var ins := [Input(0, 1, 0), Input(1, 1, 0), Input(2, 1, 0)];
    var list := [Input(0, 5, 0), Input(1, 5, 0), Input(2, 5, 0)];
    assert EveryOther(ins, list)[1] == ins[1];
  }
}
