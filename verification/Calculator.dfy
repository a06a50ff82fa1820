/** The calculator itself: one shared ring buffer, a lagging index per calculated signal, and the synced callbacks. */
module Calculator {
  import opened Signals
  import opened Rings
  import opened Delivery
  import opened Epochs
  import opened ResultsMatrix
  import opened Delays

  /** The run-time fields of a calculated signal. */
  datatype CalcSignal = CalcSignal(relBack: nat, relFwd: nat, absFwd: nat, absBack: nat, index: int, dneCount: nat)

  datatype SmState = Runable | IndexChanged

  /** The number of warm-up indices a signal still has to skip when `next` is its next index. */
  function WarmUpLeft(absBack: nat, next: int): nat {
    if next <= 0 then absBack else if next < absBack then absBack - next else 0
  }

  /** The signal carries the delays of the j-th calculated signal. */
  ghost predicate Sized(cs: CalcSignal, sys: System, j: nat)
    requires sys.Ordered() && j < |sys.calcs|
  {
    var s := sys.raws + j;
    && cs.relBack == RelDelay(Back, sys.Inputs(s), |sys.Inputs(s)|)
    && cs.relFwd == RelDelay(Fwd, sys.Inputs(s), |sys.Inputs(s)|)
    && cs.absFwd == AbsDelay(sys, Fwd, s)
    && cs.absBack == AbsDelay(sys, Back, s)
  }

  /** The signal stands where the j-th calculated signal must after so many runs. */
  ghost predicate Placed(cs: CalcSignal, sys: System, j: nat, runs: nat)
    requires sys.Ordered() && j < |sys.calcs|
  {
    var s := sys.raws + j;
    && Sized(cs, sys, j)
    && cs.index == Due(sys, runs, s)
    && cs.dneCount == WarmUpLeft(AbsDelay(sys, Back, s), Due(sys, runs, s))
  }

  /** The first k signals have taken part in run g, the others not yet. */
  ghost predicate AllPlaced(signals: seq<CalcSignal>, sys: System, k: nat, g: nat)
    requires sys.Ordered() && |signals| == |sys.calcs|
  {
    forall j: nat :: j < |signals| ==> Placed(signals[j], sys, j, if j < k then g + 1 else g)
  }

  /** The same signals, one of them reading its inputs through other windows. */
  function Rewindowed(sys: System, j: nat, windows: seq<Input>): System
    requires j < |sys.calcs|
  {
    sys.(calcs := sys.calcs[j := sys.calcs[j].(inputs := windows)])
  }

  /**
   * Every other input of the j-th calculated signal has the window that the list gives it, counted from the first; all other
   * windows, the inputs themselves and the calculations are as they were.
   */
  ghost predicate EveryOtherChanged(was: System, now: System, j: nat, list: seq<Input>) {
    && now.raws == was.raws && |now.calcs| == |was.calcs|
    && (forall k :: 0 <= k < |was.calcs| ==> now.calcs[k].f == was.calcs[k].f && |now.calcs[k].inputs| == |was.calcs[k].inputs|)
    && (forall k, i {:trigger now.calcs[k].inputs[i]} :: 0 <= k < |was.calcs| && 0 <= i < |was.calcs[k].inputs| ==>
          now.calcs[k].inputs[i] == if k == j && i % 2 == 0 && i < |list| then list[i] else was.calcs[k].inputs[i])
  }

  /** That is what the program makes of a list. */
  lemma RewindowedIsChanged(sys: System, j: nat, list: seq<Input>)
    requires j < |sys.calcs| && SameInputs(sys.calcs[j].inputs, list)
    ensures EveryOtherChanged(sys, Rewindowed(sys, j, EveryOther(sys.calcs[j].inputs, list)), j, list)
  {
  }

  lemma RewindowedOrdered(sys: System, j: nat, windows: seq<Input>)
    requires sys.Ordered() && j < |sys.calcs| && SameInputs(sys.calcs[j].inputs, windows)
    ensures Rewindowed(sys, j, windows).Ordered()
  {
    var changed := Rewindowed(sys, j, windows);
    forall s: nat, i | s < changed.Size() && 0 <= i < |changed.Inputs(s)|
      ensures changed.Inputs(s)[i].source < s
    {
      assert s >= sys.raws && sys.Inputs(s)[i].source < s;
    }
  }

  /** A signal that has had its part of run g stands where it must after that run. */
  lemma PlacedOn(cs: CalcSignal, sys: System, j: nat, g: nat)
    requires sys.Ordered() && j < |sys.calcs| && Placed(cs, sys, j, g)
    ensures cs.index < 0 || cs.dneCount == 0 ==> Placed(cs.(index := cs.index + 1), sys, j, g + 1)
    ensures cs.index >= 0 && cs.dneCount != 0 ==>
      Placed(cs.(dneCount := cs.dneCount - 1, index := cs.index + 1), sys, j, g + 1)
  {
  }

  /** What the first k calculated signals say about run g: whether one still waits for index zero, or else the oldest index. */
  ghost predicate OldestSoFar(sys: System, g: nat, k: nat, uncompleted: bool, oldest: int)
    requires sys.Ordered() && k <= |sys.calcs|
  {
    && (uncompleted <==> g < MaxForward(sys, k))
    && (!uncompleted ==> oldest == g - MaxForward(sys, k))
  }

  lemma OldestNext(sys: System, g: nat, j: nat, uncompleted: bool, oldest: int)
    requires sys.Ordered() && j < |sys.calcs| && OldestSoFar(sys, g, j, uncompleted, oldest)
    ensures var index := Due(sys, g, sys.raws + j);
      OldestSoFar(sys, g, j + 1, uncompleted || index < 0, if 0 <= index < oldest then index else oldest)
  {
    LagStep(sys, g, j);
  }

  lemma PlacedStep(signals: seq<CalcSignal>, sys: System, j: nat, g: nat, cs: CalcSignal)
    requires sys.Ordered() && |signals| == |sys.calcs| && j < |signals|
    requires AllPlaced(signals, sys, j, g) && Placed(cs, sys, j, g + 1)
    ensures AllPlaced(signals[j := cs], sys, j + 1, g)
  {
  }

  lemma PlacedEnd(signals: seq<CalcSignal>, sys: System, g: nat)
    requires sys.Ordered() && |signals| == |sys.calcs| && AllPlaced(signals, sys, |signals|, g)
    ensures AllPlaced(signals, sys, 0, g + 1)
  {
  }

  /** What a flush makes of an outbox, from row i on. */
  ghost function FlushedFrom(sys: System, hist: History, out: Outbox<seq<Value>>, i: nat): Outbox<seq<Value>>
    requires sys.Ordered() && Complete(sys, hist) && i <= |hist|
  {
    AfterFlush(sys, hist, out, i)
  }

  lemma FlushNextRow(sys: System, hist: History, out: Outbox<seq<Value>>, i: nat)
    requires sys.Ordered() && Complete(sys, hist) && i < |hist|
    ensures FlushedFrom(sys, hist, out, i) == FlushedFrom(sys, hist, out.Flush(i, Row(sys, hist, i)), i + 1)
  {
  }

  /** If a signal still waits for index zero, no row has been completed, and those after it have nothing to flush. */
  lemma NothingCompleted(sys: System, hist: History, waiting: nat, cols: seq<seq<Value>>)
    requires sys.Ordered() && Complete(sys, hist) && waiting < sys.Size() && Due(sys, |hist|, waiting) < 0
    requires MidFlush(sys, hist, Completed(sys, |hist|), waiting, cols)
    ensures Completed(sys, |hist|) == 0 && MidFlush(sys, hist, 0, sys.Size(), cols)
  {
    LagFits(sys, waiting);
    assert Completed(sys, |hist|) == 0;
    MidFlushEarly(sys, hist, waiting, waiting, cols);
  }

  class Calculator {
    var state: SmState
    var sys: System
    var signals: seq<CalcSignal>
    var results: Matrix
    var maxBuffering: nat
    var globalIndex: nat
    var currentIndex: int
    var pending: seq<Synced>
    ghost var hist: History
    ghost var registered: seq<Synced>
    ghost var log: seq<Event<seq<Value>>>

    /** Starts on a sorted table; the buffer is allocated once the delays are known. */
    constructor (sys: System)
      requires sys.Ordered()
      ensures Valid() && this.sys == sys && Current() == Epoch([], Outbox([], [], []))
      ensures fresh(results) && fresh(results.cells)
    {
      this.sys := sys;
      state := Runable;
      signals := seq(|sys.calcs|, _ => CalcSignal(0, 0, 0, 0, 0, 0));
      pending, maxBuffering, globalIndex, currentIndex := [], 1, 0, 0;
      results := new Matrix(sys.Size(), 1);
      hist, registered, log := [], [], [];
      new;
      CalculateDelaysAndBuffering();
      PrivateResetCalculator();
    }

    /** The epoch in progress. */
    ghost function Current(): Epoch
      reads this
    {
      Epoch(hist, Outbox(registered, pending, log))
    }

    /** The tables fit together. */
    ghost predicate Shaped()
      reads this, results, results.cells
    {
      && sys.Ordered()
      && |signals| == |sys.calcs|
      && results.Valid() && results.signals == sys.Size() && results.depth == maxBuffering > 0
    }

    ghost predicate Valid()
      reads this, results, results.cells
    {
      && state == Runable && Shaped() && maxBuffering == Depth(sys)
      && Complete(sys, hist) && globalIndex == |hist|
      && AllPlaced(signals, sys, 0, globalIndex)
      && Midway(sys, hist, globalIndex, 0, results.Cols)
    }

    /** After a window change nothing has run yet, and the delays are not those of the new windows. */
    ghost predicate AwaitsDelays()
      reads this, results, results.cells
    {
      state == IndexChanged && Shaped() && globalIndex == 0 && hist == []
    }

    // ----- Synced callbacks -----

    method RegisterDataSyncedCallback(id: int)
      requires globalIndex == |hist|
      modifies this`pending, this`registered
      ensures Current() == AfterRegister(old(Current()), id)
    {
      var cb := Synced(globalIndex, id);
      pending := pending + [cb];
      registered := registered + [cb];
    }

    method SendDataSyncedCallbacks(minIndexCompleted: int)
      modifies this`pending, this`log
      ensures var k := Ready(old(pending), minIndexCompleted);
        pending == old(pending)[k..] && log == old(log) + Fire(old(pending)[..k])
    {
      ghost var fired := 0;
      while pending != []
        invariant fired <= |old(pending)| && pending == old(pending)[fired..]
        invariant log == old(log) + Fire(old(pending)[..fired])
        invariant Ready(old(pending), minIndexCompleted) == fired + Ready(pending, minIndexCompleted)
        decreases |pending|
      {
        if minIndexCompleted >= pending[0].trigger {
          log := log + [Fired(pending[0].id)];
          assert old(pending)[..fired + 1] == old(pending)[..fired] + [pending[0]];
          pending := pending[1..];
          fired := fired + 1;
        } else {
          break;
        }
      }
    }

    method FlushDataSyncedCallbacks()
      modifies this`pending, this`log
      ensures pending == [] && log == old(log) + Fire(old(pending))
    {
      ghost var fired := 0;
      while pending != []
        invariant fired <= |old(pending)| && pending == old(pending)[fired..]
        invariant log == old(log) + Fire(old(pending)[..fired])
        decreases |pending|
      {
        log := log + [Fired(pending[0].id)];
        assert old(pending)[..fired + 1] == old(pending)[..fired] + [pending[0]];
        pending := pending[1..];
        fired := fired + 1;
      }
      assert old(pending)[..fired] == old(pending);
    }

    // ----- Running -----

    /** In the middle of run g, with the first k signals done. */
    ghost predicate Running(h: History, g: nat, k: nat)
      reads this, results, results.cells
    {
      Shaped() && maxBuffering == Depth(sys) && Complete(sys, h) && Midway(sys, h, g, k, results.Cols)
    }

    /** Signal j is about to be computed in run g. */
    ghost predicate Computing(h: History, g: nat, j: nat)
      reads this, results, results.cells
    {
      && Running(h, g, sys.raws + j) && j < |signals| && Placed(signals[j], sys, j, g)
      && currentIndex == signals[j].index && AbsDelay(sys, Back, sys.raws + j) <= currentIndex
    }

    /** Reads the i-th input of calculated signal j, `index` places from the index being computed. */
    method GetInputResult(j: nat, index: int, i: nat, ghost h: History, ghost g: nat) returns (v: Value)
      requires Computing(h, g, j) && i < |sys.calcs[j].inputs|
      requires 0 - signals[j].relBack <= index <= signals[j].relFwd && currentIndex + index >= 0
      ensures StillThere(j, i, g, currentIndex + index) ==> v == Cell(sys, h, sys.calcs[j].inputs[i].source, currentIndex + index)
      ensures 0 - sys.calcs[j].inputs[i].back <= index <= sys.calcs[j].inputs[i].fwd ==>
        v == Val(sys, h, sys.calcs[j].inputs[i].source, currentIndex + index)
    {
      var source := sys.calcs[j].inputs[i].source;
      var requested := currentIndex + index;
      assert sys.Inputs(sys.raws + j)[i].source < sys.raws + j;
      v := results.Get(source, requested % maxBuffering);
      if 0 - sys.calcs[j].inputs[i].back <= index <= sys.calcs[j].inputs[i].fwd {
        InsideWindow(j, i, requested, h, g);
      }
    }

    /** The input's cell of index m has been computed and not been overwritten yet. */
    ghost predicate StillThere(j: nat, i: nat, g: nat, m: int)
      requires sys.Ordered() && j < |sys.calcs| && i < |sys.calcs[j].inputs| && sys.calcs[j].inputs[i].source < sys.Size()
      reads this
    {
      var due := Due(sys, g + 1, sys.calcs[j].inputs[i].source);
      0 <= m && due - Depth(sys) <= m < due
    }

    /** An index inside the input's own window passes the check against the largest windows, and its cell has the meaning. */
    lemma InsideWindow(j: nat, i: nat, m: int, h: History, g: nat)
      requires Computing(h, g, j) && i < |sys.calcs[j].inputs| && sys.calcs[j].inputs[i].source < sys.raws + j
      requires currentIndex - sys.calcs[j].inputs[i].back <= m <= currentIndex + sys.calcs[j].inputs[i].fwd
      ensures 0 <= m && currentIndex - signals[j].relBack <= m <= currentIndex + signals[j].relFwd
      ensures var source := sys.calcs[j].inputs[i].source;
        results.Cols[source][m % maxBuffering] == Val(sys, h, source, m)
    {
      var s := sys.raws + j;
      RelDelayBounds(Back, sys.Inputs(s), |sys.Inputs(s)|, i);
      RelDelayBounds(Fwd, sys.Inputs(s), |sys.Inputs(s)|, i);
      assert Looks(sys, s, Due(sys, g, s), i, m);
      RingRead(sys, h, g, s, i, m, results.Cols[sys.calcs[j].inputs[i].source]);
    }

    /** The k-th cell of the window of the i-th input. */
    method ReadCell(j: nat, i: nat, k: nat, ghost h: History, ghost g: nat) returns (v: Value)
      requires Computing(h, g, j) && i < |sys.calcs[j].inputs| && sys.calcs[j].inputs[i].source < sys.raws + j
      requires k <= sys.calcs[j].inputs[i].back + sys.calcs[j].inputs[i].fwd
      ensures v == Reading(sys, h, sys.calcs[j].inputs[i], currentIndex)[k]
    {
      InsideWindow(j, i, currentIndex + (k - sys.calcs[j].inputs[i].back), h, g);
      v := GetInputResult(j, k - sys.calcs[j].inputs[i].back, i, h, g);
    }

    /** The whole window of the i-th input of signal j, one read at a time. */
    method ReadWindow(j: nat, i: nat, ghost h: History, ghost g: nat) returns (w: seq<Value>)
      requires Computing(h, g, j) && i < |sys.calcs[j].inputs| && sys.calcs[j].inputs[i].source < sys.raws + j
      ensures w == Reading(sys, h, sys.calcs[j].inputs[i], currentIndex)
    {
      var input := sys.calcs[j].inputs[i];
      ghost var all := Reading(sys, h, input, currentIndex);
      w := [];
      for k := 0 to input.back + input.fwd + 1
        invariant w == all[..k]
      {
        var v := ReadCell(j, i, k, h, g);
        w := w + [v];
      }
    }

    /** Everything the calculation of signal j may look at. */
    method ReadInputs(j: nat, ghost h: History, ghost g: nat) returns (w: seq<seq<Value>>)
      requires Computing(h, g, j)
      ensures w == Readings(sys, h, sys.raws + j, currentIndex)
    {
      ghost var s := sys.raws + j;
      ghost var all := Readings(sys, h, s, currentIndex);
      w := [];
      for i := 0 to |sys.calcs[j].inputs|
        invariant w == all[..i]
      {
        assert sys.Inputs(s)[i].source < s;
        var window := ReadWindow(j, i, h, g);
        assert window == all[i];
        w := w + [window];
      }
    }

    /** Writes the due cell of signal s, which completes its part of run g. */
    method Store(s: nat, b: nat, v: Value, ghost h: History, ghost g: nat)
      requires Running(h, g, s) && s < sys.Size()
      requires 0 <= Due(sys, g, s) && AbsDelay(sys, Back, s) <= Due(sys, g, s) && b == Due(sys, g, s) % maxBuffering
      requires v == Cell(sys, h, s, Due(sys, g, s))
      modifies results`Cols, results.cells
      ensures Running(h, g, s + 1)
    {
      MidwayStep(sys, h, g, s, results.Cols);
      results.Set(s, b, v);
    }

    /** Computes signal j, whose warm-up is over, at its own index. */
    method ComputeSignal(j: nat, ghost h: History, ghost g: nat)
      requires j < |signals| && Running(h, g, sys.raws + j) && Placed(signals[j], sys, j, g)
      requires signals[j].index >= 0 && signals[j].dneCount == 0
      modifies this`currentIndex, results`Cols, results.cells
      ensures Running(h, g, sys.raws + j + 1)
    {
      currentIndex := signals[j].index;
      var w := ReadInputs(j, h, g);
      var result := Sanitize(sys.calcs[j].f(w));
      Store(sys.raws + j, currentIndex % maxBuffering, result, h, g);
    }

    /** One calculated signal's part of a run: skip, warm up, or compute at its own lagging index; then move on. */
    method StepSignal(j: nat, ghost h: History, ghost g: nat)
      requires j < |signals| && Running(h, g, sys.raws + j) && Placed(signals[j], sys, j, g)
      modifies this`currentIndex, this`signals, results`Cols, results.cells
      ensures Running(h, g, sys.raws + j + 1)
      ensures |signals| == |old(signals)| && signals == old(signals)[j := signals[j]] && Placed(signals[j], sys, j, g + 1)
    {
      ghost var s := sys.raws + j;
      var cs := signals[j];
      if cs.index < 0 {
        MidwayPass(sys, h, g, s, results.Cols);
      } else if cs.dneCount != 0 {
        MidwayPass(sys, h, g, s, results.Cols);
        cs := cs.(dneCount := cs.dneCount - 1);
      } else {
        ComputeSignal(j, h, g);
      }
      PlacedOn(signals[j], sys, j, g);
      signals := signals[j := cs.(index := cs.index + 1)];
    }

    /** The raw part of a run: every raw signal is sampled at the current index. */
    method SampleRaws(samples: seq<Value>, ghost h: History)
      requires Running(h, globalIndex, 0) && h == hist + [samples] && globalIndex == |hist| && |samples| == sys.raws
      modifies results`Cols, results.cells
      ensures Running(h, globalIndex, sys.raws)
    {
      var b := globalIndex % maxBuffering;
      for r := 0 to sys.raws
        invariant Running(h, globalIndex, r)
      {
        RawNeverLags(sys, globalIndex, r);
        Store(r, b, Sanitize(samples[r]), h, globalIndex);
      }
    }

    /** One calculated signal's part, and what it adds to the overview of the run. */
    method StepNext(j: nat, before: bool, oldest: int, ghost h: History) returns (uncompleted: bool, minIndexCompleted: int)
      requires j < |signals| && Running(h, globalIndex, sys.raws + j) && AllPlaced(signals, sys, j, globalIndex)
      requires OldestSoFar(sys, globalIndex, j, before, oldest)
      modifies this`currentIndex, this`signals, results`Cols, results.cells
      ensures Running(h, globalIndex, sys.raws + j + 1) && |signals| == |old(signals)| && AllPlaced(signals, sys, j + 1, globalIndex)
      ensures OldestSoFar(sys, globalIndex, j + 1, uncompleted, minIndexCompleted)
    {
      uncompleted, minIndexCompleted := before, oldest;
      var index := signals[j].index;
      ghost var was := signals;
      assert Placed(signals[j], sys, j, globalIndex);
      OldestNext(sys, globalIndex, j, before, oldest);
      StepSignal(j, h, globalIndex);
      PlacedStep(was, sys, j, globalIndex, signals[j]);
      if index >= 0 {
        if index < minIndexCompleted {
          minIndexCompleted := index;
        }
      } else {
        uncompleted := true;
      }
    }

    method StepEach(ghost h: History) returns (uncompleted: bool, minIndexCompleted: int)
      requires Running(h, globalIndex, sys.raws) && AllPlaced(signals, sys, 0, globalIndex)
      modifies this`currentIndex, this`signals, results`Cols, results.cells
      ensures Running(h, globalIndex, sys.Size()) && AllPlaced(signals, sys, |signals|, globalIndex)
      ensures OldestSoFar(sys, globalIndex, |sys.calcs|, uncompleted, minIndexCompleted)
    {
      uncompleted := false;
      minIndexCompleted := globalIndex;
      for j := 0 to |signals|
        invariant Running(h, globalIndex, sys.raws + j) && AllPlaced(signals, sys, j, globalIndex)
        invariant OldestSoFar(sys, globalIndex, j, uncompleted, minIndexCompleted)
      {
        uncompleted, minIndexCompleted := StepNext(j, uncompleted, minIndexCompleted, h);
      }
    }

    /** The calculated part of a run. Tells whether some signal still waits for index zero, and else the oldest index computed. */
    method StepAll(ghost h: History) returns (uncompleted: bool, minIndexCompleted: int)
      requires Running(h, globalIndex, sys.raws) && AllPlaced(signals, sys, 0, globalIndex)
      modifies this`currentIndex, this`signals, results`Cols, results.cells
      ensures Running(h, globalIndex, sys.Size()) && AllPlaced(signals, sys, 0, globalIndex + 1)
      ensures uncompleted <==> globalIndex < Lag(sys)
      ensures !uncompleted ==> minIndexCompleted == globalIndex - Lag(sys)
    {
      uncompleted, minIndexCompleted := StepEach(h);
      PlacedEnd(signals, sys, globalIndex);
    }

    /** The memory of row n, once every column holds it, is row n. */
    method GetResultRow(n: nat, ghost h: History) returns (row: seq<Value>)
      requires Shaped() && Complete(sys, h)
      requires forall s: nat :: s < sys.Size() ==> results.Cols[s][n % maxBuffering] == FinalCell(sys, h, s, n)
      ensures row == Row(sys, h, n)
    {
      row := results.Row(n % maxBuffering);
    }

    /** Sends the row that run g has completed, after the callbacks that were waiting for it. */
    method ShipRow(n: nat, ghost h: History)
      requires Running(h, |h|, 0) && n + Lag(sys) + 1 == |h|
      modifies this`pending, this`log
      ensures Outbox(registered, pending, log) == old(Outbox(registered, pending, log)).Complete(n, Row(sys, h, n))
    {
      SendDataSyncedCallbacks(n);
      CompletedRow(sys, h, n, results.Cols);
      var values := GetResultRow(n, h);
      log := log + [RowReady(values)];
    }

    /** Sends the row that run |hist| has completed, if it has completed one. */
    method Ship(uncompleted: bool, n: int, ghost h: History)
      requires Running(h, |h|, 0) && (!uncompleted ==> n >= 0 && n + Lag(sys) + 1 == |h|)
      modifies this`pending, this`log
      ensures Outbox(registered, pending, log) ==
        var out := old(Outbox(registered, pending, log));
        if uncompleted then out else out.Complete(n, Row(sys, h, n))
    {
      if !uncompleted {
        ShipRow(n, h);
      }
    }

    /** Samples the raw signals and lets the calculated ones follow. */
    method StepEverySignal(samples: seq<Value>, ghost h: History) returns (uncompleted: bool, minIndexCompleted: int)
      requires Valid() && |samples| == sys.raws && h == hist + [samples]
      modifies this`currentIndex, this`signals, results`Cols, results.cells
      ensures Running(h, globalIndex + 1, 0) && AllPlaced(signals, sys, 0, globalIndex + 1)
      ensures uncompleted <==> globalIndex < Lag(sys)
      ensures !uncompleted ==> minIndexCompleted == globalIndex - Lag(sys)
    {
      MidwayStart(sys, hist, [samples], results.Cols);
      SampleRaws(samples, h);
      uncompleted, minIndexCompleted := StepAll(h);
      MidwayEnd(sys, h, globalIndex, results.Cols);
    }

    /** One iteration of the calculator. */
    method RunCalculations(samples: seq<Value>)
      requires Valid() && |samples| == sys.raws
      modifies this`globalIndex, this`currentIndex, this`signals, this`pending, this`hist, this`log, results`Cols, results.cells
      ensures Valid() && Current() == AfterRun(sys, old(Current()), samples)
    {
      ghost var h := hist + [samples];
      var uncompleted, minIndexCompleted := StepEverySignal(samples, h);
      Ship(uncompleted, minIndexCompleted, h);
      assert Epoch(h, Outbox(registered, pending, log)) == AfterRun(sys, old(Current()), samples);
      hist := h;
      globalIndex := globalIndex + 1;
    }

    // ----- Ending an epoch -----

    /** In the middle of pass 1 of a flush, with the columns of the first k signals final. */
    ghost predicate Flushing(from: nat, k: nat)
      reads this, results, results.cells
    {
      && Shaped() && maxBuffering == Depth(sys) && Complete(sys, hist) && globalIndex == |hist|
      && from == Completed(sys, |hist|) && MidFlush(sys, hist, from, k, results.Cols)
    }

    /** Fills in the missing cells of one lagging signal. */
    method FlushSignal(j: nat, ghost from: nat)
      requires Flushing(from, sys.raws + j) && j < |signals| && Placed(signals[j], sys, j, globalIndex) && signals[j].index >= 0
      modifies results`Cols, results.cells
      ensures Flushing(from, sys.raws + j + 1)
    {
      ghost var s := sys.raws + j;
      ghost var before := results.Cols;
      LagFits(sys, s);
      FlushStart(sys, hist, s, from, results.Cols[s]);
      for i := signals[j].index to globalIndex
        invariant Shaped() && |results.Cols[s]| == maxBuffering && results.Cols == before[s := results.Cols[s]]
        invariant PartlyFlushed(sys, hist, s, from, i, results.Cols[s])
      {
        FlushStep(sys, hist, s, from, i, results.Cols[s]);
        results.Set(sys.raws + j, i % maxBuffering, Dne);
      }
    }

    /** One calculated signal's part of pass 1. It ends the pass if the signal still waits for index zero. */
    method FlushNext(j: nat, oldest: nat) returns (ended: bool, minIndexCompleted: nat)
      requires Shaped() && Flushing(Completed(sys, globalIndex), sys.raws + j)
      requires j < |signals| && Placed(signals[j], sys, j, globalIndex)
      requires OldestSoFar(sys, globalIndex, j, false, oldest)
      modifies results`Cols, results.cells
      ensures ended ==> Flushing(minIndexCompleted, sys.Size())
      ensures !ended ==> Flushing(Completed(sys, globalIndex), sys.raws + j + 1)
      ensures !ended ==> OldestSoFar(sys, globalIndex, j + 1, false, minIndexCompleted)
    {
      ended, minIndexCompleted := false, oldest;
      OldestNext(sys, globalIndex, j, false, oldest);
      if signals[j].index >= 0 {
        if signals[j].index < minIndexCompleted {
          minIndexCompleted := signals[j].index;
        }
        FlushSignal(j, Completed(sys, globalIndex));
      } else {
        NothingCompleted(sys, hist, sys.raws + j, results.Cols);
        ended, minIndexCompleted := true, 0;
      }
    }

    /** Pass 1: makes every remaining row final and finds the first of them. */
    method FlushColumns() returns (minIndexCompleted: nat)
      requires Valid()
      modifies results`Cols, results.cells
      ensures Flushing(minIndexCompleted, sys.Size())
    {
      minIndexCompleted := globalIndex;
      MidFlushStart(sys, hist, Completed(sys, globalIndex), results.Cols);
      for j := 0 to |signals|
        invariant Flushing(Completed(sys, globalIndex), sys.raws + j)
        invariant OldestSoFar(sys, globalIndex, j, false, minIndexCompleted)
      {
        var ended;
        ended, minIndexCompleted := FlushNext(j, minIndexCompleted);
        if ended {
          return;
        }
      }
    }

    /** Sends what an interrupted epoch still holds. */
    method FlushIncompleteRows()
      requires Valid()
      modifies this`pending, this`log, results`Cols, results.cells
      ensures Shaped() && maxBuffering == Depth(sys)
      ensures Outbox(registered, pending, log) == AfterFlush(sys, hist, old(Outbox(registered, pending, log)), Completed(sys, |hist|))
    {
      if globalIndex == 0 {
        return;
      }
      var from := FlushColumns();
      FlushRows(from);
    }

    /** In the middle of pass 2: the rows from `from` up to the i-th are out, and those still to come complete the flush. */
    ghost predicate RowsOut(from: nat, i: nat, before: Outbox<seq<Value>>)
      reads this, results, results.cells
    {
      && Flushing(from, sys.Size()) && from <= i <= globalIndex
      && FlushedFrom(sys, hist, before, from) == FlushedFrom(sys, hist, Outbox(registered, pending, log), i)
    }

    /** Pass 2: sends the remaining rows in order, each followed by the callbacks it makes due. */
    method FlushRows(from: nat)
      requires Flushing(from, sys.Size()) && from <= globalIndex
      modifies this`pending, this`log
      ensures RowsOut(from, globalIndex, old(Outbox(registered, pending, log)))
    {
      ghost var before := Outbox(registered, pending, log);
      for i := from to globalIndex
        invariant RowsOut(from, i, before)
      {
        FlushRow(i, from, before);
      }
    }

    method FlushRow(i: nat, ghost from: nat, ghost before: Outbox<seq<Value>>)
      requires RowsOut(from, i, before) && i < globalIndex
      modifies this`pending, this`log
      ensures RowsOut(from, i + 1, before)
    {
      FlushNextRow(sys, hist, Outbox(registered, pending, log), i);
      FlushedRow(sys, hist, from, i, results.Cols);
      var values := GetResultRow(i, hist);
      log := log + [RowReady(values)];
      SendDataSyncedCallbacks(i);
    }

    method ResetSignals()
      requires sys.Ordered() && |signals| == |sys.calcs| && globalIndex == 0
      requires forall j: nat :: j < |signals| ==> Sized(signals[j], sys, j)
      modifies this`signals
      ensures |signals| == |sys.calcs| && AllPlaced(signals, sys, 0, 0)
    {
      for j := 0 to |signals|
        invariant |signals| == |sys.calcs|
        invariant forall k: nat :: k < j ==> Placed(signals[k], sys, k, 0)
        invariant forall k: nat :: k < |signals| ==> Sized(signals[k], sys, k)
      {
        var cs := signals[j];
        signals := signals[j := cs.(dneCount := cs.absBack, index := globalIndex - cs.absFwd)];
      }
    }

    /** Back to the start of time: empties the buffer and moves every signal to its place before index zero. */
    method PrivateResetCalculator()
      requires Shaped() && forall j: nat :: j < |signals| ==> Sized(signals[j], sys, j)
      modifies this`globalIndex, this`signals, this`pending, this`registered, this`hist, this`log, results`Cols, results.cells
      ensures Shaped() && globalIndex == 0 && hist == [] && AllPlaced(signals, sys, 0, 0)
      ensures maxBuffering == Depth(sys) ==> Midway(sys, [], 0, 0, results.Cols)
      ensures Outbox(registered, pending, log) == old(Outbox(registered, pending, log)).Reset()
    {
      FlushDataSyncedCallbacks();
      results.Clear();
      globalIndex := 0;
      ResetSignals();
      hist, registered := [], [];
      if maxBuffering == Depth(sys) {
        MidwayFresh(sys, results.Cols);
      }
    }

    /** Ends the epoch: everything incomplete is flushed, then time starts again. */
    method ResetCalculator()
      requires Valid()
      modifies this`globalIndex, this`signals, this`pending, this`registered, this`hist, this`log, results`Cols, results.cells
      ensures Valid() && Current() == AfterReset(sys, old(Current()))
    {
      FlushIncompleteRows();
      assert forall j: nat :: j < |signals| ==> Placed(signals[j], sys, j, globalIndex);
      PrivateResetCalculator();
    }

    // ----- Windows and delays -----

    /** Computes the delays of one signal, and how many rows it needs besides the current one. */
    method SizeSignal(j: nat) returns (rows: nat)
      requires sys.Ordered() && |signals| == |sys.calcs| && j < |signals|
      modifies this`signals
      ensures |signals| == |old(signals)| && signals == old(signals)[j := signals[j]] && Sized(signals[j], sys, j)
      ensures rows == RowsNeeded(sys, sys.raws + j)
    {
      var relBack := FindRelativeBuffering(Back, sys.calcs[j].inputs);
      var relFwd := FindRelativeBuffering(Fwd, sys.calcs[j].inputs);
      var absFwd := FindAbsoluteBuffering(sys, Fwd, sys.raws + j);
      var absBack := FindAbsoluteBuffering(sys, Back, sys.raws + j);
      signals := signals[j := signals[j].(relBack := relBack, relFwd := relFwd, absFwd := absFwd, absBack := absBack)];
      rows := relBack + absFwd;
    }

    /** Computes the delays of every signal and allocates a buffer that is deep enough for them. */
    method CalculateDelaysAndBuffering()
      requires Shaped()
      modifies this`signals, this`maxBuffering, this`results
      ensures Shaped() && maxBuffering == Depth(sys) && fresh(results) && fresh(results.cells)
      ensures forall j: nat :: j < |signals| ==> Sized(signals[j], sys, j)
    {
      var depth := SizeSignals();
      maxBuffering := depth + 1;
      results := new Matrix(sys.Size(), maxBuffering);
    }

    method SizeSignals() returns (depth: nat)
      requires sys.Ordered() && |signals| == |sys.calcs|
      modifies this`signals
      ensures |signals| == |sys.calcs| && depth == MaxRowsNeeded(sys, |sys.calcs|)
      ensures forall j: nat :: j < |signals| ==> Sized(signals[j], sys, j)
    {
      depth := 0;
      for j := 0 to |signals|
        invariant |signals| == |sys.calcs|
        invariant forall k: nat :: k < j ==> Sized(signals[k], sys, k)
        invariant depth == MaxRowsNeeded(sys, j)
      {
        var rows := SizeSignal(j);
        if rows > depth {
          depth := rows;
        }
      }
    }

    /**
     * Changes the windows of one signal. An epoch in progress is ended first, under the old windows. `passed` is what the
     * assertion at the end of the change finds. If it fails, the program aborts there, and this is the state it ends in.
     */
    method ChangeInputSignalIndicies(j: nat, list: seq<Input>) returns (passed: bool)
      requires Valid() || AwaitsDelays()
      requires j < |sys.calcs| && SameInputs(sys.calcs[j].inputs, list)
      modifies this`state, this`sys, this`globalIndex, this`signals, this`pending, this`registered, this`hist, this`log
      modifies results`Cols, results.cells
      ensures AwaitsDelays() && sys == Rewindowed(old(sys), j, EveryOther(old(sys.calcs[j].inputs), list))
      ensures EveryOtherChanged(old(sys), sys, j, list)
      ensures passed <==> |list| % 2 == 1
      ensures Current() == if old(state) == Runable then AfterReset(old(sys), old(Current())) else old(Current())
    {
      if state == Runable {
        ResetCalculator();
        state := IndexChanged;
      }
      ghost var was := sys;
      var changed;
      passed, changed := ChangeWindows(sys.calcs[j].inputs, list);
      RewindowedOrdered(was, j, changed);
      RewindowedIsChanged(was, j, list);
      sys := Rewindowed(sys, j, changed);
    }

    /** Puts changed windows into force. */
    method CalculateDelaysAndBufferingWithReset()
      requires AwaitsDelays()
      modifies this
      ensures Valid() && sys == old(sys) && fresh(results) && fresh(results.cells)
      ensures Current() == AfterReset(sys, old(Current()))
    {
      state := Runable;
      CalculateDelaysAndBuffering();
      PrivateResetCalculator();
    }

    // ----- Looking at the latest value -----

    /** The last value a signal has reached, which for a lagging signal is an old one; none after a change of windows. */
    method GetRealtimeResult(s: nat) returns (v: Value)
      requires (Valid() || AwaitsDelays()) && s < sys.Size()
      ensures AwaitsDelays() ==> v == Dne
      ensures Valid() ==> v == if Due(sys, |hist|, s) <= 0 then Dne else Cell(sys, hist, s, Due(sys, |hist|, s) - 1)
    {
      if state == IndexChanged {
        return Dne;
      }
      RawOrPlaced(s);
      var index := if s < sys.raws then globalIndex - 1 else signals[s - sys.raws].index - 1;
      if index < 0 {
        return Dne;
      }
      assert results.Cols[s][index % |results.Cols[s]|] == Cell(sys, hist, s, index);
      v := results.Get(s, index % maxBuffering);
    }

    lemma RawOrPlaced(s: nat)
      requires Valid() && s < sys.Size()
      ensures s < sys.raws ==> Due(sys, |hist|, s) == globalIndex
      ensures s >= sys.raws ==> Due(sys, |hist|, s) == signals[s - sys.raws].index
    {
      if s < sys.raws {
        RawNeverLags(sys, |hist|, s);
      } else {
        assert Placed(signals[s - sys.raws], sys, s - sys.raws, globalIndex);
      }
    }
  }

  /** A caller's whole epoch: runs and registrations, then the reset that gets all the data out. */
  method RunEpoch(c: Calculator, ops: seq<Op>)
    requires c.Valid() && ValidOps(c.sys, ops) && c.hist == [] && c.registered == [] && c.pending == []
    modifies c, c.results, c.results.cells
    ensures c.sys == old(c.sys) && c.Valid() && c.hist == [] && c.registered == [] && c.pending == []
    ensures c.results == old(c.results) && Complete(c.sys, Samples(ops))
    ensures var hist := Samples(ops);
      c.log == old(c.log) + EpochLog(RowsBelow(c.sys, hist, |hist|), Completed(c.sys, |hist|), Registrations(ops))
  {
    var sys, results := c.sys, c.results;
    for i := 0 to |ops|
      invariant c.Valid() && c.sys == sys && c.results == results && results.cells == old(c.results.cells)
      invariant c.Current() == AfterOps(sys, ops[..i], old(c.log))
    {
      assert ops[..i + 1][..|ops[..i + 1]| - 1] == ops[..i];
      match ops[i]
      case Run(samples) => c.RunCalculations(samples);
      case Register(id) => c.RegisterDataSyncedCallback(id);
    }
    assert ops[..|ops|] == ops;
    EpochConservation(sys, ops, old(c.log));
    c.ResetCalculator();
  }
}
