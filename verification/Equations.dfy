/** What a caller sees of an epoch: rows that solve the equations of the signals, and callbacks in their turn. */
module Equations {
  import opened Signals
  import opened Rings
  import opened Delivery
  import opened Epochs

  // ----- When callbacks fire -----

  /** For each callback that was fired, how many rows had been sent before it. */
  function RowsBefore<T>(log: seq<Event<T>>): seq<nat> {
    if log == [] then []
    else RowsBefore(log[..|log| - 1]) + (if log[|log| - 1].Fired? then [|Rows(log[..|log| - 1])|] else [])
  }

  /**
   * How many rows go before a callback that was registered at index t, if there are n rows and runs complete so many of them:
   * those before index t, or that of index t too if it is flushed.
   */
  function Turn(t: nat, completed: int, n: nat): nat {
    if t < completed then t else if t < n then t + 1 else n
  }

  function Turns(cbs: seq<Synced>, completed: int, n: nat): seq<nat> {
    seq(|cbs|, k requires 0 <= k < |cbs| => Turn(cbs[k].trigger, completed, n))
  }

  lemma RowsBeforeRow<T>(log: seq<Event<T>>, row: T)
    ensures RowsBefore(log + [RowReady(row)]) == RowsBefore(log) && |Rows(log + [RowReady(row)])| == |Rows(log)| + 1
  {
    assert (log + [RowReady(row)])[..|log|] == log;
  }

  function Times<T>(n: nat, x: T): seq<T> {
    seq(n, _ => x)
  }

  lemma OneMoreFired<T>(log: seq<Event<T>>, id: int)
    ensures RowsBefore(log + [Fired(id)]) == RowsBefore(log) + [|Rows(log)|] && Rows(log + [Fired(id)]) == Rows(log)
  {
    assert (log + [Fired(id)])[..|log|] == log;
  }

  lemma {:induction false} RowsBeforeFire<T>(log: seq<Event<T>>, cbs: seq<Synced>)
    ensures RowsBefore(log + Fire(cbs)) == RowsBefore(log) + Times(|cbs|, |Rows(log)|)
    ensures |Rows(log + Fire(cbs))| == |Rows(log)|
  {
    if cbs == [] {
      assert log + Fire(cbs) == log;
    } else {
      var init, last := cbs[..|cbs| - 1], cbs[|cbs| - 1];
      RowsBeforeFire(log, init);
      assert log + Fire(cbs) == (log + Fire(init)) + [Fired(last.id)];
      OneMoreFired(log + Fire(init), last.id);
      assert Times(|cbs|, |Rows(log)|) == Times(|init|, |Rows(log)|) + [|Rows(log)|];
    }
  }

  lemma {:induction false} AtTriggers(cbs: seq<Synced>, n: nat, completed: int, all: nat)
    ensures Turns(At(cbs, n), completed, all) == Times(|At(cbs, n)|, Turn(n, completed, all))
  {
    if cbs != [] {
      AtTriggers(cbs[1..], n, completed, all);
      if cbs[0].trigger == n {
        assert Turns([cbs[0]] + At(cbs[1..], n), completed, all) == [Turn(n, completed, all)] + Turns(At(cbs[1..], n), completed, all);
      }
    }
  }

  lemma TurnsSplit(cbs: seq<Synced>, n: nat, max: nat, completed: int, all: nat)
    requires Sorted(cbs, max)
    ensures Turns(From(cbs, n), completed, all) == Turns(At(cbs, n), completed, all) + Turns(From(cbs, n + 1), completed, all)
  {
    FromSplits(cbs, n, max);
  }

  /** The callbacks of index n fire right before its row if a run completes it, and right after it otherwise. */
  lemma FiresAroundRow<T>(log: seq<Event<T>>, row: T, n: nat, completed: int, all: nat, cbs: seq<Synced>)
    requires |Rows(log)| == n < all
    ensures RowsBefore(log + EventsAt(row, n, n < completed, cbs)) == RowsBefore(log) + Turns(At(cbs, n), completed, all)
    ensures |Rows(log + EventsAt(row, n, n < completed, cbs))| == n + 1
  {
    var fired: seq<Event<T>> := Fire(At(cbs, n));
    AtTriggers(cbs, n, completed, all);
    if n < completed {
      RowsBeforeFire(log, At(cbs, n));
      RowsBeforeRow(log + fired, row);
      Assoc(log, fired, [RowReady(row)]);
    } else {
      RowsBeforeRow(log, row);
      RowsBeforeFire(log + [RowReady(row)], At(cbs, n));
      Assoc(log, [RowReady(row)], fired);
    }
  }

  /** So far the callbacks have fired in their turns, and those of later indices have theirs to come. */
  ghost predicate InTurnSoFar<T>(rows: seq<T>, completed: int, all: nat, cbs: seq<Synced>) {
    && |Rows(EventsFor(rows, completed, cbs))| == |rows|
    && RowsBefore(EventsFor(rows, completed, cbs)) + Turns(From(cbs, |rows|), completed, all) == Turns(cbs, completed, all)
  }

  lemma InTurnStep<T>(rows: seq<T>, row: T, completed: int, all: nat, cbs: seq<Synced>, max: nat)
    requires Sorted(cbs, max) && |rows| < all && InTurnSoFar(rows, completed, all, cbs)
    ensures InTurnSoFar(rows + [row], completed, all, cbs)
  {
    var n := |rows|;
    EventsForStep(rows, row, completed, cbs);
    FiresAroundRow(EventsFor(rows, completed, cbs), row, n, completed, all, cbs);
    TurnsSplit(cbs, n, max, completed, all);
    Assoc(RowsBefore(EventsFor(rows, completed, cbs)), Turns(At(cbs, n), completed, all), Turns(From(cbs, n + 1), completed, all));
  }

  lemma {:induction false} FireInTurn<T>(rows: seq<T>, completed: int, all: nat, cbs: seq<Synced>, max: nat)
    requires Sorted(cbs, max) && |rows| <= all
    ensures InTurnSoFar(rows, completed, all, cbs)
  {
    if rows == [] {
      assert EventsFor(rows, completed, cbs) == [];
      FromZero(cbs);
      assert [] + Turns(cbs, completed, all) == Turns(cbs, completed, all);
    } else {
      var init, last := rows[..|rows| - 1], rows[|rows| - 1];
      assert InTurnSoFar(init, completed, all, cbs) by { FireInTurn(init, completed, all, cbs, max); }
      assert init + [last] == rows;
      assert InTurnSoFar(init + [last], completed, all, cbs) by { InTurnStep(init, last, completed, all, cbs, max); }
    }
  }

  /** In an epoch's log each callback has its turn: right before the row that a run completes, right after one that is flushed. */
  lemma EpochLogInTurn<T>(rows: seq<T>, completed: int, cbs: seq<Synced>)
    requires Sorted(cbs, |rows|) && completed <= |rows|
    ensures RowsBefore(EpochLog(rows, completed, cbs)) == Turns(cbs, completed, |rows|)
  {
    FireInTurn(rows, completed, |rows|, cbs, |rows|);
    LastAreAt(cbs, |rows|);
    RowsBeforeFire(EventsFor(rows, completed, cbs), At(cbs, |rows|));
    AtTriggers(cbs, |rows|, completed, |rows|);
  }

  // ----- The log of an epoch -----

  /** The log of an epoch, whatever was sent before it. */
  ghost function LogOf(sys: System, ops: seq<Op>): seq<Event<seq<Value>>>
    requires sys.Ordered() && ValidOps(sys, ops)
  {
    var hist := AfterOps(sys, ops, []).hist;
    EpochLog(RowsBelow(sys, hist, |hist|), Completed(sys, |hist|), Registrations(ops))
  }

  /** One row for each run; a cell is the value of its signal, or a mark where the data behind it or ahead of it is not there. */
  ghost predicate AreRowsOf(sys: System, hist: History, rows: seq<seq<Value>>)
    requires sys.Ordered() && Complete(sys, hist)
  {
    && |rows| == |hist| && (forall n :: 0 <= n < |hist| ==> |rows[n]| == sys.Size())
    && forall n, s {:trigger rows[n][s]} :: 0 <= n < |hist| && 0 <= s < sys.Size() ==>
         rows[n][s] == if AbsDelay(sys, Back, s) <= n && n + AbsDelay(sys, Fwd, s) < |hist| then Val(sys, hist, s, n) else Dne
  }

  /** Read off that log: rows 0 .. N-1 once each in order, every callback once in registration order. */
  lemma EpochDeliversEverythingOnce(sys: System, ops: seq<Op>)
    requires sys.Ordered() && ValidOps(sys, ops)
    ensures Complete(sys, Samples(ops)) && AreRowsOf(sys, Samples(ops), Rows(LogOf(sys, ops)))
    ensures Ids(LogOf(sys, ops)) == IdsOf(Registrations(ops))
    ensures AfterReset(sys, AfterOps(sys, ops, [])).out.log == LogOf(sys, ops)
  {
    EpochConservation(sys, ops, []);
    OpsStayOnTrack(sys, ops, []);
    var e, log := AfterOps(sys, ops, []), LogOf(sys, ops);
    assert [] + log == log;
    var rows := RowsBelow(sys, e.hist, |e.hist|);
    EpochLogContents(rows, Completed(sys, |e.hist|), e.out.registered);
    forall n, s | 0 <= n < |e.hist| && 0 <= s < sys.Size()
      ensures |rows[n]| == sys.Size() && rows[n][s] == FinalCell(sys, e.hist, s, n)
    {
      assert rows[n] == Row(sys, e.hist, n);
    }
    assert forall n :: 0 <= n < |e.hist| ==> rows[n] == Row(sys, e.hist, n);
  }

  // ----- What a caller sees -----

  /** How many runs, and how many of them before each registration. */
  function RunsIn(ops: seq<Op>): nat {
    if ops == [] then 0 else RunsIn(ops[..|ops| - 1]) + (if ops[|ops| - 1].Run? then 1 else 0)
  }

  function RunsBefore(ops: seq<Op>): seq<nat> {
    if ops == [] then []
    else RunsBefore(ops[..|ops| - 1]) + (if ops[|ops| - 1].Register? then [RunsIn(ops[..|ops| - 1])] else [])
  }

  lemma {:induction false} TriggersAreRunsBefore(ops: seq<Op>)
    ensures |Samples(ops)| == RunsIn(ops) && |RunsBefore(ops)| == |Registrations(ops)|
    ensures forall k :: 0 <= k < |Registrations(ops)| ==> Registrations(ops)[k].trigger == RunsBefore(ops)[k]
  {
    if ops != [] { TriggersAreRunsBefore(ops[..|ops| - 1]); }
  }

  /**
   * When each callback fires. If it was registered after g of N runs and the lag is L, then right before row g if that is
   * among the N - L rows that runs complete; right after it if it is flushed; and after all rows if there is none.
   */
  lemma CallbacksFireInTurn(sys: System, ops: seq<Op>, k: nat)
    requires sys.Ordered() && ValidOps(sys, ops) && k < |RunsBefore(ops)|
    ensures
      var fired, g, n := RowsBefore(LogOf(sys, ops)), RunsBefore(ops)[k], RunsIn(ops);
      && |fired| == |RunsBefore(ops)| && g <= n
      && fired[k] == if g + Lag(sys) < n then g else if g < n then g + 1 else n
  {
    OpsStayOnTrack(sys, ops, []);
    TriggersAreRunsBefore(ops);
    var e := AfterOps(sys, ops, []);
    EpochLogInTurn(RowsBelow(sys, e.hist, |e.hist|), Completed(sys, |e.hist|), e.out.registered);
    TriggerInRange(e.out.registered, |e.hist|, k);
  }

  lemma {:induction false} TriggerInRange(cbs: seq<Synced>, max: nat, k: nat)
    requires Sorted(cbs, max) && k < |cbs|
    ensures cbs[k].trigger <= max
  {
    FromPastEnd(cbs, max);
    if k > 0 { TriggerInRange(cbs[1..], max, k - 1); }
  }

  function CellIn(rows: seq<seq<Value>>, n: int, s: nat): Value {
    if 0 <= n < |rows| && s < |rows[n]| then rows[n][s] else Dne
  }

  /** For each input one window of the delivered rows around row n, from as far back to as far ahead as it allows. */
  ghost predicate IsWindowsOf(rows: seq<seq<Value>>, ins: seq<Input>, n: nat, w: seq<seq<Value>>) {
    |w| == |ins| && forall i :: 0 <= i < |ins| ==> IsWindowOf(rows, ins[i], n, w[i])
  }

  ghost predicate IsWindowOf(rows: seq<seq<Value>>, input: Input, n: nat, w: seq<Value>) {
    && input.back <= n && n + input.fwd < |rows| && |w| == input.back + input.fwd + 1
    && forall k :: 0 <= k < |w| ==> w[k] == CellIn(rows, n - input.back + k, input.source)
  }

  /** A row has the cell of a signal: the data behind it and ahead of it was there. */
  ghost predicate IsThere(sys: System, runs: nat, s: nat, n: nat)
    requires sys.Ordered() && s < sys.Size()
  {
    AbsDelay(sys, Back, s) <= n && n + AbsDelay(sys, Fwd, s) < runs
  }

  /** If a signal's cell is there, so are all the cells that its calculation sees. */
  lemma SeesWhatIsThere(sys: System, hist: History, rows: seq<seq<Value>>, s: nat, n: nat, i: nat, k: nat)
    requires sys.Ordered() && Complete(sys, hist) && AreRowsOf(sys, hist, rows) && s < sys.Size() && IsThere(sys, |hist|, s, n)
    requires i < |sys.Inputs(s)| && k <= sys.Inputs(s)[i].back + sys.Inputs(s)[i].fwd
    ensures sys.Inputs(s)[i].source < s && sys.Inputs(s)[i].back <= n && n + sys.Inputs(s)[i].fwd < |rows|
    ensures var m := n - sys.Inputs(s)[i].back + k;
      CellIn(rows, m, sys.Inputs(s)[i].source) == Val(sys, hist, sys.Inputs(s)[i].source, m)
  {
    DelayThroughInput(sys, Back, s, i);
    DelayThroughInput(sys, Fwd, s, i);
    var m, source := n - sys.Inputs(s)[i].back + k, sys.Inputs(s)[i].source;
    assert rows[m][source] == Val(sys, hist, source, m);
  }

  /** The windows of the rows are those of the signals. */
  lemma WindowOfRows(sys: System, hist: History, rows: seq<seq<Value>>, s: nat, n: nat, i: nat, w: seq<Value>)
    requires sys.Ordered() && Complete(sys, hist) && AreRowsOf(sys, hist, rows) && s < sys.Size() && IsThere(sys, |hist|, s, n)
    requires i < |sys.Inputs(s)| && sys.Inputs(s)[i].source < sys.Size()
    ensures IsWindowOf(rows, sys.Inputs(s)[i], n, w) <==> IsWindow(sys, hist, sys.Inputs(s)[i], n, w)
  {
    var input := sys.Inputs(s)[i];
    SeesWhatIsThere(sys, hist, rows, s, n, i, 0);
    if |w| == input.back + input.fwd + 1 {
      forall k | 0 <= k < |w|
        ensures w[k] == CellIn(rows, n - input.back + k, input.source) <==> w[k] == Val(sys, hist, input.source, n - input.back + k)
      {
        SeesWhatIsThere(sys, hist, rows, s, n, i, k);
      }
    }
  }

  lemma WindowsOfRows(sys: System, hist: History, rows: seq<seq<Value>>, s: nat, n: nat, w: seq<seq<Value>>)
    requires sys.Ordered() && Complete(sys, hist) && AreRowsOf(sys, hist, rows) && s < sys.Size() && IsThere(sys, |hist|, s, n)
    ensures IsWindowsOf(rows, sys.Inputs(s), n, w) <==> w == Readings(sys, hist, s, n)
  {
    var ins := sys.Inputs(s);
    ReadingsAreWindows(sys, hist, s, n, w);
    if |w| == |ins| {
      forall i | 0 <= i < |ins| ensures IsWindowOf(rows, ins[i], n, w[i]) <==> IsWindow(sys, hist, ins[i], n, w[i]) {
        WindowOfRows(sys, hist, rows, s, n, i, w[i]);
      }
    }
  }

  /** A calculated cell, given the windows. */
  lemma CellIsCalculated(sys: System, hist: History, rows: seq<seq<Value>>, s: nat, n: nat, w: seq<seq<Value>>)
    requires sys.Ordered() && Complete(sys, hist) && AreRowsOf(sys, hist, rows) && sys.raws <= s < sys.Size()
    requires IsThere(sys, |hist|, s, n) && IsWindowsOf(rows, sys.Inputs(s), n, w)
    ensures CellIn(rows, n, s) == Sanitize(sys.calcs[s - sys.raws].f(w))
  {
    WindowsOfRows(sys, hist, rows, s, n, w);
    assert rows[n][s] == Val(sys, hist, s, n);
  }

  /**
   * The delivered rows solve the equations: a raw cell is the sample of its run, and a calculated one is what its calculation
   * makes of the delivered cells in the windows of its inputs, all of which are there.
   */
  lemma RowsSolveEquations(sys: System, ops: seq<Op>, s: nat, n: nat) returns (w: seq<seq<Value>>)
    requires sys.Ordered() && ValidOps(sys, ops) && s < sys.Size() && IsThere(sys, RunsIn(ops), s, n)
    ensures Complete(sys, Samples(ops)) && |Samples(ops)| == RunsIn(ops)
    ensures s < sys.raws ==> CellIn(Rows(LogOf(sys, ops)), n, s) == Sanitize(Samples(ops)[n][s])
    ensures IsWindowsOf(Rows(LogOf(sys, ops)), sys.Inputs(s), n, w)
    ensures s >= sys.raws ==> CellIn(Rows(LogOf(sys, ops)), n, s) == Sanitize(sys.calcs[s - sys.raws].f(w))
  {
    TriggersAreRunsBefore(ops);
    EpochDeliversEverythingOnce(sys, ops);
    var rows, hist := Rows(LogOf(sys, ops)), Samples(ops);
    w := Readings(sys, hist, s, n);
    WindowsOfRows(sys, hist, rows, s, n, w);
    if s >= sys.raws {
      CellIsCalculated(sys, hist, rows, s, n, w);
    } else {
      assert rows[n][s] == Val(sys, hist, s, n);
    }
  }
}
