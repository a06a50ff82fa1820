/** One signal's column of the shared result buffer, as a ring of its most recent cells. */
module Rings {
  import opened Signals

  /** The largest forward delay among the first k calculated signals. */
  ghost function MaxForward(sys: System, k: nat): nat
    requires sys.Ordered() && k <= |sys.calcs|
  {
    if k == 0 then 0 else Max(MaxForward(sys, k - 1), AbsDelay(sys, Fwd, sys.raws + k - 1))
  }

  /** How many runs a row waits until its last cell is computed. */
  ghost function Lag(sys: System): nat
    requires sys.Ordered()
  {
    MaxForward(sys, |sys.calcs|)
  }

  /** The rows a signal needs besides the current one: its own backward window on top of its forward delay. */
  ghost function RowsNeeded(sys: System, s: nat): nat
    requires sys.Ordered() && s < sys.Size()
  {
    RelDelay(Back, sys.Inputs(s), |sys.Inputs(s)|) + AbsDelay(sys, Fwd, s)
  }

  ghost function MaxRowsNeeded(sys: System, k: nat): nat
    requires sys.Ordered() && k <= |sys.calcs|
  {
    if k == 0 then 0 else Max(MaxRowsNeeded(sys, k - 1), RowsNeeded(sys, sys.raws + k - 1))
  }

  /** The number of rows of the shared buffer. */
  ghost function Depth(sys: System): nat
    requires sys.Ordered()
  {
    MaxRowsNeeded(sys, |sys.calcs|) + 1
  }

  /** The first index of signal s that has not been computed after so many runs; negative while it waits. */
  ghost function Due(sys: System, runs: nat, s: nat): int
    requires sys.Ordered() && s < sys.Size()
  {
    runs - AbsDelay(sys, Fwd, s)
  }

  lemma {:induction false} MaxForwardBounds(sys: System, k: nat, j: nat)
    requires sys.Ordered() && j < k <= |sys.calcs|
    ensures AbsDelay(sys, Fwd, sys.raws + j) <= MaxForward(sys, k)
  {
    if j < k - 1 {
      MaxForwardBounds(sys, k - 1, j);
    }
  }

  lemma {:induction false} MaxRowsNeededBounds(sys: System, k: nat, j: nat)
    requires sys.Ordered() && j < k <= |sys.calcs|
    ensures RowsNeeded(sys, sys.raws + j) <= MaxRowsNeeded(sys, k)
  {
    if j < k - 1 {
      MaxRowsNeededBounds(sys, k - 1, j);
    }
  }

  lemma {:induction false} MaxForwardBelowNeed(sys: System, k: nat)
    requires sys.Ordered() && k <= |sys.calcs|
    ensures MaxForward(sys, k) <= MaxRowsNeeded(sys, k)
  {
    if k > 0 {
      MaxForwardBelowNeed(sys, k - 1);
    }
  }

  lemma {:induction false} MaxForwardAttained(sys: System, k: nat)
    requires sys.Ordered() && k <= |sys.calcs|
    ensures MaxForward(sys, k) == 0 || exists s: nat :: sys.raws <= s < sys.raws + k && AbsDelay(sys, Fwd, s) == MaxForward(sys, k)
  {
    if k > 0 {
      MaxForwardAttained(sys, k - 1);
      var last := sys.raws + k - 1;
      assert MaxForward(sys, k) == Max(MaxForward(sys, k - 1), AbsDelay(sys, Fwd, last));
    }
  }

  lemma {:induction false} MaxRowsNeededAttained(sys: System, k: nat)
    requires sys.Ordered() && k <= |sys.calcs|
    ensures MaxRowsNeeded(sys, k) == 0
      || exists s: nat :: sys.raws <= s < sys.raws + k && RowsNeeded(sys, s) == MaxRowsNeeded(sys, k)
  {
    if k > 0 {
      MaxRowsNeededAttained(sys, k - 1);
      var last := sys.raws + k - 1;
      assert MaxRowsNeeded(sys, k) == Max(MaxRowsNeeded(sys, k - 1), RowsNeeded(sys, last));
    }
  }

  /** Rows wait no longer, and there are no more of them, than some signal needs. */
  lemma LagIsAttained(sys: System)
    requires sys.Ordered()
    ensures Lag(sys) == 0 || exists s: nat :: sys.raws <= s < sys.Size() && AbsDelay(sys, Fwd, s) == Lag(sys)
    ensures Depth(sys) == 1 || (exists s: nat ::
      sys.raws <= s < sys.Size() && RelDelay(Back, sys.Inputs(s), |sys.Inputs(s)|) + AbsDelay(sys, Fwd, s) + 1 == Depth(sys))
  {
    MaxForwardAttained(sys, |sys.calcs|);
    MaxRowsNeededAttained(sys, |sys.calcs|);
    if Depth(sys) > 1 {
      var s: nat :| sys.raws <= s < sys.Size() && RowsNeeded(sys, s) == MaxRowsNeeded(sys, |sys.calcs|);
      assert RelDelay(Back, sys.Inputs(s), |sys.Inputs(s)|) + AbsDelay(sys, Fwd, s) + 1 == Depth(sys);
    }
  }

  /** No signal lags more than the buffer holds. */
  lemma LagFits(sys: System, s: nat)
    requires sys.Ordered() && s < sys.Size()
    ensures AbsDelay(sys, Fwd, s) <= Lag(sys) < Depth(sys)
  {
    MaxForwardBelowNeed(sys, |sys.calcs|);
    if s >= sys.raws {
      MaxForwardBounds(sys, |sys.calcs|, s - sys.raws);
    }
  }

  lemma RawNeverLags(sys: System, runs: nat, s: nat)
    requires sys.Ordered() && s < sys.raws
    ensures Due(sys, runs, s) == runs && AbsDelay(sys, Back, s) == 0
  {
    assert AbsDelayUpTo(sys, Fwd, s, 0) == 0 && AbsDelayUpTo(sys, Back, s, 0) == 0;
  }

  lemma LagStep(sys: System, runs: nat, j: nat)
    requires sys.Ordered() && j < |sys.calcs|
    ensures MaxForward(sys, j + 1) == Max(MaxForward(sys, j), runs - Due(sys, runs, sys.raws + j))
  {
  }

  /** The column holds the cells of the last |col| computed indices, and nothing where no index was computed yet. */
  ghost predicate Holds(sys: System, hist: History, s: nat, next: int, col: seq<Value>)
    requires sys.Ordered() && s < sys.Size() && Complete(sys, hist)
  {
    && |col| > 0
    && (forall n :: 0 <= n && next - |col| <= n < next ==> col[n % |col|] == Cell(sys, hist, s, n))
    && (forall b :: 0 <= b < |col| && next <= b ==> col[b] == Dne)
  }

  lemma MulAtLeast(d: nat, k: int)
    requires k >= 1
    ensures d * k >= d
  {
    assert d * k == d * (k - 1) + d;
  }

  lemma ModDistinct(n: nat, m: nat, d: nat)
    requires n < m < n + d
    ensures n % d != m % d
  {
    var a, b := n / d, m / d;
    if n % d == m % d {
      assert n == d * a + n % d && m == d * b + m % d;
      assert m - n == d * (b - a);
      if b - a >= 1 {
        MulAtLeast(d, b - a);
      } else {
        MulAtLeast(d, 1 + a - b);
      }
    }
  }

  lemma ModSmall(n: nat, d: nat)
    requires n < d
    ensures n % d == n
  {
  }

  lemma ModShift(n: nat, d: nat)
    requires 0 < d <= n
    ensures (n - d) % d == n % d
  {
    var a, b := (n - d) / d, n / d;
    assert n - d == d * a + (n - d) % d;
    assert n == d * (a + 1) + (n - d) % d;
    ModUnique(n, d, a + 1, (n - d) % d);
  }

  lemma ModUnique(n: nat, d: nat, q: int, r: nat)
    requires 0 < d && r < d && n == d * q + r
    ensures n % d == r
  {
    var b := n / d;
    assert n == d * b + n % d;
    assert d * (q - b) == n % d - r;
    if q - b >= 1 {
      MulAtLeast(d, q - b);
    } else if b - q >= 1 {
      MulAtLeast(d, b - q);
    }
  }

  lemma RingStart(sys: System, s: nat, col: seq<Value>)
    requires sys.Ordered() && s < sys.Size() && |col| > 0
    requires forall b :: 0 <= b < |col| ==> col[b] == Dne
    ensures Holds(sys, [], s, Due(sys, 0, s), col)
  {
  }

  /** Writing the due cell makes the column hold the next index too; in particular no live cell is lost. */
  lemma RingAdvance(sys: System, hist: History, s: nat, next: nat, col: seq<Value>)
    requires sys.Ordered() && s < sys.Size() && Complete(sys, hist) && Holds(sys, hist, s, next, col)
    ensures Holds(sys, hist, s, next + 1, col[next % |col| := Cell(sys, hist, s, next)])
  {
    var d := |col|;
    var slot := next % d;
    var after := col[slot := Cell(sys, hist, s, next)];
    forall n | 0 <= n && next + 1 - d <= n < next + 1
      ensures after[n % d] == Cell(sys, hist, s, n)
    {
      if n < next {
        ModDistinct(n, next, d);
        assert col[n % d] == Cell(sys, hist, s, n);
      }
    }
    if next < d {
      ModSmall(next, d);
    }
    assert forall b :: 0 <= b < d && next + 1 <= b ==> after[b] == Dne;
  }

  /** During warm-up nothing is written, and the cell that stays is already the right one. */
  lemma RingWarmUp(sys: System, hist: History, s: nat, next: nat, col: seq<Value>)
    requires sys.Ordered() && s < sys.Size() && Complete(sys, hist) && Holds(sys, hist, s, next, col)
    requires next < AbsDelay(sys, Back, s)
    ensures Holds(sys, hist, s, next + 1, col)
  {
    var d := |col|;
    if next >= d {
      ModShift(next, d);
      assert col[(next - d) % d] == Cell(sys, hist, s, next - d);
    } else {
      ModSmall(next, d);
    }
    assert col[next % d] == Cell(sys, hist, s, next);
  }

  /** While the signal is not due at all, the column is untouched and still right. */
  lemma RingWait(sys: System, hist: History, s: nat, next: int, col: seq<Value>)
    requires sys.Ordered() && s < sys.Size() && Complete(sys, hist) && Holds(sys, hist, s, next, col)
    requires next < 0
    ensures Holds(sys, hist, s, next + 1, col)
  {
  }

  /** New samples do not change what a column holds. */
  lemma RingStable(sys: System, hist: History, more: History, s: nat, col: seq<Value>)
    requires sys.Ordered() && s < sys.Size() && Complete(sys, hist) && Complete(sys, hist + more)
    requires Holds(sys, hist, s, Due(sys, |hist|, s), col)
    ensures Holds(sys, hist + more, s, Due(sys, |hist|, s), col)
  {
    forall n | n < Due(sys, |hist|, s)
      ensures Cell(sys, hist + more, s, n) == Cell(sys, hist, s, n)
    {
      Causality(sys, hist, more, s, n);
    }
  }

  /**
   * The buffer is deep enough although backward delays are not added up along chains: when signal s is computed in
   * run g, every index it looks at is one its input has already computed (in this run or before) and has not yet
   * overwritten, and that index is not negative nor part of the input's warm-up.
   */
  lemma BufferSuffices(sys: System, g: nat, s: nat, i: nat, m: int)
    requires sys.Ordered() && s < sys.Size()
    requires AbsDelay(sys, Back, s) <= Due(sys, g, s) && Looks(sys, s, Due(sys, g, s), i, m)
    ensures
      var source := sys.Inputs(s)[i].source;
      0 <= m && AbsDelay(sys, Back, source) <= m && Due(sys, g + 1, source) - Depth(sys) <= m < Due(sys, g + 1, source)
  {
    var source := sys.Inputs(s)[i].source;
    DelayThroughInput(sys, Back, s, i);
    DelayThroughInput(sys, Fwd, s, i);
    RelDelayBounds(Back, sys.Inputs(s), |sys.Inputs(s)|, i);
    MaxRowsNeededBounds(sys, |sys.calcs|, s - sys.raws);
  }

  /** So a column of that depth, kept up to date through run g, answers the read with the input's value at that index. */
  lemma RingRead(sys: System, hist: History, g: nat, s: nat, i: nat, m: int, col: seq<Value>)
    requires sys.Ordered() && s < sys.Size() && Complete(sys, hist)
    requires AbsDelay(sys, Back, s) <= Due(sys, g, s) && Looks(sys, s, Due(sys, g, s), i, m)
    requires |col| == Depth(sys) && Holds(sys, hist, sys.Inputs(s)[i].source, Due(sys, g + 1, sys.Inputs(s)[i].source), col)
    ensures 0 <= m && col[m % |col|] == Val(sys, hist, sys.Inputs(s)[i].source, m)
  {
    BufferSuffices(sys, g, s, i, m);
    assert Cell(sys, hist, sys.Inputs(s)[i].source, m) == Val(sys, hist, sys.Inputs(s)[i].source, m);
  }

  // ----- A run, signal by signal -----

  /** What one run does to the column of signal s: nothing while it waits or warms up, else the due cell is written. */
  ghost function Advanced(sys: System, hist: History, g: nat, s: nat, col: seq<Value>): seq<Value>
    requires sys.Ordered() && s < sys.Size() && Complete(sys, hist) && |col| > 0
  {
    var n := Due(sys, g, s);
    if n < 0 || n < AbsDelay(sys, Back, s) then col else col[n % |col| := Cell(sys, hist, s, n)]
  }

  lemma AdvancedHolds(sys: System, hist: History, g: nat, s: nat, col: seq<Value>)
    requires sys.Ordered() && s < sys.Size() && Complete(sys, hist) && Holds(sys, hist, s, Due(sys, g, s), col)
    ensures Holds(sys, hist, s, Due(sys, g + 1, s), Advanced(sys, hist, g, s, col))
  {
    var n := Due(sys, g, s);
    if n < 0 {
      RingWait(sys, hist, s, n, col);
    } else if n < AbsDelay(sys, Back, s) {
      RingWarmUp(sys, hist, s, n, col);
    } else {
      RingAdvance(sys, hist, s, n, col);
    }
  }

  /** The buffer in the middle of run g: the columns of the first k signals are already advanced. */
  ghost predicate Midway(sys: System, hist: History, g: nat, k: nat, cols: seq<seq<Value>>)
    requires sys.Ordered() && Complete(sys, hist)
  {
    && |cols| == sys.Size()
    && forall s: nat :: s < sys.Size() ==> |cols[s]| == Depth(sys) && Holds(sys, hist, s, Due(sys, if s < k then g + 1 else g, s), cols[s])
  }

  lemma MidwayStep(sys: System, hist: History, g: nat, k: nat, cols: seq<seq<Value>>)
    requires sys.Ordered() && Complete(sys, hist) && k < sys.Size() && Midway(sys, hist, g, k, cols)
    ensures Midway(sys, hist, g, k + 1, cols[k := Advanced(sys, hist, g, k, cols[k])])
  {
    AdvancedHolds(sys, hist, g, k, cols[k]);
  }

  /** A signal that waits or warms up passes the run without a write. */
  lemma MidwayPass(sys: System, hist: History, g: nat, k: nat, cols: seq<seq<Value>>)
    requires sys.Ordered() && Complete(sys, hist) && k < sys.Size() && Midway(sys, hist, g, k, cols)
    requires Due(sys, g, k) < 0 || Due(sys, g, k) < AbsDelay(sys, Back, k)
    ensures Midway(sys, hist, g, k + 1, cols)
  {
    MidwayStep(sys, hist, g, k, cols);
    assert cols[k := cols[k]] == cols;
  }

  lemma MidwayStart(sys: System, hist: History, more: History, cols: seq<seq<Value>>)
    requires sys.Ordered() && Complete(sys, hist) && Complete(sys, hist + more) && Midway(sys, hist, |hist|, 0, cols)
    ensures Midway(sys, hist + more, |hist|, 0, cols)
  {
    forall s: nat | s < sys.Size()
      ensures Holds(sys, hist + more, s, Due(sys, |hist|, s), cols[s])
    {
      RingStable(sys, hist, more, s, cols[s]);
    }
  }

  /** After a reset every column is empty, which is right before the first run. */
  lemma MidwayFresh(sys: System, cols: seq<seq<Value>>)
    requires sys.Ordered() && |cols| == sys.Size()
    requires forall s :: 0 <= s < |cols| ==> cols[s] == seq(Depth(sys), _ => Dne)
    ensures Midway(sys, [], 0, 0, cols)
  {
    forall s: nat | s < sys.Size()
      ensures Holds(sys, [], s, Due(sys, 0, s), cols[s])
    {
      RingStart(sys, s, cols[s]);
    }
  }

  lemma MidwayEnd(sys: System, hist: History, g: nat, cols: seq<seq<Value>>)
    requires sys.Ordered() && Complete(sys, hist) && Midway(sys, hist, g, sys.Size(), cols)
    ensures Midway(sys, hist, g + 1, 0, cols)
  {
  }

  /** The row of the oldest index that every signal has reached is in the buffer, complete. */
  lemma CompletedRow(sys: System, hist: History, n: nat, cols: seq<seq<Value>>)
    requires sys.Ordered() && Complete(sys, hist) && Midway(sys, hist, |hist|, 0, cols)
    requires n + Lag(sys) + 1 == |hist|
    ensures forall s: nat :: s < sys.Size() ==> cols[s][n % Depth(sys)] == FinalCell(sys, hist, s, n)
  {
    forall s: nat | s < sys.Size()
      ensures cols[s][n % Depth(sys)] == FinalCell(sys, hist, s, n)
    {
      LagFits(sys, s);
      assert cols[s][n % |cols[s]|] == Cell(sys, hist, s, n);
    }
  }

  // ----- Flushing at the end of an epoch -----

  /** What is delivered for signal s at index n when the epoch ends after |hist| runs. */
  ghost function FinalCell(sys: System, hist: History, s: nat, n: int): Value
    requires sys.Ordered() && s < sys.Size() && Complete(sys, hist)
  {
    if n >= Due(sys, |hist|, s) then Dne else Cell(sys, hist, s, n)
  }

  /** A column in which the cells of the rows [from, |hist|) are final. */
  ghost predicate Flushed(sys: System, hist: History, s: nat, from: int, col: seq<Value>)
    requires sys.Ordered() && s < sys.Size() && Complete(sys, hist)
  {
    |col| > 0 && forall n :: 0 <= n && from <= n < |hist| ==> col[n % |col|] == FinalCell(sys, hist, s, n)
  }

  /** A lagging signal is flushed by writing nothing over its missing indices, one by one. */
  ghost predicate PartlyFlushed(sys: System, hist: History, s: nat, from: int, upto: int, col: seq<Value>)
    requires sys.Ordered() && s < sys.Size() && Complete(sys, hist)
  {
    |col| > 0 && forall n :: 0 <= n && from <= n < upto ==> col[n % |col|] == FinalCell(sys, hist, s, n)
  }

  lemma FlushStart(sys: System, hist: History, s: nat, from: int, col: seq<Value>)
    requires sys.Ordered() && s < sys.Size() && Complete(sys, hist)
    requires Holds(sys, hist, s, Due(sys, |hist|, s), col) && |hist| - |col| <= from
    ensures PartlyFlushed(sys, hist, s, from, Due(sys, |hist|, s), col)
  {
    forall n | 0 <= n && from <= n < Due(sys, |hist|, s)
      ensures col[n % |col|] == FinalCell(sys, hist, s, n)
    {
      assert Cell(sys, hist, s, n) == FinalCell(sys, hist, s, n);
    }
  }

  lemma FlushStep(sys: System, hist: History, s: nat, from: int, i: nat, col: seq<Value>)
    requires sys.Ordered() && s < sys.Size() && Complete(sys, hist)
    requires PartlyFlushed(sys, hist, s, from, i, col) && Due(sys, |hist|, s) <= i < |hist| && |hist| - |col| <= from
    ensures PartlyFlushed(sys, hist, s, from, i + 1, col[i % |col| := Dne])
  {
    forall n | 0 <= n && from <= n < i
      ensures n % |col| != i % |col|
    {
      ModDistinct(n, i, |col|);
    }
  }

  /** Before the ring has wrapped no writing is needed: unwritten cells are already empty. */
  lemma UnwrappedIsFlushed(sys: System, hist: History, s: nat, col: seq<Value>)
    requires sys.Ordered() && s < sys.Size() && Complete(sys, hist)
    requires Holds(sys, hist, s, Due(sys, |hist|, s), col) && |hist| <= |col|
    ensures Flushed(sys, hist, s, 0, col)
  {
    forall n | 0 <= n < |hist|
      ensures col[n % |col|] == FinalCell(sys, hist, s, n)
    {
      ModSmall(n, |col|);
      if n < Due(sys, |hist|, s) {
        assert col[n % |col|] == Cell(sys, hist, s, n);
      }
    }
  }

  /** The buffer in the middle of a flush: the columns of the first k signals are final from row `from` on. */
  ghost predicate MidFlush(sys: System, hist: History, from: nat, k: nat, cols: seq<seq<Value>>)
    requires sys.Ordered() && Complete(sys, hist)
  {
    && |cols| == sys.Size()
    && forall s: nat :: s < sys.Size() ==>
         && |cols[s]| == Depth(sys)
         && if s < k then Flushed(sys, hist, s, from, cols[s]) else Holds(sys, hist, s, Due(sys, |hist|, s), cols[s])
  }

  /** Raw signals never lag, so they need no flushing. */
  lemma MidFlushStart(sys: System, hist: History, from: nat, cols: seq<seq<Value>>)
    requires sys.Ordered() && Complete(sys, hist) && Midway(sys, hist, |hist|, 0, cols) && |hist| <= from + Lag(sys)
    ensures MidFlush(sys, hist, from, sys.raws, cols)
  {
    forall s: nat | s < sys.raws
      ensures Flushed(sys, hist, s, from, cols[s])
    {
      LagFits(sys, s);
      FlushStart(sys, hist, s, from, cols[s]);
    }
  }

  /** If some signal still waits for its first index, no column has wrapped and what was never written is already empty. */
  lemma MidFlushEarly(sys: System, hist: History, k: nat, waiting: nat, cols: seq<seq<Value>>)
    requires sys.Ordered() && Complete(sys, hist) && MidFlush(sys, hist, 0, k, cols)
    requires waiting < sys.Size() && Due(sys, |hist|, waiting) < 0
    ensures MidFlush(sys, hist, 0, sys.Size(), cols)
  {
    LagFits(sys, waiting);
    forall s: nat | k <= s < sys.Size()
      ensures Flushed(sys, hist, s, 0, cols[s])
    {
      UnwrappedIsFlushed(sys, hist, s, cols[s]);
    }
  }

  /** After the flush every remaining row is in the buffer, final. */
  lemma FlushedRow(sys: System, hist: History, from: nat, n: nat, cols: seq<seq<Value>>)
    requires sys.Ordered() && Complete(sys, hist) && MidFlush(sys, hist, from, sys.Size(), cols) && from <= n < |hist|
    ensures forall s: nat :: s < sys.Size() ==> cols[s][n % Depth(sys)] == FinalCell(sys, hist, s, n)
  {
  }
}
