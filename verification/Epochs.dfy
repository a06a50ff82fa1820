/** What the calculator delivers over a whole epoch, from one reset to the next. */
module Epochs {
  import opened Signals
  import opened Rings
  import opened Delivery

  /** The row delivered for index n of an epoch. */
  ghost function Row(sys: System, hist: History, n: nat): seq<Value>
    requires sys.Ordered() && Complete(sys, hist)
  {
    seq(sys.Size(), s requires 0 <= s < sys.Size() => FinalCell(sys, hist, s, n))
  }

  ghost function RowsBelow(sys: System, hist: History, n: nat): (r: seq<seq<Value>>)
    requires sys.Ordered() && Complete(sys, hist)
    ensures |r| == n && forall k :: 0 <= k < n ==> r[k] == Row(sys, hist, k)
  {
    if n == 0 then [] else RowsBelow(sys, hist, n - 1) + [Row(sys, hist, n - 1)]
  }

  /** How many rows so many runs have completed. */
  ghost function Completed(sys: System, runs: nat): nat
    requires sys.Ordered()
  {
    if runs < Lag(sys) then 0 else runs - Lag(sys)
  }

  // ----- One operation at a time -----

  /** An epoch in progress: the samples of its runs, and what it sends. */
  datatype Epoch = Epoch(hist: History, out: Outbox<seq<Value>>)

  function AfterRegister(e: Epoch, id: int): Epoch {
    e.(out := e.out.Register(Synced(|e.hist|, id)))
  }

  /** Run g completes the row of index g - Lag, once there is one. */
  ghost function AfterRun(sys: System, e: Epoch, samples: seq<Value>): Epoch
    requires sys.Ordered() && Complete(sys, e.hist) && |samples| == sys.raws
  {
    var hist := e.hist + [samples];
    if |e.hist| < Lag(sys) then Epoch(hist, e.out)
    else
      var n := |e.hist| - Lag(sys);
      Epoch(hist, e.out.Complete(n, Row(sys, hist, n)))
  }

  /** The remaining rows, from index n on, are sent one after the other. */
  ghost function AfterFlush(sys: System, hist: History, out: Outbox<seq<Value>>, n: nat): Outbox<seq<Value>>
    requires sys.Ordered() && Complete(sys, hist) && n <= |hist|
    decreases |hist| - n
  {
    if n == |hist| then out else AfterFlush(sys, hist, out.Flush(n, Row(sys, hist, n)), n + 1)
  }

  ghost function AfterReset(sys: System, e: Epoch): Epoch
    requires sys.Ordered() && Complete(sys, e.hist)
  {
    Epoch([], AfterFlush(sys, e.hist, e.out, Completed(sys, |e.hist|)).Reset())
  }

  // ----- The whole epoch -----

  datatype Op = Run(samples: seq<Value>) | Register(id: int)

  ghost predicate ValidOps(sys: System, ops: seq<Op>) {
    forall i :: 0 <= i < |ops| && ops[i].Run? ==> |ops[i].samples| == sys.raws
  }

  function Samples(ops: seq<Op>): History {
    if ops == [] then []
    else Samples(ops[..|ops| - 1]) + (if ops[|ops| - 1].Run? then [ops[|ops| - 1].samples] else [])
  }

  /** Every registration, with the number of runs before it as its trigger. */
  function Registrations(ops: seq<Op>): seq<Synced> {
    if ops == [] then []
    else
      var before := ops[..|ops| - 1];
      Registrations(before) + (if ops[|ops| - 1].Register? then [Synced(|Samples(before)|, ops[|ops| - 1].id)] else [])
  }

  ghost function AfterOps(sys: System, ops: seq<Op>, log: seq<Event<seq<Value>>>): (e: Epoch)
    requires sys.Ordered() && ValidOps(sys, ops)
    ensures Complete(sys, e.hist) && e.hist == Samples(ops)
    ensures e.out.registered == Registrations(ops)
  {
    if ops == [] then Epoch([], Outbox([], [], log))
    else
      var e := AfterOps(sys, ops[..|ops| - 1], log);
      match ops[|ops| - 1]
      case Run(samples) => AfterRun(sys, e, samples)
      case Register(id) => AfterRegister(e, id)
  }

  lemma RowStable(sys: System, hist: History, samples: seq<Value>, n: nat)
    requires sys.Ordered() && Complete(sys, hist) && |samples| == sys.raws && n + Lag(sys) < |hist|
    ensures Row(sys, hist + [samples], n) == Row(sys, hist, n)
  {
    forall s: nat | s < sys.Size()
      ensures FinalCell(sys, hist + [samples], s, n) == FinalCell(sys, hist, s, n)
    {
      LagFits(sys, s);
      Causality(sys, hist, [samples], s, n);
    }
  }

  /** A row that a run has completed stays as it is. */
  lemma {:induction false} RowsStable(sys: System, hist: History, samples: seq<Value>, n: nat)
    requires sys.Ordered() && Complete(sys, hist) && |samples| == sys.raws
    requires n == 0 || n + Lag(sys) <= |hist|
    ensures RowsBelow(sys, hist + [samples], n) == RowsBelow(sys, hist, n)
  {
    if n > 0 {
      RowsStable(sys, hist, samples, n - 1);
      RowStable(sys, hist, samples, n - 1);
    }
  }

  ghost predicate OnTrack(sys: System, e: Epoch, log: seq<Event<seq<Value>>>)
    requires sys.Ordered() && Complete(sys, e.hist)
  {
    var n := Completed(sys, |e.hist|);
    Tracks(e.out, RowsBelow(sys, e.hist, n), n, |e.hist|, log)
  }

  lemma RunStaysOnTrack(sys: System, e: Epoch, log: seq<Event<seq<Value>>>, samples: seq<Value>)
    requires sys.Ordered() && Complete(sys, e.hist) && |samples| == sys.raws && OnTrack(sys, e, log)
    ensures OnTrack(sys, AfterRun(sys, e, samples), log)
  {
    var runs, hist := |e.hist|, e.hist + [samples];
    var n, n' := Completed(sys, runs), Completed(sys, runs + 1);
    RowsStable(sys, e.hist, samples, n);
    TracksOn(e.out, RowsBelow(sys, hist, n), n, n', runs, runs + 1, log);
    if runs >= Lag(sys) {
      CompleteTracks(e.out, RowsBelow(sys, hist, n), Row(sys, hist, n), n', runs + 1, log);
    }
  }

  lemma {:induction false} OpsStayOnTrack(sys: System, ops: seq<Op>, log: seq<Event<seq<Value>>>)
    requires sys.Ordered() && ValidOps(sys, ops)
    ensures OnTrack(sys, AfterOps(sys, ops, log), log)
  {
    if ops == [] {
      assert log + [] == log;
    } else {
      var init := ops[..|ops| - 1];
      OpsStayOnTrack(sys, init, log);
      var e := AfterOps(sys, init, log);
      match ops[|ops| - 1]
      case Run(samples) => RunStaysOnTrack(sys, e, log, samples);
      case Register(id) =>
        var n := Completed(sys, |e.hist|);
        RegisterTracks(e.out, RowsBelow(sys, e.hist, n), n, |e.hist|, id, log);
    }
  }

  lemma {:induction false} FlushStaysOnTrack(
      sys: System, hist: History, out: Outbox<seq<Value>>, n: nat, completed: nat, log: seq<Event<seq<Value>>>)
    requires sys.Ordered() && Complete(sys, hist) && completed <= n <= |hist|
    requires Tracks(out, RowsBelow(sys, hist, n), completed, |hist|, log)
    ensures Tracks(AfterFlush(sys, hist, out, n), RowsBelow(sys, hist, |hist|), completed, |hist|, log)
    ensures AfterFlush(sys, hist, out, n).registered == out.registered
    decreases |hist| - n
  {
    if n < |hist| {
      FlushTracks(out, RowsBelow(sys, hist, n), Row(sys, hist, n), completed, |hist|, log);
      FlushStaysOnTrack(sys, hist, out.Flush(n, Row(sys, hist, n)), n + 1, completed, log);
    }
  }

  /**
   * Whatever runs and registrations an epoch consists of, however few, the reset that ends it has sent exactly the
   * epoch's log on top of what was sent before, and leaves nothing waiting.
   */
  lemma EpochConservation(sys: System, ops: seq<Op>, log: seq<Event<seq<Value>>>)
    requires sys.Ordered() && ValidOps(sys, ops)
    ensures
      var hist := Samples(ops);
      var e := AfterOps(sys, ops, log);
      && e.hist == hist
      && var events := EpochLog(RowsBelow(sys, hist, |hist|), Completed(sys, |hist|), Registrations(ops));
      AfterReset(sys, e) == Epoch([], Outbox([], [], log + events))
  {
    OpsStayOnTrack(sys, ops, log);
    var e := AfterOps(sys, ops, log);
    var n := Completed(sys, |e.hist|);
    FlushStaysOnTrack(sys, e.hist, e.out, n, n, log);
    ResetTracks(AfterFlush(sys, e.hist, e.out, n), RowsBelow(sys, e.hist, |e.hist|), n, log);
  }
}
