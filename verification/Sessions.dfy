/** The whole life of a calculator: epoch after epoch, with changes of windows between them. */
module Sessions {
  import opened Calc = Calculator
  import opened Signals
  import opened Rings
  import opened Delivery
  import opened Epochs
  import opened Equations
  import opened Delays

  /** What a caller does. A change of the windows of a signal is put into force at once, for the next epoch. */
  datatype Command = Do(op: Op) | Reset | Change(j: nat, windows: seq<Input>)

  /** An epoch: the windows it ran under, and its runs and registrations. */
  datatype Record = Record(sys: System, ops: seq<Op>)

  /** The epochs that are over, and the one in progress. */
  datatype Session = Session(past: seq<Record>, now: Record)

  ghost predicate ValidRecord(r: Record) {
    r.sys.Ordered() && ValidOps(r.sys, r.ops)
  }

  ghost predicate ValidSession(s: Session) {
    ValidRecord(s.now) && forall i :: 0 <= i < |s.past| ==> ValidRecord(s.past[i])
  }

  /** A run brings a sample of each raw signal. A change names the inputs of the signal, and is not one that aborts the program. */
  ghost predicate MayFollow(sys: System, cmd: Command) {
    match cmd
    case Do(op) => op.Run? ==> |op.samples| == sys.raws
    case Reset => true
    case Change(j, windows) => j < |sys.calcs| && SameInputs(sys.calcs[j].inputs, windows) && |windows| % 2 == 1
  }

  /** The same signals with the same inputs, whatever their windows. */
  ghost predicate SameShape(a: System, b: System) {
    && a.raws == b.raws && |a.calcs| == |b.calcs|
    && forall j :: 0 <= j < |a.calcs| ==> a.calcs[j].f == b.calcs[j].f && SameInputs(a.calcs[j].inputs, b.calcs[j].inputs)
  }

  lemma StillFollows(a: System, b: System, cmd: Command)
    requires SameShape(a, b) && MayFollow(a, cmd)
    ensures MayFollow(b, cmd)
  {
  }

  ghost function Changed(sys: System, j: nat, windows: seq<Input>): (changed: System)
    requires sys.Ordered() && j < |sys.calcs| && SameInputs(sys.calcs[j].inputs, windows)
    ensures changed.Ordered() && SameShape(sys, changed) && EveryOtherChanged(sys, changed, j, windows)
  {
    RewindowedIsChanged(sys, j, windows);
    RewindowedOrdered(sys, j, EveryOther(sys.calcs[j].inputs, windows));
    Rewindowed(sys, j, EveryOther(sys.calcs[j].inputs, windows))
  }

  ghost function After(s: Session, cmd: Command): (s': Session)
    requires ValidSession(s) && MayFollow(s.now.sys, cmd)
    ensures ValidSession(s') && SameShape(s.now.sys, s'.now.sys)
    ensures cmd.Change? ==> EveryOtherChanged(s.now.sys, s'.now.sys, cmd.j, cmd.windows)
    ensures !cmd.Change? ==> s'.now.sys == s.now.sys
  {
    match cmd
    case Do(op) => s.(now := Record(s.now.sys, s.now.ops + [op]))
    case Reset => Session(s.past + [s.now], Record(s.now.sys, []))
    case Change(j, windows) => Session(s.past + [s.now], Record(Changed(s.now.sys, j, windows), []))
  }

  ghost predicate ValidCommands(sys: System, cmds: seq<Command>) {
    forall i :: 0 <= i < |cmds| ==> MayFollow(sys, cmds[i])
  }

  /** The session of a calculator that starts with these windows. */
  ghost function AfterAll(sys: System, cmds: seq<Command>): (s: Session)
    requires sys.Ordered() && ValidCommands(sys, cmds)
    ensures ValidSession(s) && SameShape(sys, s.now.sys)
  {
    if cmds == [] then Session([], Record(sys, []))
    else
      var s, cmd := AfterAll(sys, cmds[..|cmds| - 1]), cmds[|cmds| - 1];
      StillFollows(sys, s.now.sys, cmd);
      After(s, cmd)
  }

  /** What an epoch sends from its first run to the reset that ends it. */
  ghost function Sent(r: Record): seq<Event<seq<Value>>>
    requires ValidRecord(r)
  {
    LogOf(r.sys, r.ops)
  }

  ghost function Logged(past: seq<Record>): seq<Event<seq<Value>>>
    requires forall i :: 0 <= i < |past| ==> ValidRecord(past[i])
  {
    if past == [] then [] else Logged(past[..|past| - 1]) + Sent(past[|past| - 1])
  }

  /** The calculator has sent what the epochs that are over send, and is in the middle of the last one. */
  ghost predicate IsAt(c: Calculator, s: Session)
    requires ValidSession(s)
    reads c, c.results, c.results.cells
  {
    c.Valid() && c.sys == s.now.sys && c.Current() == AfterOps(s.now.sys, s.now.ops, Logged(s.past))
  }

  lemma LoggedMore(past: seq<Record>, r: Record)
    requires ValidRecord(r) && forall i :: 0 <= i < |past| ==> ValidRecord(past[i])
    ensures forall i :: 0 <= i < |past + [r]| ==> ValidRecord((past + [r])[i])
    ensures Logged(past + [r]) == Logged(past) + Sent(r)
  {
    assert (past + [r])[..|past|] == past;
  }

  lemma AtMeansOnTrack(c: Calculator, s: Session)
    requires ValidSession(s) && IsAt(c, s)
    ensures OnTrack(s.now.sys, c.Current(), Logged(s.past))
  {
    OpsStayOnTrack(s.now.sys, s.now.ops, Logged(s.past));
  }

  /** A reset ends the epoch in progress with its log, and leaves the next one to start on top of it. */
  lemma ResetSends(s: Session, sys: System)
    requires ValidSession(s) && sys.Ordered()
    ensures ValidSession(Session(s.past + [s.now], Record(sys, [])))
    ensures AfterReset(s.now.sys, AfterOps(s.now.sys, s.now.ops, Logged(s.past))) == AfterOps(sys, [], Logged(s.past + [s.now]))
  {
    LoggedMore(s.past, s.now);
    EpochConservation(s.now.sys, s.now.ops, Logged(s.past));
  }

  /** A change of windows, put into force at once. */
  method ChangeNow(c: Calculator, j: nat, windows: seq<Input>)
    requires c.Valid() && MayFollow(c.sys, Change(j, windows))
    modifies c, c.results, c.results.cells
    ensures c.Valid() && c.sys == Changed(old(c.sys), j, windows) && fresh(c.results) && fresh(c.results.cells)
    ensures c.Current() == AfterReset(c.sys, AfterReset(old(c.sys), old(c.Current())))
  {
    var passed := c.ChangeInputSignalIndicies(j, windows);
    c.CalculateDelaysAndBufferingWithReset();
  }

  lemma OpNext(r: Record, op: Op, log: seq<Event<seq<Value>>>)
    requires ValidRecord(r) && MayFollow(r.sys, Do(op))
    ensures ValidRecord(Record(r.sys, r.ops + [op]))
    ensures AfterOps(r.sys, r.ops + [op], log) == match op
      case Run(samples) => AfterRun(r.sys, AfterOps(r.sys, r.ops, log), samples)
      case Register(id) => AfterRegister(AfterOps(r.sys, r.ops, log), id)
  {
    assert (r.ops + [op])[..|r.ops|] == r.ops;
  }

  /** One run or registration. */
  method Perform(c: Calculator, op: Op, ghost s: Session)
    requires ValidSession(s) && IsAt(c, s) && MayFollow(s.now.sys, Do(op))
    modifies c, c.results, c.results.cells
    ensures IsAt(c, After(s, Do(op))) && c.results == old(c.results)
  {
    OpNext(s.now, op, Logged(s.past));
    match op {
      case Run(samples) => c.RunCalculations(samples);
      case Register(id) => c.RegisterDataSyncedCallback(id);
    }
  }

  /** One command. */
  method Obey(c: Calculator, cmd: Command, ghost s: Session)
    requires ValidSession(s) && IsAt(c, s) && MayFollow(s.now.sys, cmd)
    modifies c, c.results, c.results.cells
    ensures IsAt(c, After(s, cmd))
    ensures c.results == old(c.results) || (fresh(c.results) && fresh(c.results.cells))
  {
    ghost var sys, log := c.sys, Logged(s.past);
    match cmd {
      case Do(op) =>
        Perform(c, op, s);
      case Reset =>
        ResetSends(s, sys);
        c.ResetCalculator();
      case Change(j, windows) =>
        ResetSends(s, Changed(sys, j, windows));
        ChangeNow(c, j, windows);
    }
  }

  lemma CommandNext(sys: System, cmds: seq<Command>, i: nat)
    requires sys.Ordered() && ValidCommands(sys, cmds) && i < |cmds|
    ensures MayFollow(AfterAll(sys, cmds[..i]).now.sys, cmds[i])
    ensures AfterAll(sys, cmds[..i + 1]) == After(AfterAll(sys, cmds[..i]), cmds[i])
  {
    assert cmds[..i + 1][..i] == cmds[..i];
    StillFollows(sys, AfterAll(sys, cmds[..i]).now.sys, cmds[i]);
  }

  /**
   * Any sequence of runs, registrations, resets and changes of windows. All epochs that are over have sent their logs, one
   * after the other, and the one in progress is on track.
   */
  method RunSession(c: Calculator, cmds: seq<Command>)
    requires c.Valid() && c.Current() == Epoch([], Outbox([], [], [])) && ValidCommands(c.sys, cmds)
    modifies c, c.results, c.results.cells
    ensures IsAt(c, AfterAll(old(c.sys), cmds))
    ensures var s := AfterAll(old(c.sys), cmds); OnTrack(s.now.sys, c.Current(), Logged(s.past))
  {
    ghost var sys := c.sys;
    for i := 0 to |cmds|
      invariant c.results == old(c.results) || (fresh(c.results) && fresh(c.results.cells))
      invariant IsAt(c, AfterAll(sys, cmds[..i]))
    {
      CommandNext(sys, cmds, i);
      Obey(c, cmds[i], AfterAll(sys, cmds[..i]));
    }
    assert cmds[..|cmds|] == cmds;
    AtMeansOnTrack(c, AfterAll(sys, cmds));
  }

  // ----- What a session sends -----

  function RunsIn(cmds: seq<Command>): nat {
    if cmds == [] then 0
    else RunsIn(cmds[..|cmds| - 1]) + (if cmds[|cmds| - 1].Do? && cmds[|cmds| - 1].op.Run? then 1 else 0)
  }

  function IdsIn(cmds: seq<Command>): seq<int> {
    if cmds == [] then []
    else IdsIn(cmds[..|cmds| - 1]) + (if cmds[|cmds| - 1].Do? && cmds[|cmds| - 1].op.Register? then [cmds[|cmds| - 1].op.id] else [])
  }

  /** An epoch that is over has sent one row for each of its runs, with the values its own windows ask for, and each callback once. */
  lemma RecordContents(r: Record)
    requires ValidRecord(r)
    ensures Complete(r.sys, Samples(r.ops)) && AreRowsOf(r.sys, Samples(r.ops), Rows(Sent(r)))
    ensures Ids(Sent(r)) == IdsOf(Registrations(r.ops))
  {
    EpochDeliversEverythingOnce(r.sys, r.ops);
  }

  /** The runs and registrations of the epoch in progress. */
  lemma OpsOneMore(ops: seq<Op>, op: Op)
    ensures |Samples(ops + [op])| == |Samples(ops)| + (if op.Run? then 1 else 0)
    ensures IdsOf(Registrations(ops + [op])) == IdsOf(Registrations(ops)) + (if op.Register? then [op.id] else [])
  {
    assert (ops + [op])[..|ops|] == ops;
  }

  /** What has been sent, and what the epoch in progress has still to send, make up so many rows and these callbacks. */
  ghost predicate Accounts(s: Session, runs: nat, ids: seq<int>)
    requires ValidSession(s)
  {
    && |Rows(Logged(s.past))| + |Samples(s.now.ops)| == runs
    && Ids(Logged(s.past)) + IdsOf(Registrations(s.now.ops)) == ids
  }

  lemma OpAccounts(s: Session, op: Op, runs: nat, ids: seq<int>)
    requires ValidSession(s) && MayFollow(s.now.sys, Do(op)) && Accounts(s, runs, ids)
    ensures Accounts(After(s, Do(op)), runs + (if op.Run? then 1 else 0), ids + (if op.Register? then [op.id] else []))
  {
    OpsOneMore(s.now.ops, op);
  }

  lemma EpochAdds(past: seq<Record>, r: Record)
    requires ValidRecord(r) && forall i :: 0 <= i < |past| ==> ValidRecord(past[i])
    ensures forall i :: 0 <= i < |past + [r]| ==> ValidRecord((past + [r])[i])
    ensures |Rows(Logged(past + [r]))| == |Rows(Logged(past))| + |Samples(r.ops)|
    ensures Ids(Logged(past + [r])) == Ids(Logged(past)) + IdsOf(Registrations(r.ops))
  {
    LoggedMore(past, r);
    RecordContents(r);
    ReadAppend(Logged(past), Sent(r));
  }

  lemma EndAccounts(s: Session, sys: System, runs: nat, ids: seq<int>)
    requires ValidSession(s) && sys.Ordered() && Accounts(s, runs, ids)
    ensures ValidSession(Session(s.past + [s.now], Record(sys, []))) && Accounts(Session(s.past + [s.now], Record(sys, [])), runs, ids)
  {
    EpochAdds(s.past, s.now);
    assert ids + IdsOf(Registrations([])) == ids;
  }

  lemma NextAccounts(s: Session, cmd: Command, runs: nat, ids: seq<int>)
    requires ValidSession(s) && MayFollow(s.now.sys, cmd) && Accounts(s, runs, ids)
    ensures Accounts(After(s, cmd),
              runs + (if cmd.Do? && cmd.op.Run? then 1 else 0), ids + (if cmd.Do? && cmd.op.Register? then [cmd.op.id] else []))
  {
    match cmd {
      case Do(op) => OpAccounts(s, op, runs, ids);
      case _ => EndAccounts(s, After(s, cmd).now.sys, runs, ids); assert ids + [] == ids;
    }
  }

  /**
   * However a session is cut into epochs: there is one row for each run and each callback is fired once and in the order
   * of registration, except for what the epoch in progress has still to send.
   */
  lemma {:induction false} SessionConservation(sys: System, cmds: seq<Command>)
    requires sys.Ordered() && ValidCommands(sys, cmds)
    ensures Accounts(AfterAll(sys, cmds), RunsIn(cmds), IdsIn(cmds))
  {
    if cmds != [] {
      var init, cmd := cmds[..|cmds| - 1], cmds[|cmds| - 1];
      SessionConservation(sys, init);
      var s := AfterAll(sys, init);
      StillFollows(sys, s.now.sys, cmd);
      NextAccounts(s, cmd, RunsIn(init), IdsIn(init));
    }
  }
}
