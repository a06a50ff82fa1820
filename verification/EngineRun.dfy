/** A whole experiment: the engine thread starts a list, runs its segments at each tick, and cleans up when they are done. */
module EngineRun {
  import opened CallLog
  import opened Conditions
  import opened EngineProtocol
  import opened Programs
  import opened RepeatSemantics
  import opened SegmentTypes
  import E = SegmentExtensions
  import R = SegmentRun

  /** After so many ticks the program is not done: it is on its course, and each tick has found a segment that waits. */
  ghost predicate Underway(run: R.SegmentList, p: Program, startNew: bool, ticks: nat)
    reads run
  {
    && run.Ready(startNew) && run.IsOnCourse(startNew) && run.cmds == Flatten(p, 0) && Waited(run.asked) == ticks
    && Unskipped(run.asked) && (startNew ==> !Waiting(run.asked))
  }

  /** What the segments of a program have been called for, and what they answered, accounts for how they came out. */
  ghost predicate Explains(run: R.SegmentList, p: Program, r: EngineRunStatus)
    reads run
  {
    && run.cmds == Flatten(p, 0) && run.Logged() && run.curIndex <= |run.cmds| && R.Accounts(p, run.asked, r == RunEnd)
    && Heeds(run.cmds, run.asked) && Unskipped(run.asked)
    && (r == RunTerminate ==> R.EndsBadly(run.cmds, run.asked, run.curIndex))
  }

  method Load(p: Program, answers: Answers) returns (run: R.SegmentList)
    requires WellFormed(p) && p != End && WellBehaved(Flatten(p, 0), answers)
    ensures fresh(run) && run.answers == answers && run.curIndex == 0 && Underway(run, p, true, 0)
  {
    FlattenIsValid(p);
    SizePositive(p);
    run := new R.SegmentList(Flatten(p, 0), answers);
  }

  /** A pass that ends the run, or leaves it where it is, has been accounted for. */
  lemma PassExplains(run: R.SegmentList, p: Program, before: seq<Callback>, stuck: bool, r: EngineRunStatus)
    requires WellFormed(p) && run.cmds == Flatten(p, 0) && run.IsOnCourse(r == RunEnd)
    requires run.curIndex <= |run.cmds| && (r == RunEnd <==> run.curIndex == |run.cmds|)
    requires Heeds(run.cmds, run.asked) && Unskipped(run.asked)
    requires Explained(before, run.asked, stuck, r == RunTerminate, r == RunContinue)
    requires stuck ==> R.EndsBadly(run.cmds, before, run.curIndex)
    ensures Explains(run, p, r)
  {
    R.CourseAccounts(p, run.asked, run.Left(), run.curIndex, r == RunEnd, r == RunEnd);
  }

  /** The segments' part of a tick. */
  method RunTick(run: R.SegmentList, p: Program, startNew: bool, ghost ticks: nat) returns (r: EngineRunStatus)
    requires WellFormed(p) && Underway(run, p, startNew, ticks)
    modifies run
    ensures r in {RunContinue, RunEnd, RunTerminate} && Explains(run, p, r)
    ensures r == RunContinue ==> Underway(run, p, false, ticks + 1)
  {
    ghost var before, stuck := run.asked, !startNew && run.cmds[run.curIndex] == Plain(false);
    assert stuck ==> R.EndsBadly(run.cmds, before, run.curIndex);
    r := run.ExecuteSegments(startNew);
    PassExplains(run, p, before, stuck, r);
  }

  /** What the application sees at the end of a run. */
  function Ending(r: EngineRunStatus): seq<Event> {
    if r.RunContinue? then [] else if r.RunEnd? then [Ended] else [Terminated]
  }

  /** A tick of a running list: its segments run, and the engine draws the consequences. */
  method OneTick(engine: Engine, list: E.SegmentList, run: R.SegmentList, p: Program, startNew: bool, ghost ticks: nat)
    returns (r: EngineRunStatus)
    requires engine.Valid() && engine.running && engine.active == list && engine.startNewSegment == startNew
    requires WellFormed(p) && |list.segments| == Size(p) && Underway(run, p, startNew, ticks)
    modifies engine, engine.app, engine.lists, run
    ensures engine.Valid() && r in {RunContinue, RunEnd, RunTerminate} && engine.lists == old(engine.lists)
    ensures engine.running <==> r == RunContinue
    ensures engine.log == old(engine.log) + Ending(r)
    ensures r == RunContinue ==> engine.active == list && list.curIndex == run.curIndex && !engine.startNewSegment
    ensures r == RunContinue ==> |list.segments| == Size(p) && Underway(run, p, false, ticks + 1)
    ensures Explains(run, p, r)
  {
    r := RunTick(run, p, startNew, ticks);
    TickAndStop(engine, r, run.curIndex);
  }

  /** Ticks of a running list, until it is done. */
  method RunTicks(engine: Engine, list: E.SegmentList, run: R.SegmentList, p: Program, ticks: nat)
    returns (r: EngineRunStatus)
    requires engine.Valid() && engine.running && engine.active == list && engine.startNewSegment
    requires WellFormed(p) && |list.segments| == Size(p) && list.curIndex == run.curIndex && Underway(run, p, true, 0)
    modifies engine, engine.app, engine.lists, run
    ensures engine.Valid() && r in {RunContinue, RunEnd, RunTerminate}
    ensures engine.running <==> r == RunContinue
    ensures engine.log == old(engine.log) + Ending(r)
    ensures r == RunContinue ==> engine.active == list && list.curIndex == run.curIndex && Underway(run, p, ticks == 0, ticks)
    ensures Explains(run, p, r)
  {
    r := RunContinue;
    var startNew := true;
    R.CourseAccounts(p, run.asked, run.Left(), run.curIndex, true, false);
    LegalHeeds(run.cmds, run.asked);
    for k := 0 to ticks
      invariant engine.Valid() && engine.running && engine.active == list && engine.lists == old(engine.lists)
      invariant engine.log == old(engine.log) && |list.segments| == Size(p) && list.curIndex == run.curIndex
      invariant r == RunContinue && engine.startNewSegment == startNew == (k == 0) && Underway(run, p, startNew, k)
      invariant Explains(run, p, r)
    {
      r := OneTick(engine, list, run, p, startNew, k);
      startNew := false;
      if r != RunContinue {
        return;
      }
    }
  }

  /**
   * The engine is given a list made of a program. It reports one start, and one end when the segments are through or one
   * termination when a call ended the run; by then the log of calls accounts for what has been started, and the application
   * has got back every extension, once. As long as it goes on, each tick found a segment that asked to be called again; if
   * all succeed, one tick starts the unrolled program.
   */
  method RunExperiment(engine: Engine, list: E.SegmentList, p: Program, answers: Answers, ticks: nat)
    returns (run: R.SegmentList, r: EngineRunStatus)
    requires engine.Valid() && !engine.running && list in engine.lists
    requires WellFormed(p) && p != End && |list.segments| == Size(p) && WellBehaved(Flatten(p, 0), answers)
    modifies engine, engine.app, engine.lists
    ensures engine.Valid() && r in {RunContinue, RunEnd, RunTerminate} && run.answers == answers && Explains(run, p, r)
    ensures engine.running <==> r == RunContinue
    ensures engine.log == old(engine.log) + [Started] + Ending(r)
    ensures r == RunContinue ==> engine.active == list && list.curIndex == run.curIndex && Waited(run.asked) == ticks
    ensures r != RunContinue ==> Settled(engine.app)
    ensures ticks > 0 && AllSucceed(answers) ==> r == RunEnd && run.Started() == Unroll(p, 0)
  {
    StartIdle(engine, list);
    run := Load(p, answers);
    r := RunTicks(engine, list, run, p, ticks);
    if r != RunContinue {
      IdleMeansSettled(engine);
    }
    if AllSucceed(answers) {
      NothingInTheWay(run.cmds, answers, run.asked);
    }
  }
}
