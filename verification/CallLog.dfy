/** The log of a run: which commands were called, why, and what they answered. */
module CallLog {
  import opened RepeatSemantics
  import opened SegmentTypes

  /** What a segment's commands return. */
  datatype SeStatus =
    | SeSuccess | SeContinue | SeError
    | SeActiveSegmentIndexModified
    | SeAbortIfConditionAttach | SeAbortIfConditionSkip
    | SeAbortIfConditionTrue | SeAbortIfConditionFalse

  /** Why a segment was called: to be started, to go on, or for its condition while another segment goes on. */
  datatype Role = StartRole | RunRole | ConditionRole

  datatype Callback = Callback(segment: nat, role: Role, answer: SeStatus)

  /** What the application answers to the k-th call of a run: the Start or the Run of segment i. */
  type Answers = (nat, nat, bool) -> SeStatus

  /** Only abort segments attach and skip, and no application segment pretends to be a repeat. */
  ghost predicate WellBehaved(cmds: seq<Command>, answers: Answers) {
    forall k: nat, i: nat, start: bool :: i < |cmds| ==>
      && answers(k, i, start) != SeActiveSegmentIndexModified
      && (answers(k, i, start) in {SeAbortIfConditionAttach, SeAbortIfConditionSkip} ==> cmds[i].Abort?)
  }

  predicate HasRun(cmds: seq<Command>, i: nat)
    requires i < |cmds|
  {
    match cmds[i]
    case Plain(hasRun) => hasRun
    case Repeat(_, _) => false
    case Abort => true
  }

  // ----- What a log tells -----

  /** The last call ended the whole run: by an error, or by no verdict where one was asked for. */
  ghost predicate Fatal(log: seq<Callback>) {
    && log != []
    && var c := log[|log| - 1];
    if c.role.ConditionRole? then c.answer !in {SeAbortIfConditionTrue, SeAbortIfConditionFalse}
    else c.answer in {SeError, SeAbortIfConditionFalse}
  }

  ghost predicate Waits(c: Callback) {
    !c.role.ConditionRole? && c.answer == SeContinue
  }

  /** The segment called last asked to be called again later. */
  ghost predicate Waiting(log: seq<Callback>) {
    log != [] && Waits(log[|log| - 1])
  }

  /** How many calls were answered like that. */
  ghost function Waited(log: seq<Callback>): nat {
    if log == [] then 0
    else
      var n := |log| - 1;
      Waited(log[..n]) + if Waits(log[n]) then 1 else 0
  }

  /** The segments started, in order. */
  ghost function StartsIn(log: seq<Callback>): seq<nat> {
    if log == [] then []
    else
      var n := |log| - 1;
      StartsIn(log[..n]) + if log[n].role.StartRole? then [log[n].segment] else []
  }

  /** Those of the starts, by their number, that were left by an abort segment that skips what it guards. */
  ghost function SkipsIn(log: seq<Callback>): set<nat> {
    if log == [] then {}
    else
      var n, starts := |log| - 1, |StartsIn(log)|;
      SkipsIn(log[..n]) + if starts > 0 && IsSkip(log[n]) then {starts - 1} else {}
  }

  ghost predicate IsSkip(c: Callback) {
    !c.role.ConditionRole? && c.answer == SeAbortIfConditionSkip
  }

  /** The last call that was not for a condition. */
  ghost function LastCall(log: seq<Callback>): Option<Callback> {
    if log == [] then None
    else
      var n := |log| - 1;
      if log[n].role.ConditionRole? then LastCall(log[..n]) else Some(log[n])
  }

  /** What hangs on the next segment, or still on this one, after segment i has given its answer. */
  ghost function Hook(attached: seq<nat>, i: nat, answer: SeStatus): seq<nat> {
    if answer == SeAbortIfConditionAttach then attached + [i] else if answer == SeContinue then attached else []
  }

  ghost function Attaching(log: seq<Callback>): seq<nat> {
    if log == [] then []
    else
      var n, c := |log| - 1, log[|log| - 1];
      if c.role.ConditionRole? then if c.answer == SeAbortIfConditionFalse then Attaching(log[..n]) else []
      else Hook(if c.role.StartRole? && Waiting(log[..n]) then [] else Attaching(log[..n]), c.segment, c.answer)
  }

  ghost function Asking(log: seq<Callback>): (n: nat)
    ensures n <= |log|
  {
    if log == [] || !log[|log| - 1].role.ConditionRole? then 0 else Asking(log[..|log| - 1]) + 1
  }

  /**
   * The abort segments that hang on the segment which is to go on or to be started, the one attached last at the end. A
   * condition takes none away unless it objects.
   */
  ghost function Attached(log: seq<Callback>): seq<nat> {
    Attaching(log)
  }

  /** Those that hang on a segment that goes on, or is started next; none if the one that waits has been skipped. */
  ghost function AttachedFor(log: seq<Callback>, startNew: bool): seq<nat> {
    if startNew && Waiting(log) then [] else Attached(log)
  }

  /** How many conditions have been asked since the last call that was none. */
  ghost function AskedSince(log: seq<Callback>): (n: nat)
    ensures n <= |log|
  {
    Asking(log)
  }

  lemma OneMoreAttached(log: seq<Callback>, c: Callback)
    ensures c.role.ConditionRole? ==> Attached(log + [c]) == if c.answer == SeAbortIfConditionFalse then Attached(log) else []
    ensures !c.role.ConditionRole? ==> Attached(log + [c]) == Hook(AttachedFor(log, c.role.StartRole?), c.segment, c.answer)
    ensures AskedSince(log + [c]) == if c.role.ConditionRole? then AskedSince(log) + 1 else 0
  {
    assert (log + [c])[..|log|] == log;
  }

  lemma OneMore(log: seq<Callback>, c: Callback)
    ensures Waited(log + [c]) == Waited(log) + if Waits(c) then 1 else 0
    ensures StartsIn(log + [c]) == StartsIn(log) + if c.role.StartRole? then [c.segment] else []
    ensures SkipsIn(log + [c]) == SkipsIn(log) + if StartsIn(log + [c]) != [] && IsSkip(c) then {|StartsIn(log + [c])| - 1} else {}
    ensures LastCall(log + [c]) == if c.role.ConditionRole? then LastCall(log) else Some(c)
  {
    assert (log + [c])[..|log|] == log;
  }

  // ----- Which logs there can be -----

  /** The answers are those of the application, or of the repeats. */
  ghost predicate Truthful(cmds: seq<Command>, answers: Answers, log: seq<Callback>) {
    forall k {:trigger IsAnswer(cmds, answers, k, log[k])} :: 0 <= k < |log| ==> IsAnswer(cmds, answers, k, log[k])
  }

  ghost predicate IsAnswer(cmds: seq<Command>, answers: Answers, k: nat, c: Callback) {
    && c.segment < |cmds|
    && if cmds[c.segment].Repeat? then c.role.StartRole? && c.answer in {SeSuccess, SeActiveSegmentIndexModified}
       else c.answer == answers(k, c.segment, c.role.StartRole?)
  }

  /**
   * Which call can follow a log. Nothing follows a call that ended the run. A segment goes on only if it is the last one
   * that was called and asked for that; before it does, the abort segments that hang on it are asked for their
   * conditions one by one, nearest first, as long as they do not object; if none of them does, it goes on.
   */
  ghost predicate Fits(cmds: seq<Command>, log: seq<Callback>, c: Callback) {
    && !Fatal(log)
    && match c.role
       case StartRole => log == [] || !IsSilent(log[|log| - 1])
       case RunRole =>
         && (Waiting(log) || (log != [] && IsSilent(log[|log| - 1])))
         && LastCall(log).Some? && LastCall(log).value.segment == c.segment && LastCall(log).value.answer == SeContinue
         && AskedSince(log) == |Attached(log)|
       case ConditionRole =>
         && (Waiting(log) || (log != [] && IsSilent(log[|log| - 1])))
         && c.segment + 1 == log[|log| - 1].segment && c.segment < |cmds| && cmds[c.segment].Abort?
         && AskedSince(log) < |Attached(log)| && c.segment == Attached(log)[|Attached(log)| - 1 - AskedSince(log)]
  }

  /** An abort segment that does not object. */
  ghost predicate IsSilent(c: Callback) {
    c.role.ConditionRole? && c.answer == SeAbortIfConditionFalse
  }

  ghost predicate FitsAt(cmds: seq<Command>, log: seq<Callback>, k: nat)
    requires k < |log|
  {
    Fits(cmds, log[..k], log[k])
  }

  ghost predicate Legal(cmds: seq<Command>, log: seq<Callback>) {
    forall k {:trigger FitsAt(cmds, log, k)} :: 0 <= k < |log| ==> FitsAt(cmds, log, k)
  }

  lemma LegalMore(cmds: seq<Command>, log: seq<Callback>, c: Callback)
    requires Legal(cmds, log) && Fits(cmds, log, c)
    ensures Legal(cmds, log + [c])
  {
    var more := log + [c];
    forall k | 0 <= k < |more| ensures FitsAt(cmds, more, k) {
      if k < |log| {
        assert more[..k] == log[..k] && FitsAt(cmds, log, k);
      } else {
        assert more[..k] == log;
      }
    }
  }

  /** No segment that waits is gone on from by a start: it has been called again, or its conditions have. */
  ghost predicate Unskipped(log: seq<Callback>) {
    forall k {:trigger log[k]} :: 0 < k < |log| && log[k].role.StartRole? ==> !Waits(log[k - 1])
  }

  lemma {:induction false} UnskippedMore(log: seq<Callback>, c: Callback)
    requires Unskipped(log) && (c.role.StartRole? ==> !Waiting(log))
    ensures Unskipped(log + [c])
  {
    var more := log + [c];
    forall k | 0 < k < |more| && more[k].role.StartRole? ensures !Waits(more[k - 1]) {
      assert k < |log| ==> more[k] == log[k] && more[k - 1] == log[k - 1];
    }
  }

  /** If the application's segments all succeed at once, nobody waits, and nothing ends the run. */
  ghost predicate AllSucceed(answers: Answers) {
    forall k: nat, i: nat, start: bool :: answers(k, i, start) == SeSuccess
  }

  lemma OneLess(cmds: seq<Command>, answers: Answers, log: seq<Callback>)
    requires log != [] && Truthful(cmds, answers, log) && Legal(cmds, log)
    ensures var n := |log| - 1;
      && Truthful(cmds, answers, log[..n]) && Legal(cmds, log[..n])
      && Fits(cmds, log[..n], log[n]) && IsAnswer(cmds, answers, n, log[n])
  {
    var n := |log| - 1;
    forall k | 0 <= k < n ensures FitsAt(cmds, log[..n], k) && IsAnswer(cmds, answers, k, log[..n][k]) {
      assert log[..n][..k] == log[..k] && FitsAt(cmds, log, k) && IsAnswer(cmds, answers, k, log[k]);
    }
    assert FitsAt(cmds, log, n) && IsAnswer(cmds, answers, n, log[n]);
  }

  /** Every call of the log is a start that succeeds, or starts a repeat. */
  ghost predicate StartsOnly(log: seq<Callback>) {
    forall k :: 0 <= k < |log| ==> log[k].role.StartRole? && log[k].answer in {SeSuccess, SeActiveSegmentIndexModified}
  }

  lemma {:induction false} NothingButStarts(cmds: seq<Command>, answers: Answers, log: seq<Callback>)
    requires AllSucceed(answers) && Truthful(cmds, answers, log) && Legal(cmds, log)
    ensures StartsOnly(log)
  {
    if log != [] {
      var n := |log| - 1;
      OneLess(cmds, answers, log);
      NothingButStarts(cmds, answers, log[..n]);
      assert n > 0 ==> log[..n][n - 1] == log[n - 1];
      forall k | 0 <= k < |log| ensures log[k].role.StartRole? && log[k].answer in {SeSuccess, SeActiveSegmentIndexModified} {
        if k < n {
          assert log[..n][k] == log[k];
        }
      }
    }
  }

  lemma {:induction false} NobodySkips(log: seq<Callback>)
    requires StartsOnly(log)
    ensures SkipsIn(log) == {}
  {
    if log != [] { NobodySkips(log[..|log| - 1]); }
  }

  lemma NothingInTheWay(cmds: seq<Command>, answers: Answers, log: seq<Callback>)
    requires AllSucceed(answers) && Truthful(cmds, answers, log) && Legal(cmds, log)
    ensures !Fatal(log) && !Waiting(log) && SkipsIn(log) == {}
  {
    NothingButStarts(cmds, answers, log);
    NobodySkips(log);
  }

  // ----- What a log tells about the outcome -----

  /** What the calls of one step say about its outcome. `stuck` means that a segment that cannot run should have. */
  ghost predicate Explained(before: seq<Callback>, after: seq<Callback>, stuck: bool, terminated: bool, waiting: bool) {
    && before <= after && (stuck <==> after == before)
    && (terminated <==> stuck || Fatal(after)) && (waiting <==> !stuck && Waiting(after))
    && Waited(after) == Waited(before) + if waiting then 1 else 0
  }

  /** What the calls of one segment's turn say about its answer; it has none if it is stuck or a condition gave no verdict. */
  ghost predicate Answered(before: seq<Callback>, after: seq<Callback>, stuck: bool, st: Option<SeStatus>) {
    && before <= after && (stuck <==> after == before) && (stuck ==> st == None)
    && (!stuck ==>
        && Waited(after[..|after| - 1]) == Waited(before)
        && var c := after[|after| - 1];
        if !c.role.ConditionRole? then st == Some(c.answer)
        else c.answer != SeAbortIfConditionFalse && st == if c.answer == SeAbortIfConditionTrue then Some(c.answer) else None)
  }

  lemma AnsweredExplained(
      before: seq<Callback>, after: seq<Callback>, stuck: bool, st: Option<SeStatus>, terminated: bool, waiting: bool)
    requires Answered(before, after, stuck, st)
    requires terminated <==> st == None || st.value in {SeError, SeAbortIfConditionFalse}
    requires waiting <==> st == Some(SeContinue)
    ensures Explained(before, after, stuck, terminated, waiting)
  {
  }

  /** Steps that go on without waiting add up. */
  lemma ExplainedTogether(
      a: seq<Callback>, b: seq<Callback>, c: seq<Callback>, terminated: bool, waiting: bool)
    requires Explained(a, b, false, false, false) && Explained(b, c, false, terminated, waiting)
    ensures Explained(a, c, false, terminated, waiting)
  {
  }
}
