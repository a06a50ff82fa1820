/** Executing a segment list: starting and running segments, counted repeats, and chained abort conditionals. */
module SegmentRun {
  import opened CallLog
  import opened Conditions
  import opened Programs
  import opened RepeatSemantics
  import opened SegmentTypes

  /** The state a repeat keeps between its starts. */
  datatype RepeatState = RepeatState(currentCount: nat, complete: bool)

  // ----- Chains of abort conditionals -----

  /** The links lead from the current segment back over `len` abort segments right before it, and there are no others. */
  ghost predicate Chained(cmds: seq<Command>, links: seq<Option<nat>>, cur: nat, len: nat) {
    && |links| == |cmds| && len <= cur < |cmds|
    && (forall i :: 0 <= i < |links| ==> links[i] == if cur - len < i <= cur then Some(i - 1) else None)
    && (forall i :: cur - len <= i < cur ==> cmds[i].Abort?)
  }

  /** The abort segment that the walk reaches in the given turn, and where it leads. */
  lemma ChainLink(cmds: seq<Command>, links: seq<Option<nat>>, cur: nat, len: nat, turn: nat)
    requires Chained(cmds, links, cur, len) && turn < len
    ensures cmds[cur - 1 - turn].Abort?
    ensures links[cur - 1 - turn] == if turn + 1 < len then Some(cur - 2 - turn) else None
  {
  }

  ghost predicate Unlinked(links: seq<Option<nat>>) {
    forall i :: 0 <= i < |links| ==> links[i] == None
  }

  /** What the d-th condition up the chain says, when the nearest one is that of segment `top`. */
  function Condition(answers: Answers, calls: nat, top: nat, d: nat): SeStatus
    requires d <= top
  {
    answers(calls + d, top - d, false)
  }

  /** The verdict of a chain of conditionals, nearest first: the first one that does not say "false" decides. */
  function ChainVerdict(answers: Answers, calls: nat, top: nat, len: nat): SeStatus
    requires len <= top + 1
    decreases len
  {
    if len == 0 then SeAbortIfConditionFalse
    else if Condition(answers, calls, top, 0) != SeAbortIfConditionFalse || len == 1 then Condition(answers, calls, top, 0)
    else ChainVerdict(answers, calls + 1, top - 1, len - 1)
  }

  /** All conditions before the d-th say "false", and it says something else. */
  ghost predicate FirstToObject(answers: Answers, calls: nat, top: nat, d: nat)
    requires d <= top
  {
    && (forall e :: 0 <= e < d ==> Condition(answers, calls, top, e) == SeAbortIfConditionFalse)
    && Condition(answers, calls, top, d) != SeAbortIfConditionFalse
  }

  lemma {:induction false} FirstObjectionDecides(answers: Answers, calls: nat, top: nat, len: nat, d: nat)
    requires d < len <= top + 1 && FirstToObject(answers, calls, top, d)
    ensures ChainVerdict(answers, calls, top, len) == Condition(answers, calls, top, d)
    decreases len
  {
    if d > 0 {
      assert Condition(answers, calls, top, 0) == SeAbortIfConditionFalse;
      var calls', top' := calls + 1, top - 1;
      forall e | 0 <= e < d - 1 ensures Condition(answers, calls', top', e) == SeAbortIfConditionFalse {
        assert Condition(answers, calls, top, e + 1) == SeAbortIfConditionFalse;
      }
      assert Condition(answers, calls', top', d - 1) == Condition(answers, calls, top, d);
      FirstObjectionDecides(answers, calls', top', len - 1, d - 1);
    }
  }

  lemma {:induction false} SilenceDecides(answers: Answers, calls: nat, top: nat, len: nat)
    requires len <= top + 1 && forall d :: 0 <= d < len ==> Condition(answers, calls, top, d) == SeAbortIfConditionFalse
    ensures ChainVerdict(answers, calls, top, len) == SeAbortIfConditionFalse
    decreases len
  {
    if len > 1 {
      var calls', top' := calls + 1, top - 1;
      forall e | 0 <= e < len - 1 ensures Condition(answers, calls', top', e) == SeAbortIfConditionFalse {
        assert Condition(answers, calls, top, e + 1) == SeAbortIfConditionFalse;
      }
      SilenceDecides(answers, calls', top', len - 1);
    }
  }

  lemma {:induction false} FirstObjection(answers: Answers, calls: nat, top: nat, len: nat) returns (d: nat)
    requires len <= top + 1
    ensures d <= len && forall e :: 0 <= e < d ==> Condition(answers, calls, top, e) == SeAbortIfConditionFalse
    ensures d < len ==> FirstToObject(answers, calls, top, d)
  {
    d := 0;
    while d < len && Condition(answers, calls, top, d) == SeAbortIfConditionFalse
      invariant d <= len && forall e :: 0 <= e < d ==> Condition(answers, calls, top, e) == SeAbortIfConditionFalse
    {
      d := d + 1;
    }
  }

  /** The conditions are or-ed: the first one to object decides, so the verdict is "true" iff it says so, and "false" iff none objects. */
  lemma ChainIsOr(answers: Answers, calls: nat, top: nat, len: nat)
    requires len <= top + 1
    ensures ChainVerdict(answers, calls, top, len) == SeAbortIfConditionTrue <==>
      exists d :: 0 <= d < len && FirstToObject(answers, calls, top, d) && Condition(answers, calls, top, d) == SeAbortIfConditionTrue
    ensures ChainVerdict(answers, calls, top, len) == SeAbortIfConditionFalse <==>
      forall d :: 0 <= d < len ==> Condition(answers, calls, top, d) == SeAbortIfConditionFalse
  {
    var d := FirstObjection(answers, calls, top, len);
    if d < len {
      FirstObjectionDecides(answers, calls, top, len, d);
    } else {
      SilenceDecides(answers, calls, top, len);
    }
  }

  /** None of the first n conditions of a chain that begins at `top` objects. */
  ghost predicate Silent(answers: Answers, calls: nat, top: int, n: nat) {
    n <= top + 1 && forall d :: 0 <= d < n ==> Condition(answers, calls, top, d) == SeAbortIfConditionFalse
  }

  /** The verdict of a chain of conditions, by the first n of them, of which only the last may object. */
  lemma VerdictOf(answers: Answers, calls: nat, top: nat, len: nat, n: nat)
    requires 0 < n <= len <= top + 1 && Silent(answers, calls, top, n - 1)
    requires n == len || Condition(answers, calls, top, n - 1) != SeAbortIfConditionFalse
    ensures ChainVerdict(answers, calls, top, len) == Condition(answers, calls, top, n - 1)
  {
    if Condition(answers, calls, top, n - 1) == SeAbortIfConditionFalse {
      SilenceDecides(answers, calls, top, len);
    } else {
      FirstObjectionDecides(answers, calls, top, len, n - 1);
    }
  }

  // ----- The calls of one turn -----

  /** The log after the first n conditions have been asked, one after the other. */
  ghost function WithConditions(answers: Answers, log: seq<Callback>, cur: nat, n: nat): (after: seq<Callback>)
    requires n <= cur
    ensures |after| == |log| + n
  {
    if n == 0 then log
    else WithConditions(answers, log, cur, n - 1) + [Callback(cur - n, ConditionRole, Condition(answers, |log|, cur - 1, n - 1))]
  }

  /** A log after which segment `cur` can be started, or can go on. */
  ghost predicate CanTurn(cmds: seq<Command>, answers: Answers, log: seq<Callback>, cur: nat, startNew: bool) {
    && cur < |cmds| && Truthful(cmds, answers, log) && Legal(cmds, log)
    && if startNew then !Fatal(log) && (log != [] ==> !IsSilent(log[|log| - 1]))
       else Waiting(log) && log[|log| - 1].segment == cur
  }

  /** A segment that waits can go on unless it is a plain one without a Run; a repeat never waits. */
  lemma WaitingHasRun(cmds: seq<Command>, answers: Answers, log: seq<Callback>, cur: nat)
    requires CanTurn(cmds, answers, log, cur, false)
    ensures HasRun(cmds, cur) <==> cmds[cur] != Plain(false)
    ensures cmds[cur] in {Plain(true), Plain(false), Abort}
  {
    assert IsAnswer(cmds, answers, |log| - 1, log[|log| - 1]);
  }

  /** The abort segments that hang on segment `cur` are the `chain` ones right before it. */
  ghost predicate Hangs(log: seq<Callback>, startNew: bool, cur: nat, chain: nat) {
    chain <= cur && AttachedFor(log, startNew) == Range(cur - chain, chain)
  }

  /** What asking the conditions adds to a log. */
  ghost predicate Asked(cmds: seq<Command>, answers: Answers, before: seq<Callback>, after: seq<Callback>) {
    && Truthful(cmds, answers, after) && Legal(cmds, after) && before <= after && LastCall(after) == LastCall(before)
    && Waited(after) == Waited(before) && StartsIn(after) == StartsIn(before) && SkipsIn(after) == SkipsIn(before)
    && (Unskipped(before) ==> Unskipped(after))
  }

  lemma TruthfulMore(cmds: seq<Command>, answers: Answers, log: seq<Callback>, c: Callback)
    requires Truthful(cmds, answers, log) && IsAnswer(cmds, answers, |log|, c)
    ensures Truthful(cmds, answers, log + [c])
  {
    forall k | 0 <= k <= |log| ensures IsAnswer(cmds, answers, k, (log + [c])[k]) {
      assert k < |log| ==> IsAnswer(cmds, answers, k, log[k]);
    }
  }

  lemma AskedMore(cmds: seq<Command>, answers: Answers, before: seq<Callback>, after: seq<Callback>, c: Callback)
    requires Asked(cmds, answers, before, after) && c.role.ConditionRole?
    requires IsAnswer(cmds, answers, |after|, c) && Fits(cmds, after, c)
    ensures Asked(cmds, answers, before, after + [c])
  {
    OneMore(after, c);
    LegalMore(cmds, after, c);
    TruthfulMore(cmds, answers, after, c);
    if Unskipped(after) { UnskippedMore(after, c); }
  }

  /** The same by a name that is not recursive. */
  ghost function AskedUpTo(answers: Answers, log: seq<Callback>, cur: nat, n: nat): seq<Callback>
    requires n <= cur
  {
    WithConditions(answers, log, cur, n)
  }

  lemma OneMoreCondition(answers: Answers, log: seq<Callback>, cur: nat, n: nat)
    requires 0 < n <= cur
    ensures AskedUpTo(answers, log, cur, n) ==
      AskedUpTo(answers, log, cur, n - 1) + [Callback(cur - n, ConditionRole, Condition(answers, |log|, cur - 1, n - 1))]
    ensures |AskedUpTo(answers, log, cur, n - 1)| == |log| + n - 1
  {
  }

  lemma {:induction false} AskedBefore(answers: Answers, log: seq<Callback>, cur: nat, n: nat)
    requires n <= cur
    ensures log <= AskedUpTo(answers, log, cur, n)
  {
    if n > 0 { AskedBefore(answers, log, cur, n - 1); }
  }

  lemma LastAsked(answers: Answers, log: seq<Callback>, cur: nat, n: nat, asked: seq<Callback>)
    requires n <= cur && asked == AskedUpTo(answers, log, cur, n) && Silent(answers, |log|, cur - 1, n)
    ensures if n == 0 then asked == log else |asked| > 0 && asked[|asked| - 1] == Callback(cur - n, ConditionRole, SeAbortIfConditionFalse)
  {
    if n > 0 {
      OneMoreCondition(answers, log, cur, n);
      assert Condition(answers, |log|, cur - 1, n - 1) == SeAbortIfConditionFalse;
    }
  }

  /** Conditions that do not object leave all of them in place. */
  lemma {:induction false} SilentKeeps(answers: Answers, log: seq<Callback>, cur: nat, n: nat)
    requires n <= cur && Silent(answers, |log|, cur - 1, n) && Waiting(log)
    ensures Attached(AskedUpTo(answers, log, cur, n)) == Attached(log) && AskedSince(AskedUpTo(answers, log, cur, n)) == n
  {
    if n > 0 {
      SilentKeeps(answers, log, cur, n - 1);
      OneMoreCondition(answers, log, cur, n);
      assert Condition(answers, |log|, cur - 1, n - 1) == SeAbortIfConditionFalse;
      OneMoreAttached(AskedUpTo(answers, log, cur, n - 1), Callback(cur - n, ConditionRole, SeAbortIfConditionFalse));
    }
  }

  lemma {:induction false} ConditionFits(
      cmds: seq<Command>, answers: Answers, log: seq<Callback>, cur: nat, chain: nat, n: nat, asked: seq<Callback>, c: Callback)
    requires Waiting(log) && log[|log| - 1].segment == cur < |cmds| && Hangs(log, false, cur, chain)
    requires 0 < n <= chain && cmds[cur - n].Abort?
    requires asked == AskedUpTo(answers, log, cur, n - 1) && Silent(answers, |log|, cur - 1, n - 1)
    requires c.segment == cur - n && c.role.ConditionRole?
    ensures Fits(cmds, asked, c)
  {
    var attached := Range(cur - chain, chain);
    assert Attached(asked) == attached && AskedSince(asked) == n - 1 by { SilentKeeps(answers, log, cur, n - 1); }
    assert attached[chain - n] == cur - n;
    LastAsked(answers, log, cur, n - 1, asked);
  }

  lemma {:induction false} AskNext(
      cmds: seq<Command>, answers: Answers, log: seq<Callback>, cur: nat, chain: nat, n: nat,
      asked: seq<Callback>, after: seq<Callback>)
    requires CanTurn(cmds, answers, log, cur, false) && Asked(cmds, answers, log, asked) && 0 < n <= chain && chain <= cur
    requires Hangs(log, false, cur, chain) && cmds[cur - n].Abort?
    requires asked == AskedUpTo(answers, log, cur, n - 1) && Silent(answers, |log|, cur - 1, n - 1)
    requires after == AskedUpTo(answers, log, cur, n)
    ensures Asked(cmds, answers, log, after)
  {
    var c := Callback(cur - n, ConditionRole, Condition(answers, |log|, cur - 1, n - 1));
    ConditionFits(cmds, answers, log, cur, chain, n, asked, c);
    OneMoreCondition(answers, log, cur, n);
    AskedMore(cmds, answers, log, asked, c);
  }

  /** The conditions are asked one by one, as long as none has objected. */
  lemma {:induction false} AskConditions(
      cmds: seq<Command>, answers: Answers, log: seq<Callback>, cur: nat, chain: nat, n: nat)
    requires CanTurn(cmds, answers, log, cur, false) && AbortsBefore(cmds, cur, n) && (n > 0 ==> Silent(answers, |log|, cur - 1, n - 1))
    requires Hangs(log, false, cur, chain) && n <= chain
    ensures Asked(cmds, answers, log, AskedUpTo(answers, log, cur, n))
    decreases n
  {
    if n > 0 {
      AskConditions(cmds, answers, log, cur, chain, n - 1);
      AskNext(cmds, answers, log, cur, chain, n, AskedUpTo(answers, log, cur, n - 1), AskedUpTo(answers, log, cur, n));
    }
  }

  ghost predicate AbortsBefore(cmds: seq<Command>, cur: nat, n: nat) {
    n <= cur < |cmds| && forall i :: cur - n <= i < cur ==> cmds[i].Abort?
  }

  /** What the last of n conditions said; none at all objects. */
  ghost function LastVerdict(answers: Answers, calls: nat, cur: nat, n: nat): SeStatus
    requires n <= cur
  {
    if n == 0 then SeAbortIfConditionFalse else Condition(answers, calls, cur - 1, n - 1)
  }

  /** Segment `cur` goes on: n of its conditions are asked, up to the first to object, and the segment itself iff none does. */
  ghost predicate RunLogged(
    answers: Answers, before: seq<Callback>, after: seq<Callback>, cur: nat, chain: nat, n: nat, st: Option<SeStatus>)
  {
    && n <= chain <= cur && (n > 0 ==> Silent(answers, |before|, cur - 1, n - 1))
    && var asked, verdict := AskedUpTo(answers, before, cur, n), LastVerdict(answers, |before|, cur, n);
    if verdict == SeAbortIfConditionFalse then
      && n == chain && st == Some(answers(|before| + n, cur, false))
      && after == asked + [Callback(cur, RunRole, st.value)]
    else
      after == asked && st == if verdict == SeAbortIfConditionTrue then Some(verdict) else None
  }

  /** What a turn of segment `cur` adds to a log, and what it answers. */
  ghost predicate TurnLogged(
    cmds: seq<Command>, answers: Answers, before: seq<Callback>, after: seq<Callback>, cur: nat, startNew: bool, stuck: bool,
    st: Option<SeStatus>)
  {
    && Truthful(cmds, answers, after) && Legal(cmds, after) && Answered(before, after, stuck, st)
    && (st == Some(SeContinue) ==> after != [] && after[|after| - 1].segment == cur)
    && (st.Some? ==> Attached(after) == Hook(AttachedFor(before, startNew), cur, st.value))
    && (Unskipped(before) && (startNew ==> !Waiting(before)) ==> Unskipped(after))
    && StartsIn(after) == StartsIn(before) + (if startNew then [cur] else [])
    && SkipsIn(after) == SkipsIn(before) +
         (if st == Some(SeAbortIfConditionSkip) && StartsIn(after) != [] then {|StartsIn(after)| - 1} else {})
  }

  /** A start is logged with its answer. */
  lemma StartMeans(cmds: seq<Command>, answers: Answers, log: seq<Callback>, cur: nat, st: SeStatus)
    requires CanTurn(cmds, answers, log, cur, true) && IsAnswer(cmds, answers, |log|, Callback(cur, StartRole, st))
    ensures TurnLogged(cmds, answers, log, log + [Callback(cur, StartRole, st)], cur, true, false, Some(st))
  {
    var c := Callback(cur, StartRole, st);
    OneMore(log, c);
    OneMoreAttached(log, c);
    if Unskipped(log) && !Waiting(log) { UnskippedMore(log, c); }
    LegalMore(cmds, log, c);
    TruthfulMore(cmds, answers, log, c);
    assert (log + [c])[..|log|] == log;
  }

  /** What a segment that goes on answers, and what its turn adds to the log. */
  lemma RunMeans(
      cmds: seq<Command>, answers: Answers, links: seq<Option<nat>>, chain: nat, before: seq<Callback>, after: seq<Callback>,
      cur: nat, n: nat, st: Option<SeStatus>)
    requires CanTurn(cmds, answers, before, cur, false) && Chained(cmds, links, cur, chain)
    requires !cmds[cur].Repeat? && Hangs(before, false, cur, chain) && RunLogged(answers, before, after, cur, chain, n, st)
    ensures TurnLogged(cmds, answers, before, after, cur, false, false, st)
  {
    var asked := AskedUpTo(answers, before, cur, n);
    if n > 0 { OneMoreCondition(answers, before, cur, n); }
    AskConditions(cmds, answers, before, cur, chain, n);
    if LastVerdict(answers, |before|, cur, n) == SeAbortIfConditionFalse {
      SilentKeeps(answers, before, cur, n);
      GoingOn(cmds, answers, before, asked, cur, st.value);
    } else {
      AskedBefore(answers, before, cur, n - 1);
      Objection(cmds, answers, before, AskedUpTo(answers, before, cur, n - 1), after[|after| - 1], cur, st);
    }
  }

  lemma {:induction false} GoingOn(cmds: seq<Command>, answers: Answers, before: seq<Callback>, asked: seq<Callback>, cur: nat, st: SeStatus)
    requires CanTurn(cmds, answers, before, cur, false) && Asked(cmds, answers, before, asked) && !cmds[cur].Repeat?
    requires asked == before || IsSilent(asked[|asked| - 1])
    requires Attached(asked) == Attached(before) && AskedSince(asked) == |Attached(before)|
    requires st == answers(|asked|, cur, false)
    ensures TurnLogged(cmds, answers, before, asked + [Callback(cur, RunRole, st)], cur, false, false, Some(st))
  {
    var c := Callback(cur, RunRole, st);
    assert LastCall(before) == Some(before[|before| - 1]);
    OneMore(asked, c);
    OneMoreAttached(asked, c);
    if Unskipped(asked) { UnskippedMore(asked, c); }
    LegalMore(cmds, asked, c);
    TruthfulMore(cmds, answers, asked, c);
    assert (asked + [c])[..|asked|] == asked;
  }

  lemma {:induction false} Objection(
      cmds: seq<Command>, answers: Answers, before: seq<Callback>, asked: seq<Callback>, c: Callback, cur: nat, st: Option<SeStatus>)
    requires before <= asked && Asked(cmds, answers, before, asked + [c])
    requires c.role.ConditionRole? && c.answer != SeAbortIfConditionFalse
    requires st == if c.answer == SeAbortIfConditionTrue then Some(c.answer) else None
    ensures TurnLogged(cmds, answers, before, asked + [c], cur, false, false, st)
  {
    OneMore(asked, c);
    OneMoreAttached(asked, c);
    assert (asked + [c])[..|asked|] == asked;
  }

  // ----- Repeats -----

  ghost predicate ValidRepeats(cmds: seq<Command>, reps: seq<RepeatState>) {
    |reps| == |cmds| && forall j :: 0 <= j < |cmds| && cmds[j].Repeat? ==> reps[j].currentCount <= cmds[j].count
  }

  ghost function JumpsLeft(c: Command, r: RepeatState): int {
    if !c.Repeat? then 0 else if r.complete then c.count else c.count - r.currentCount
  }

  ghost function Remaining(cmds: seq<Command>, reps: seq<RepeatState>): (rem: seq<nat>)
    requires ValidRepeats(cmds, reps)
    ensures ValidRemaining(cmds, rem)
  {
    seq(|cmds|, j requires 0 <= j < |cmds| => JumpsLeft(cmds[j], reps[j]))
  }

  lemma RemainingUpdate(cmds: seq<Command>, reps: seq<RepeatState>, j: nat, r: RepeatState)
    requires ValidRepeats(cmds, reps) && j < |cmds| && cmds[j].Repeat? && r.currentCount <= cmds[j].count
    ensures ValidRepeats(cmds, reps[j := r])
    ensures Remaining(cmds, reps[j := r]) == Remaining(cmds, reps)[j := JumpsLeft(cmds[j], r)]
  {
  }

  // ----- Executing -----

  /** Starts made plus starts that can still be made: no step increases this. */
  ghost function Budget(cmds: seq<Command>, started: nat, rem: seq<nat>, cur: nat, toStart: bool): int
    requires |rem| == |cmds| && cur <= |cmds|
  {
    started + Measure(cmds, rem, cur) - (if toStart then 0 else 1)
  }

  /** A step has left position cur: forward over repeats that change at will behind it, or back by a jump of its own repeat. */
  ghost predicate Moved(cmds: seq<Command>, rem: seq<nat>, cur: nat, rem': seq<nat>, cur': nat)
    requires |rem| == |cmds| && cur < |cmds|
  {
    || (cur < cur' <= |cmds| && |rem'| == |cmds| && forall j :: cur' <= j < |cmds| ==> rem'[j] == rem[j])
    || (cmds[cur].Repeat? && cur' == cmds[cur].target && rem[cur] > 0 && rem' == rem[cur := rem[cur] - 1])
  }

  lemma MovingSpends(cmds: seq<Command>, rem: seq<nat>, cur: nat, rem': seq<nat>, cur': nat)
    requires ValidList(cmds) && ValidRemaining(cmds, rem) && cur < |cmds| && Moved(cmds, rem, cur, rem', cur')
    ensures cur' <= |cmds| && |rem'| == |cmds| && Measure(cmds, rem', cur') < Measure(cmds, rem, cur)
  {
    assert ValidAt(cmds, cur);
    if cur < cur' {
      ForwardSpends(cmds, rem, rem', cur, cur', |cmds|);
    } else {
      JumpSpends(cmds, rem, cur, cur', |cmds|);
    }
  }

  /** The start of the current segment, if it was made now, is paid for by the move away from it. */
  lemma MovingPays(cmds: seq<Command>, before: nat, rem: seq<nat>, cur: nat, rem': seq<nat>, cur': nat, toStart: bool)
    requires ValidList(cmds) && ValidRemaining(cmds, rem) && cur < |cmds| && Moved(cmds, rem, cur, rem', cur')
    ensures cur' <= |cmds| && |rem'| == |cmds| && Measure(cmds, rem', cur') < Measure(cmds, rem, cur)
    ensures Budget(cmds, before + (if toStart then 1 else 0), rem', cur', true) <= Budget(cmds, before, rem, cur, toStart)
  {
    MovingSpends(cmds, rem, cur, rem', cur');
  }

  /** What the answer of the segment at cur says about the repeats: only a repeat touches its jumps, and only it can branch. */
  ghost predicate Responds(cmds: seq<Command>, rem: seq<nat>, cur: nat, rem': seq<nat>, branch: nat, st: SeStatus)
    requires |rem| == |cmds| && cur < |cmds|
  {
    && (st in {SeAbortIfConditionAttach, SeAbortIfConditionSkip} ==> cmds[cur].Abort?)
    && (if !cmds[cur].Repeat? then st != SeActiveSegmentIndexModified && rem' == rem
        else if rem[cur] > 0 then st == SeActiveSegmentIndexModified && branch == cmds[cur].target && rem' == rem[cur := rem[cur] - 1]
        else st == SeSuccess && rem' == rem[cur := cmds[cur].count])
  }

  /** Where the engine goes on after an answer with which it leaves the segment. */
  ghost predicate GoesOn(cmds: seq<Command>, cur: nat, branch: nat, st: SeStatus, cur': nat)
    requires cur < |cmds|
  {
    && (st in {SeSuccess, SeAbortIfConditionTrue, SeAbortIfConditionAttach} ==> cur' == cur + 1)
    && (st == SeAbortIfConditionSkip ==> cur' == PastGroup(cmds, cur))
    && (st == SeActiveSegmentIndexModified ==> cur' == branch)
  }

  /** What the engine makes of an answer: it waits, ends, terminates, or starts the segment with which it goes on. */
  ghost predicate Dispatched(
    cmds: seq<Command>, cur: nat, branch: nat, st: SeStatus, cur': nat, r: Option<EngineRunStatus>, startNext: bool)
    requires cur < |cmds|
  {
    && r in {None, Some(RunEnd), Some(RunTerminate)} && GoesOn(cmds, cur, branch, st, cur')
    && (st == SeContinue <==> !startNext) && (st == SeContinue ==> r == None)
    && (st in {SeError, SeAbortIfConditionFalse} <==> r == Some(RunTerminate))
    && (st in {SeContinue, SeError, SeAbortIfConditionFalse} ==> cur' == cur)
  }

  /** A segment that is left is followed by what the flat meaning of the list says, if the decisions are those of the answers. */
  lemma RespondedMoves(
      cmds: seq<Command>, rem: seq<nat>, cur: nat, rem': seq<nat>, branch: nat, st: SeStatus, cur': nat, skips: set<nat>, n: nat)
    requires ValidList(cmds) && ValidRemaining(cmds, rem) && cur < |cmds| && st !in {SeContinue, SeError, SeAbortIfConditionFalse}
    requires Responds(cmds, rem, cur, rem', branch, st) && GoesOn(cmds, cur, branch, st, cur')
    requires n in skips <==> st == SeAbortIfConditionSkip
    ensures Moved(cmds, rem, cur, rem', cur') && State(cur', rem', n + 1) == After(cmds, skips, State(cur, rem, n))
  {
    assert ValidAt(cmds, cur);
  }

  /** What a segment's turn does: it answers, and the engine stays, goes on, ends or terminates accordingly. */
  ghost predicate TurnTaken(
    cmds: seq<Command>, rem: seq<nat>, cur: nat, startNew: bool, rem': seq<nat>, cur': nat, branch: nat,
    answer: Option<SeStatus>, r: Option<EngineRunStatus>, startNext: bool)
    requires |rem| == |cmds| && cur < |cmds|
  {
    if answer == None then r == Some(RunTerminate) && startNext && !startNew && rem' == rem && cur' == cur
    else Responds(cmds, rem, cur, rem', branch, answer.value) && Dispatched(cmds, cur, branch, answer.value, cur', r, startNext)
  }

  /** The segments that have been started and left again. */
  ghost function LeftIn(log: seq<Callback>, toStart: bool): seq<nat> {
    var starts := StartsIn(log);
    if toStart || starts == [] then starts else starts[..|starts| - 1]
  }

  /**
   * The run has followed the flat meaning of the list up to here, with the decisions that its abort segments have made:
   * it is about to start segment `cur`, or has started it and not left it.
   */
  ghost predicate OnCourse(cmds: seq<Command>, log: seq<Callback>, rem: seq<nat>, cur: nat, toStart: bool) {
    && Runs(cmds, SkipsIn(log), Begin(cmds), LeftIn(log, toStart), State(cur, rem, |LeftIn(log, toStart)|))
    && (!toStart ==> cur < |cmds| && StartsIn(log) == LeftIn(log, toStart) + [cur])
    && forall n :: n in SkipsIn(log) ==> n < |LeftIn(log, toStart)|
  }

  /** A turn keeps the run on course; when it terminates, the segment called last has not been left. */
  lemma TurnOnCourse(
      cmds: seq<Command>, answers: Answers, before: seq<Callback>, after: seq<Callback>, rem: seq<nat>, cur: nat, startNew: bool,
      stuck: bool, rem': seq<nat>, cur': nat, branch: nat, answer: Option<SeStatus>, r: Option<EngineRunStatus>, startNext: bool)
    requires ValidList(cmds) && ValidRemaining(cmds, rem) && cur < |cmds|
    requires OnCourse(cmds, before, rem, cur, startNew) && TurnLogged(cmds, answers, before, after, cur, startNew, stuck, answer)
    requires TurnTaken(cmds, rem, cur, startNew, rem', cur', branch, answer, r, startNext)
    ensures OnCourse(cmds, after, rem', cur', startNext && r != Some(RunTerminate))
  {
    var left := LeftIn(before, startNew);
    assert StartsIn(after) == left + [cur];
    assert (left + [cur])[..|left|] == left;
    if answer.Some? && answer.value !in {SeContinue, SeError, SeAbortIfConditionFalse} {
      RespondedMoves(cmds, rem, cur, rem', branch, answer.value, cur', SkipsIn(after), |left|);
      LeaveSegment(cmds, SkipsIn(before), SkipsIn(after), left, State(cur, rem, |left|));
    } else {
      NotLeft(cmds, answers, before, after, rem, cur, startNew, rem', answer);
    }
  }

  lemma LeaveSegment(cmds: seq<Command>, skips: set<nat>, skips': set<nat>, left: seq<nat>, s: State)
    requires Runs(cmds, skips, Begin(cmds), left, s) && ValidState(cmds, s) && s.at < |cmds|
    requires forall n :: n in skips' && n < |left| <==> n in skips && n < |left|
    ensures Runs(cmds, skips', Begin(cmds), left + [s.at], After(cmds, skips', s))
  {
    RunsAlike(cmds, skips, skips', Begin(cmds), left, s);
    RunOne(cmds, skips', s);
    RunOn(cmds, skips', Begin(cmds), left, s, [s.at], After(cmds, skips', s));
  }

  lemma NotLeft(
      cmds: seq<Command>, answers: Answers, before: seq<Callback>, after: seq<Callback>, rem: seq<nat>, cur: nat, startNew: bool,
      rem': seq<nat>, answer: Option<SeStatus>)
    requires OnCourse(cmds, before, rem, cur, startNew) && rem' == rem && cur < |cmds|
    requires StartsIn(after) == LeftIn(before, startNew) + [cur] && SkipsIn(after) == SkipsIn(before)
    ensures OnCourse(cmds, after, rem', cur, false)
  {
    assert LeftIn(after, false) == LeftIn(before, startNew);
  }

  /** A turn spends what it starts. */
  lemma TurnPays(
      cmds: seq<Command>, started: nat, rem: seq<nat>, cur: nat, startNew: bool, rem': seq<nat>, cur': nat, branch: nat,
      answer: Option<SeStatus>, r: Option<EngineRunStatus>, startNext: bool)
    requires ValidList(cmds) && ValidRemaining(cmds, rem) && ValidRemaining(cmds, rem') && cur < |cmds| && cur' <= |cmds|
    requires TurnTaken(cmds, rem, cur, startNew, rem', cur', branch, answer, r, startNext)
    ensures r == None && startNext ==> Measure(cmds, rem', cur') < Measure(cmds, rem, cur)
    ensures Budget(cmds, started + (if startNew then 1 else 0), rem', cur', startNext && r != Some(RunTerminate))
         <= Budget(cmds, started, rem, cur, startNew)
  {
    if answer.Some? && answer.value !in {SeContinue, SeError, SeAbortIfConditionFalse} {
      RespondedMoves(cmds, rem, cur, rem', branch, answer.value, cur', if answer.value == SeAbortIfConditionSkip then {0} else {}, 0);
      MovingPays(cmds, started, rem, cur, rem', cur', startNew);
    }
  }

  /** After a turn that leaves the segment or lets it wait, the next one can be taken. */
  lemma TurnAgain(
      cmds: seq<Command>, answers: Answers, before: seq<Callback>, after: seq<Callback>, cur: nat, startNew: bool, stuck: bool,
      rem: seq<nat>, rem': seq<nat>, cur': nat, branch: nat, answer: Option<SeStatus>, r: Option<EngineRunStatus>, startNext: bool)
    requires |rem| == |cmds| && cur < |cmds| && cur' < |cmds| && r == None
    requires TurnLogged(cmds, answers, before, after, cur, startNew, stuck, answer)
    requires TurnTaken(cmds, rem, cur, startNew, rem', cur', branch, answer, r, startNext)
    ensures CanTurn(cmds, answers, after, cur', startNext)
  {
  }

  /** The answer of a segment that goes on is none that only a repeat could give. */
  lemma AnswerOfRun(
      cmds: seq<Command>, answers: Answers, before: seq<Callback>, after: seq<Callback>, cur: nat, chain: nat, n: nat,
      st: Option<SeStatus>)
    requires WellBehaved(cmds, answers) && cur < |cmds| && RunLogged(answers, before, after, cur, chain, n, st)
    ensures st.Some? ==> st.value != SeActiveSegmentIndexModified
    ensures st.Some? && st.value in {SeAbortIfConditionAttach, SeAbortIfConditionSkip} ==> cmds[cur].Abort?
  {
  }

  /** How many abort segments hang on the segment with which the engine goes on after an answer. */
  function Links(chain: nat, st: SeStatus): nat {
    if st == SeAbortIfConditionAttach then chain + 1 else if st == SeContinue then chain else 0
  }

  /** What hangs on the current segment after a turn is what its log says. */
  lemma TurnHangs(
      cmds: seq<Command>, answers: Answers, before: seq<Callback>, after: seq<Callback>, cur: nat, startNew: bool, stuck: bool,
      branch: nat, st: SeStatus, chain: nat, cur': nat, r: Option<EngineRunStatus>, startNext: bool)
    requires cur < |cmds| && Hangs(before, startNew, cur, chain)
    requires TurnLogged(cmds, answers, before, after, cur, startNew, stuck, Some(st))
    requires Dispatched(cmds, cur, branch, st, cur', r, startNext)
    ensures Hangs(after, startNext, cur', Links(chain, st))
  {
    assert startNext ==> !Waiting(after);
    if st == SeAbortIfConditionAttach {
      assert Range(cur - chain, chain) + [cur] == Range(cur - chain, chain + 1);
    }
  }

  /** What a turn means for the whole run. */
  lemma TurnMeans(
      cmds: seq<Command>, answers: Answers, before: seq<Callback>, after: seq<Callback>, rem: seq<nat>, cur: nat, startNew: bool,
      stuck: bool, rem': seq<nat>, cur': nat, branch: nat, answer: Option<SeStatus>, r: Option<EngineRunStatus>, startNext: bool)
    requires ValidList(cmds) && ValidRemaining(cmds, rem) && ValidRemaining(cmds, rem') && cur < |cmds| && cur' <= |cmds|
    requires TurnLogged(cmds, answers, before, after, cur, startNew, stuck, answer)
    requires TurnTaken(cmds, rem, cur, startNew, rem', cur', branch, answer, r, startNext)
    ensures r == None && startNext ==> Measure(cmds, rem', cur') < Measure(cmds, rem, cur)
    ensures Budget(cmds, |StartsIn(after)|, rem', cur', startNext && r != Some(RunTerminate))
         <= Budget(cmds, |StartsIn(before)|, rem, cur, startNew)
    ensures OnCourse(cmds, before, rem, cur, startNew) ==> OnCourse(cmds, after, rem', cur', startNext && r != Some(RunTerminate))
    ensures Explained(before, after, stuck, r == Some(RunTerminate), r == None && !startNext)
    ensures r == None && cur' < |cmds| ==> CanTurn(cmds, answers, after, cur', startNext)
  {
    AnsweredExplained(before, after, stuck, answer, r == Some(RunTerminate), r == None && !startNext);
    TurnPays(cmds, |StartsIn(before)|, rem, cur, startNew, rem', cur', branch, answer, r, startNext);
    if OnCourse(cmds, before, rem, cur, startNew) {
      TurnOnCourse(cmds, answers, before, after, rem, cur, startNew, stuck, rem', cur', branch, answer, r, startNext);
    }
    if r == None && cur' < |cmds| {
      TurnAgain(cmds, answers, before, after, cur, startNew, stuck, rem, rem', cur', branch, answer, r, startNext);
    }
  }

  class SegmentList {
    const cmds: seq<Command>
    const answers: Answers
    var curIndex: nat
    var branchIndex: nat
    var conditional: seq<Option<nat>>
    var reps: seq<RepeatState>
    /** The number of calls of commands. */
    var calls: nat
    /** Those calls. */
    ghost var asked: seq<Callback>
    /** The length of the chain that hangs on the current segment. */
    ghost var chain: nat

    /** A validated list, as it is when execution starts: at segment zero, with fresh repeats and no links. */
    constructor (cmds: seq<Command>, answers: Answers)
      requires cmds != [] && ValidList(cmds) && WellBehaved(cmds, answers)
      ensures this.cmds == cmds && this.answers == answers && Valid() && curIndex == 0 && asked == []
      ensures Left() == FreshRemaining(cmds) && Resting(true) && IsOnCourse(true)
    {
      this.cmds, this.answers := cmds, answers;
      curIndex, branchIndex, calls, asked, chain := 0, 0, 0, [], 0;
      conditional := seq(|cmds|, _ => None);
      reps := seq(|cmds|, _ => RepeatState(0, false));
      new;
      RunNothing(cmds, {}, Begin(cmds));
    }

    ghost predicate Logged()
      reads this
    {
      |asked| == calls && Truthful(cmds, answers, asked) && Legal(cmds, asked)
    }

    ghost predicate Listed()
      reads this
    {
      && ValidList(cmds) && WellBehaved(cmds, answers) && ValidRepeats(cmds, reps) && |conditional| == |cmds|
      && Logged()
    }

    /** Between two steps, on some segment of the list. */
    ghost predicate Valid()
      reads this
    {
      Listed() && Chained(cmds, conditional, curIndex, chain)
    }

    /** The current segment can be started, or can go on. */
    ghost predicate Ready(startNew: bool)
      reads this
    {
      Valid() && CanTurn(cmds, answers, asked, curIndex, startNew) && Hangs(asked, startNew, curIndex, chain)
    }

    /** Between two passes: nothing has been called yet, or a segment waits. */
    ghost predicate Resting(startNew: bool)
      reads this
    {
      Ready(startNew) && (asked == [] || Waiting(asked))
    }

    /** The jumps left to each repeat. */
    ghost function Left(): (rem: seq<nat>)
      requires ValidRepeats(cmds, reps)
      reads this
      ensures ValidRemaining(cmds, rem)
    {
      Remaining(cmds, reps)
    }

    ghost function Started(): seq<nat>
      reads this
    {
      StartsIn(asked)
    }

    /** The run has followed the meaning of the list so far. */
    ghost predicate IsOnCourse(toStart: bool)
      reads this
    {
      Listed() && OnCourse(cmds, asked, Left(), curIndex, toStart)
    }

    ghost function Spendable(toStart: bool): int
      requires Listed() && curIndex <= |cmds|
      reads this
    {
      Budget(cmds, |Started()|, Left(), curIndex, toStart)
    }

    // ----- Conditionals -----

    /** Unhooks every conditional that hangs on a segment. */
    method DeleteChainedConditionals(i: nat)
      requires Chained(cmds, conditional, i, chain)
      modifies this`conditional, this`chain
      ensures Chained(cmds, conditional, i, 0) && chain == 0
    {
      var segment := i;
      while conditional[segment].Some?
        invariant chain <= segment <= i && Chained(cmds, conditional, segment, chain)
        decreases chain
      {
        var prior := segment;
        segment := conditional[segment].value;
        conditional := conditional[prior := None];
        chain := chain - 1;
      }
      chain := 0;
    }

    /** Calls a command that the application provides. */
    method Call(segment: nat, role: Role) returns (st: SeStatus)
      requires |asked| == calls
      modifies this`calls, this`asked
      ensures |asked| == calls && asked == old(asked) + [Callback(segment, role, st)]
      ensures st == answers(old(|asked|), segment, role.StartRole?)
    {
      st := answers(calls, segment, role.StartRole?);
      asked := asked + [Callback(segment, role, st)];
      calls := calls + 1;
    }

    /** The first n conditions that hang on the current segment have been asked, and have not objected. */
    ghost predicate AskedInVain(was: seq<Callback>, n: nat)
      reads this
    {
      && |asked| == calls && n <= curIndex
      && asked == AskedUpTo(answers, was, curIndex, n) && Silent(answers, |was|, curIndex - 1, n)
    }

    /** Asks one more of them. */
    method AskCondition(segment: nat, ghost was: seq<Callback>, ghost n: nat) returns (st: SeStatus)
      requires AskedInVain(was, n) && segment + 1 + n == curIndex
      modifies this`calls, this`asked
      ensures |asked| == calls && asked == AskedUpTo(answers, was, curIndex, n + 1)
      ensures st == Condition(answers, |was|, curIndex - 1, n) && (st == SeAbortIfConditionFalse ==> AskedInVain(was, n + 1))
    {
      OneMoreCondition(answers, was, curIndex, n + 1);
      st := Call(segment, ConditionRole);
    }

    /** Asks the conditions that hang on the current segment, nearest first: n of them. */
    method RunChainedConditionals() returns (st: SeStatus, ghost n: nat)
      requires |asked| == calls && Chained(cmds, conditional, curIndex, chain) && chain > 0
      modifies this`calls, this`asked
      ensures |asked| == calls && st == ChainVerdict(answers, old(|asked|), curIndex - 1, chain)
      ensures 0 < n <= chain && st == LastVerdict(answers, old(|asked|), curIndex, n) && Silent(answers, old(|asked|), curIndex - 1, n - 1)
      ensures asked == AskedUpTo(answers, old(asked), curIndex, n) && (st == SeAbortIfConditionFalse ==> n == chain)
    {
      var segment := curIndex - 1;
      n := 0;
      while true
        invariant n < chain && segment == curIndex - 1 - n && AskedInVain(old(asked), n)
        decreases chain - n
      {
        ChainLink(cmds, conditional, curIndex, chain, n);
        st := AskCondition(segment, old(asked), n);
        n := n + 1;
        if st != SeAbortIfConditionFalse {
          VerdictOf(answers, old(|asked|), curIndex - 1, chain, n);
          return;
        }
        if conditional[segment].None? {
          VerdictOf(answers, old(|asked|), curIndex - 1, chain, n);
          return;
        }
        segment := conditional[segment].value;
      }
    }

    // ----- Repeats -----

    method SetIndexForBranch(newIndex: nat)
      modifies this`branchIndex
      ensures branchIndex == if newIndex < |cmds| && newIndex != curIndex then newIndex else old(branchIndex)
    {
      if newIndex >= |cmds| {
        return;
      } else if newIndex == curIndex {
        return;
      } else {
        branchIndex := newIndex;
      }
    }

    /** Starting a repeat: a completed one begins anew; then it jumps back if it has a jump left. */
    method StartRepeat() returns (st: SeStatus)
      requires ValidList(cmds) && ValidRepeats(cmds, reps) && curIndex < |cmds| && cmds[curIndex].Repeat?
      modifies this`reps, this`branchIndex
      ensures ValidRepeats(cmds, reps)
      ensures var j, rem := curIndex, old(Left());
        if rem[j] > 0 then st == SeActiveSegmentIndexModified && branchIndex == cmds[j].target && Left() == rem[j := rem[j] - 1]
        else st == SeSuccess && Left() == rem[j := cmds[j].count]
    {
      var j := curIndex;
      var r := reps[j];
      ghost var before := reps;
      if r.complete {
        r := RepeatState(0, false);
      }
      assert ValidAt(cmds, j);
      if r.currentCount < cmds[j].count {
        r := r.(currentCount := r.currentCount + 1);
        SetIndexForBranch(cmds[j].target);
        st := SeActiveSegmentIndexModified;
      } else {
        r := r.(complete := true);
        st := SeSuccess;
      }
      reps := reps[j := r];
      RemainingUpdate(cmds, before, j, r);
    }

    // ----- One segment at a time -----

    /** Starts the current segment. Its conditionals are not asked: they were started just before. */
    method StartSegment() returns (st: SeStatus)
      requires Valid()
      modifies this`reps, this`branchIndex, this`calls, this`asked
      ensures |asked| == calls && asked == old(asked) + [Callback(curIndex, StartRole, st)]
      ensures ValidRepeats(cmds, reps) && IsAnswer(cmds, answers, old(|asked|), Callback(curIndex, StartRole, st))
      ensures Responds(cmds, old(Left()), curIndex, Left(), branchIndex, st)
    {
      if cmds[curIndex].Repeat? {
        st := StartRepeat();
        asked := asked + [Callback(curIndex, StartRole, st)];
        calls := calls + 1;
      } else {
        st := Call(curIndex, StartRole);
      }
    }

    /** What running the current segment yields when its conditionals give `verdict`; nothing if that is no answer at all. */
    ghost function RunAnswer(verdict: SeStatus, at: nat): Option<SeStatus>
      requires curIndex < |cmds|
      reads this
    {
      if !HasRun(cmds, curIndex) then None
      else if verdict == SeAbortIfConditionTrue then Some(SeAbortIfConditionTrue)
      else if verdict == SeAbortIfConditionFalse then Some(answers(at, curIndex, false))
      else None
    }

    /** Lets the current segment continue, unless one of its conditionals objects. */
    method RunSegment() returns (st: Option<SeStatus>, ghost n: nat)
      requires Valid()
      modifies this`calls, this`asked
      ensures |asked| == calls && n <= chain
      ensures
        if HasRun(cmds, curIndex) then RunLogged(answers, old(asked), asked, curIndex, chain, n, st)
        else st == None && asked == old(asked)
      ensures chain == 0 ==> st == RunAnswer(SeAbortIfConditionFalse, old(calls))
      ensures chain > 0 ==> st == RunAnswer(ChainVerdict(answers, old(calls), curIndex - 1, chain), old(calls) + chain)
    {
      n := 0;
      if !HasRun(cmds, curIndex) {
        return None, n;
      }
      if conditional[curIndex].Some? {
        var verdict;
        verdict, n := RunChainedConditionals();
        if verdict == SeAbortIfConditionTrue {
          return Some(SeAbortIfConditionTrue), n;
        } else if verdict != SeAbortIfConditionFalse {
          return None, n;
        }
      }
      var status := Call(curIndex, RunRole);
      st := Some(status);
    }

    /** Skips the remaining conditionals from the current one on, and the segment they were meant for. */
    method SkipConditionals() returns (ended: bool)
      requires Valid() && chain == 0 && cmds[curIndex].Abort?
      modifies this`curIndex
      ensures curIndex == PastGroup(cmds, old(curIndex)) && (ended ==> curIndex == |cmds|)
      ensures if ended then cmds[|cmds| - 1].Abort? else !cmds[curIndex - 1].Abort?
    {
      while cmds[curIndex].Abort?
        invariant old(curIndex) <= curIndex < |cmds| && PastGroup(cmds, curIndex) == PastGroup(cmds, old(curIndex))
        decreases |cmds| - curIndex
      {
        curIndex := curIndex + 1;
        if curIndex >= |cmds| {
          return true;
        }
      }
      curIndex := curIndex + 1;
      return false;
    }

    /** The current segment is done with: unhook its conditionals and go where execution continues. */
    method Leave(next: nat)
      requires Valid() && next <= |cmds|
      modifies this`conditional, this`chain, this`curIndex
      ensures Listed() && curIndex == next && chain == 0 && Unlinked(conditional)
      ensures next < |cmds| ==> Valid()
    {
      DeleteChainedConditionals(curIndex);
      curIndex := next;
    }

    /** A conditional hooks itself onto the next segment, if there is one. */
    method Attach()
      requires Valid() && cmds[curIndex].Abort?
      modifies this`conditional, this`chain, this`curIndex
      ensures Listed() && curIndex == old(curIndex) + 1
      ensures curIndex < |cmds| ==>
        Valid() && chain == old(chain) + 1 && conditional == old(conditional)[curIndex := Some(old(curIndex))]
      ensures curIndex == |cmds| ==> conditional == old(conditional) && chain == old(chain)
    {
      var segment := curIndex;
      curIndex := curIndex + 1;
      if curIndex < |cmds| {
        conditional := conditional[curIndex := Some(segment)];
        chain := chain + 1;
      }
    }

    /** What the engine does with the status of the current segment: an outcome if that ends this call. */
    method Dispatch(st: SeStatus) returns (r: Option<EngineRunStatus>, startNew: bool)
      requires Valid()
      requires st == SeActiveSegmentIndexModified ==> cmds[curIndex].Repeat? && branchIndex == cmds[curIndex].target
      requires st in {SeAbortIfConditionAttach, SeAbortIfConditionSkip} ==> cmds[curIndex].Abort?
      modifies this`conditional, this`chain, this`curIndex
      ensures Listed() && curIndex <= |cmds|
      ensures (r == None ==> Valid()) && (r == Some(RunEnd) <==> curIndex == |cmds|)
      ensures Dispatched(cmds, old(curIndex), branchIndex, st, curIndex, r, startNew)
      ensures st == SeContinue ==> conditional == old(conditional) && chain == old(chain)
      ensures st == SeAbortIfConditionAttach && r == None ==>
        chain == old(chain) + 1 && conditional == old(conditional)[curIndex := Some(old(curIndex))]
      ensures st !in {SeContinue, SeAbortIfConditionAttach} ==> Unlinked(conditional)
      ensures r == None ==> chain == Links(old(chain), st)
    {
      startNew := true;
      assert ValidAt(cmds, curIndex);
      match st {
        case SeSuccess =>
          Leave(curIndex + 1);
        case SeContinue =>
          startNew := false;
        case SeActiveSegmentIndexModified =>
          Leave(branchIndex);
        case SeAbortIfConditionSkip =>
          DeleteChainedConditionals(curIndex);
          var ended := SkipConditionals();
          if ended {
            return Some(RunEnd), true;
          }
        case SeAbortIfConditionAttach =>
          Attach();
          if curIndex >= |cmds| {
            return Some(RunEnd), true;
          }
        case SeAbortIfConditionTrue =>
          Leave(curIndex + 1);
        case _ =>
          DeleteChainedConditionals(curIndex);
          return Some(RunTerminate), true;
      }
      r := if curIndex >= |cmds| then Some(RunEnd) else None;
    }

    // ----- A timer tick -----

    method RespondToStart() returns (st: SeStatus)
      requires Ready(true)
      modifies this`reps, this`branchIndex, this`calls, this`asked
      ensures Valid() && TurnLogged(cmds, answers, old(asked), asked, curIndex, true, false, Some(st))
      ensures Responds(cmds, old(Left()), curIndex, Left(), branchIndex, st)
    {
      st := StartSegment();
      StartMeans(cmds, answers, old(asked), curIndex, st);
    }

    method RespondToRun() returns (st: Option<SeStatus>)
      requires Ready(false)
      modifies this`calls, this`asked
      ensures Valid() && TurnLogged(cmds, answers, old(asked), asked, curIndex, false, !HasRun(cmds, curIndex), st)
      ensures st.Some? ==> Responds(cmds, Left(), curIndex, Left(), branchIndex, st.value)
    {
      ghost var n;
      st, n := RunSegment();
      if HasRun(cmds, curIndex) {
        RunMeans(cmds, answers, conditional, chain, old(asked), asked, curIndex, n, st);
        AnswerOfRun(cmds, answers, old(asked), asked, curIndex, chain, n, st);
      } else {
        assert asked == old(asked);
      }
    }

    /** Starts or runs the current segment. There is no answer if a segment that cannot be run should be. */
    method Respond(startNew: bool) returns (st: Option<SeStatus>)
      requires Ready(startNew)
      modifies this`reps, this`branchIndex, this`calls, this`asked
      ensures Valid() && (st == None ==> !startNew && Left() == old(Left()))
      ensures TurnLogged(cmds, answers, old(asked), asked, curIndex, startNew, !startNew && !HasRun(cmds, curIndex), st)
      ensures st.Some? ==> Responds(cmds, old(Left()), curIndex, Left(), branchIndex, st.value)
    {
      if startNew {
        var status := RespondToStart();
        st := Some(status);
      } else {
        st := RespondToRun();
      }
    }

    /** Starts or runs the current segment, and acts on its answer. */
    method TakeTurn(startNew: bool) returns (answer: Option<SeStatus>, r: Option<EngineRunStatus>, startNext: bool)
      requires Ready(startNew)
      modifies this`curIndex, this`branchIndex, this`conditional, this`reps, this`calls, this`asked, this`chain
      ensures Listed() && curIndex <= |cmds| && (r == None ==> Valid()) && (r == Some(RunEnd) <==> curIndex == |cmds|)
      ensures r == Some(RunEnd) ==> Unlinked(conditional) || cmds[|cmds| - 1].Abort?
      ensures TurnLogged(cmds, answers, old(asked), asked, old(curIndex), startNew, !startNew && !HasRun(cmds, old(curIndex)), answer)
      ensures TurnTaken(cmds, old(Left()), old(curIndex), startNew, Left(), curIndex, branchIndex, answer, r, startNext)
      ensures r == None ==> answer.Some? && chain == Links(old(chain), answer.value)
    {
      answer := Respond(startNew);
      r, startNext := Act(answer);
    }

    /** Acts on the answer of the current segment, if there is one. */
    method Act(answer: Option<SeStatus>) returns (r: Option<EngineRunStatus>, startNext: bool)
      requires Valid()
      requires answer == Some(SeActiveSegmentIndexModified) ==> cmds[curIndex].Repeat? && branchIndex == cmds[curIndex].target
      requires answer.Some? && answer.value in {SeAbortIfConditionAttach, SeAbortIfConditionSkip} ==> cmds[curIndex].Abort?
      modifies this`conditional, this`chain, this`curIndex
      ensures Listed() && curIndex <= |cmds| && (r == None ==> Valid()) && (r == Some(RunEnd) <==> curIndex == |cmds|)
      ensures r == Some(RunEnd) ==> Unlinked(conditional) || cmds[|cmds| - 1].Abort?
      ensures if answer == None then r == Some(RunTerminate) && startNext && curIndex == old(curIndex)
              else Dispatched(cmds, old(curIndex), branchIndex, answer.value, curIndex, r, startNext)
      ensures r == None ==> answer.Some? && chain == Links(old(chain), answer.value)
    {
      if answer == None {
        return Some(RunTerminate), true;
      }
      r, startNext := Dispatch(answer.value);
    }

    /** One round of the loop: a turn, and what it means for the whole run. */
    method Advance(startNew: bool) returns (r: Option<EngineRunStatus>, startNext: bool)
      requires Ready(startNew)
      modifies this`curIndex, this`branchIndex, this`conditional, this`reps, this`calls, this`asked, this`chain
      ensures Listed() && curIndex <= |cmds| && (r == None ==> Ready(startNext)) && (r == Some(RunEnd) <==> curIndex == |cmds|)
      ensures r in {None, Some(RunEnd), Some(RunTerminate)}
      ensures r == None && startNext ==> Measure(cmds, Left(), curIndex) < old(Measure(cmds, Left(), curIndex))
      ensures r == Some(RunEnd) ==> startNext && (Unlinked(conditional) || cmds[|cmds| - 1].Abort?)
      ensures Spendable(startNext && r != Some(RunTerminate)) <= old(Spendable(startNew))
      ensures old(IsOnCourse(startNew)) ==> IsOnCourse(startNext && r != Some(RunTerminate))
      ensures old(Unskipped(asked) && (startNew ==> !Waiting(asked))) ==> Unskipped(asked)
      ensures var stuck := !startNew && cmds[old(curIndex)] == Plain(false);
        && Explained(old(asked), asked, stuck, r == Some(RunTerminate), r == None && !startNext)
        && (stuck ==> curIndex == old(curIndex))
    {
      ghost var stuck := !startNew && !HasRun(cmds, curIndex);
      if !startNew {
        WaitingHasRun(cmds, answers, asked, curIndex);
      }
      var answer;
      answer, r, startNext := TakeTurn(startNew);
      TurnMeans(cmds, answers, old(asked), asked, old(Left()), old(curIndex), startNew, stuck, Left(), curIndex, branchIndex, answer, r, startNext);
      if r == None {
        TurnHangs(cmds, answers, old(asked), asked, old(curIndex), startNew, stuck, branchIndex, answer.value, old(chain), curIndex, r, startNext);
      }
    }

    /**
     * Runs the list until a segment wants to be continued later, or the list ends or fails. This always comes to an
     * end; and if the run has followed the meaning of the list before, it still does.
     */
    method ExecuteSegments(startNewSegment: bool) returns (r: EngineRunStatus)
      requires Ready(startNewSegment)
      modifies this`curIndex, this`branchIndex, this`conditional, this`reps, this`calls, this`asked, this`chain
      ensures Listed() && curIndex <= |cmds| && (r == RunContinue ==> Ready(false)) && (r == RunEnd <==> curIndex == |cmds|)
      ensures r in {RunContinue, RunEnd, RunTerminate}
      ensures r == RunEnd ==> Unlinked(conditional) || cmds[|cmds| - 1].Abort?
      ensures Spendable(r == RunEnd) <= old(Spendable(startNewSegment))
      ensures old(IsOnCourse(startNewSegment)) ==> IsOnCourse(r == RunEnd)
      ensures old(Unskipped(asked) && (startNewSegment ==> !Waiting(asked))) ==> Unskipped(asked)
      ensures Heeds(cmds, asked)
      ensures var stuck := !startNewSegment && cmds[old(curIndex)] == Plain(false);
        && Explained(old(asked), asked, stuck, r == RunTerminate, r == RunContinue)
        && (stuck ==> curIndex == old(curIndex))
    {
      var startNew := startNewSegment;
      while true
        invariant Ready(startNew) && Spendable(startNew) <= old(Spendable(startNewSegment))
        invariant old(IsOnCourse(startNewSegment)) ==> IsOnCourse(startNew)
        invariant old(Unskipped(asked) && (startNewSegment ==> !Waiting(asked))) ==> Unskipped(asked)
        invariant if asked == old(asked) then startNew == startNewSegment && curIndex == old(curIndex)
                  else startNew && (startNewSegment || cmds[old(curIndex)] != Plain(false)) && Explained(old(asked), asked, false, false, false)
        decreases Measure(cmds, Left(), curIndex)
      {
        var outcome: Option<EngineRunStatus>;
        ghost var before := asked;
        outcome, startNew := Advance(startNew);
        if before != old(asked) {
          ExplainedTogether(old(asked), before, asked, outcome == Some(RunTerminate), outcome == None && !startNew);
        }
        if outcome.Some? {
          LegalHeeds(cmds, asked);
          return outcome.value;
        }
        if !startNew {
          LegalHeeds(cmds, asked);
          return RunContinue;
        }
      }
    }

    // ----- Stopping and skipping -----

    /** Stops the current segment, if there is one, and unhooks its conditionals. */
    method StopActiveSegment()
      requires Listed() && (curIndex < |cmds| ==> Valid())
      modifies this`conditional, this`chain
      ensures Listed() && (curIndex < |cmds| ==> Valid() && chain == 0)
      ensures curIndex >= |cmds| ==> conditional == old(conditional)
    {
      if curIndex >= |cmds| {
        return;
      }
      DeleteChainedConditionals(curIndex);
    }

    /** Goes on to the next segment, which is then to be started. */
    method SkipSegment() returns (r: EngineRunStatus)
      requires Listed() && curIndex <= |cmds| && (curIndex < |cmds| ==> Valid())
      modifies this`conditional, this`chain, this`curIndex
      ensures Listed() && curIndex == (if old(curIndex) < |cmds| then old(curIndex) + 1 else |cmds|)
      ensures r == (if curIndex < |cmds| then RunContinue else RunEnd) && (r == RunContinue ==> Valid() && chain == 0)
      ensures Measure(cmds, Left(), curIndex) <= old(Measure(cmds, Left(), curIndex))
      ensures old(curIndex) < |cmds| ==> Measure(cmds, Left(), curIndex) < old(Measure(cmds, Left(), curIndex))
    {
      StopActiveSegment();
      if curIndex >= |cmds| {
        return RunEnd;
      }
      ForwardSpends(cmds, Left(), Left(), curIndex, curIndex + 1, |cmds|);
      ghost var rem := Left();
      curIndex := curIndex + 1;
      assert Left() == rem;
      r := if curIndex >= |cmds| then RunEnd else RunContinue;
    }
  }

  // ----- Whole runs -----

  datatype Input = Tick | Skip

  function Ticks(inputs: seq<Input>): nat {
    if inputs == [] then 0 else Ticks(inputs[..|inputs| - 1]) + if inputs[|inputs| - 1].Tick? then 1 else 0
  }

  /** The last call ended the run; or it asked to be called again, and its segment cannot be. */
  ghost predicate EndsBadly(cmds: seq<Command>, log: seq<Callback>, cur: nat) {
    Fatal(log) || (Waiting(log) && log[|log| - 1].segment == cur < |cmds| && cmds[cur] == Plain(false))
  }

  /** A run is terminated for one of these reasons: an error, a condition without a verdict, or a segment that waits and has no Run. */
  lemma WhyItEnds(cmds: seq<Command>, log: seq<Callback>, cur: nat)
    requires log != []
    ensures var c := log[|log| - 1];
      EndsBadly(cmds, log, cur) <==>
        if c.role == ConditionRole then c.answer != SeAbortIfConditionTrue && c.answer != SeAbortIfConditionFalse
        else if c.answer == SeContinue then c.segment == cur < |cmds| && cmds[cur] == Plain(false)
        else c.answer == SeError || c.answer == SeAbortIfConditionFalse
  {
  }

  /**
   * Drives a list that has just been set up, until the inputs are used up or the list ends or fails. It goes on after a
   * tick only if a segment asks to be called again, and it is terminated only by a bad end.
   */
  method Drive(list: SegmentList, inputs: seq<Input>) returns (r: EngineRunStatus, ghost toStart: bool)
    requires list.Resting(true)
    modifies list
    ensures list.Listed() && list.curIndex <= |list.cmds| && (r == RunContinue ==> list.Resting(toStart))
    ensures r in {RunContinue, RunEnd, RunTerminate} && (r == RunEnd ==> list.curIndex == |list.cmds| && toStart)
    ensures r == RunContinue ==> Waited(list.asked) == old(Waited(list.asked)) + Ticks(inputs)
    ensures r == RunContinue ==> (toStart <==> inputs == [] || inputs[|inputs| - 1].Skip?)
    ensures r == RunTerminate ==> EndsBadly(list.cmds, list.asked, list.curIndex)
    ensures list.Spendable(toStart) <= old(list.Spendable(true))
    ensures |list.Started()| <= old(|list.Started()| + Measure(list.cmds, list.Left(), list.curIndex))
    ensures old(list.IsOnCourse(true)) && Skip !in inputs ==> list.IsOnCourse(toStart)
    ensures old(list.asked) == [] && Skip !in inputs ==> Unskipped(list.asked)
  {
    ghost var ticksOnly, waited, spendable := Skip !in inputs, Waited(list.asked), list.Spendable(true);
    ghost var fromStart := list.asked == [] && ticksOnly;
    r, toStart := RunContinue, true;
    for i := 0 to |inputs|
      invariant list.Resting(toStart) && r == RunContinue && (toStart <==> i == 0 || inputs[i - 1].Skip?)
      invariant Waited(list.asked) == waited + Ticks(inputs[..i]) && list.Spendable(toStart) <= spendable
      invariant old(list.IsOnCourse(true)) && ticksOnly ==> list.IsOnCourse(toStart)
      invariant fromStart ==> Unskipped(list.asked) && (toStart ==> list.asked == [])
    {
      TicksMore(inputs, i);
      if ticksOnly { NoSkip(inputs, i); }
      r := OneInput(list, i == 0 || inputs[i - 1].Skip?, inputs[i]);
      toStart := inputs[i].Skip? || r == RunEnd;
      if r != RunContinue {
        SpendableBoundsStarts(list, toStart);
        return;
      }
    }
    assert inputs[..|inputs|] == inputs;
    SpendableBoundsStarts(list, toStart);
  }

  lemma NoSkip(inputs: seq<Input>, i: nat)
    requires Skip !in inputs && i < |inputs|
    ensures inputs[i].Tick?
  {
    assert inputs[i] in inputs;
  }

  lemma TicksMore(inputs: seq<Input>, i: nat)
    requires i < |inputs|
    ensures Ticks(inputs[..i + 1]) == Ticks(inputs[..i]) + if inputs[i].Tick? then 1 else 0
  {
    assert inputs[..i + 1][..i] == inputs[..i];
  }

  /** A timer tick, or a skip, after which the segment reached is to be started. */
  method OneInput(list: SegmentList, startNew: bool, input: Input) returns (r: EngineRunStatus)
    requires list.Resting(startNew)
    modifies list
    ensures list.Listed() && list.curIndex <= |list.cmds| && (r == RunContinue ==> list.Resting(input.Skip?))
    ensures r in {RunContinue, RunEnd, RunTerminate} && (r == RunEnd <==> list.curIndex == |list.cmds|)
    ensures r == RunContinue ==> Waited(list.asked) == old(Waited(list.asked)) + if input.Tick? then 1 else 0
    ensures r == RunTerminate ==> EndsBadly(list.cmds, list.asked, list.curIndex)
    ensures list.Spendable(input.Skip? || r == RunEnd) <= old(list.Spendable(startNew))
    ensures old(list.IsOnCourse(startNew)) && input.Tick? ==> list.IsOnCourse(r == RunEnd)
    ensures old(Unskipped(list.asked) && (startNew ==> list.asked == [])) && input.Tick? ==> Unskipped(list.asked)
  {
    match input {
      case Tick =>
        r := list.ExecuteSegments(startNew);
      case Skip =>
        r := list.SkipSegment();
    }
  }

  /** A segment that is started but not done with has not spent its own step yet. */
  lemma SpendableBoundsStarts(list: SegmentList, toStart: bool)
    requires list.Listed() && list.curIndex <= |list.cmds| && (list.curIndex == |list.cmds| ==> toStart)
    ensures |list.Started()| <= list.Spendable(toStart)
  {
    ForwardSpends(list.cmds, list.Left(), list.Left(), list.curIndex, |list.cmds|, |list.cmds|);
  }

  function OnlyTicks(n: nat): seq<Input> {
    seq(n, _ => Tick)
  }

  lemma {:induction false} TicksOnly(n: nat)
    ensures Ticks(OnlyTicks(n)) == n && Skip !in OnlyTicks(n)
  {
    if n > 0 {
      TicksOnly(n - 1);
      assert OnlyTicks(n)[..n - 1] == OnlyTicks(n - 1);
    }
  }

  /** What has been started is what the list starts for the decisions made so far, up to some state; at the end, that is its end. */
  ghost predicate StartedByList(cmds: seq<Command>, log: seq<Callback>, ended: bool) {
    exists s {:trigger Runs(cmds, SkipsIn(log), Begin(cmds), StartsIn(log), s)} ::
      Runs(cmds, SkipsIn(log), Begin(cmds), StartsIn(log), s) && (ended ==> s.at == |cmds|)
  }

  lemma CourseStarts(cmds: seq<Command>, log: seq<Callback>, rem: seq<nat>, cur: nat, toStart: bool)
    requires OnCourse(cmds, log, rem, cur, toStart)
    ensures StartedByList(cmds, log, cur == |cmds|)
  {
    var skips, left := SkipsIn(log), LeftIn(log, toStart);
    var now := State(cur, rem, |left|);
    if toStart {
      assert Runs(cmds, skips, Begin(cmds), StartsIn(log), now);
    } else {
      RunSpends(cmds, skips, Begin(cmds), left, now);
      RunOne(cmds, skips, now);
      RunOn(cmds, skips, Begin(cmds), left, now, [cur], After(cmds, skips, now));
    }
  }

  /** In a list that runs through a trace, what has been started is a beginning of the trace; all of it at the end. */
  lemma OnCourseMeans(cmds: seq<Command>, log: seq<Callback>, ended: bool, trace: seq<nat>)
    requires StartedByList(cmds, log, ended) && RunsThrough(cmds, SkipsIn(log), trace)
    ensures StartedOf(log, trace, ended)
  {
    var skips := SkipsIn(log);
    var end :| Runs(cmds, skips, Begin(cmds), trace, end) && end.at == |cmds|;
    var s :| Runs(cmds, skips, Begin(cmds), StartsIn(log), s) && (ended ==> s.at == |cmds|);
    OneRunOnly(cmds, skips, Begin(cmds), StartsIn(log), s, trace, end);
  }

  /**
   * What the log of a program's run says about the program: it has started what its list starts, which is what the program
   * means, unless an abort segment can end an inner loop and one had something left out.
   */
  ghost predicate Accounts(p: Program, log: seq<Callback>, ended: bool) {
    && StartedByList(Flatten(p, 0), log, ended)
    && (NoInnerLoopIsGuarded(p) ==> StartedOf(log, Trace(p, 0, 0, SkipsIn(log)), ended))
    && (SkipsIn(log) == {} ==> StartedOf(log, Unroll(p, 0), ended))
  }

  /** A beginning of the trace has been started; all of it at the end. */
  ghost predicate StartedOf(log: seq<Callback>, trace: seq<nat>, ended: bool) {
    StartsIn(log) <= trace && (ended ==> StartsIn(log) == trace)
  }

  lemma CourseAccounts(p: Program, log: seq<Callback>, rem: seq<nat>, cur: nat, toStart: bool, ended: bool)
    requires WellFormed(p) && OnCourse(Flatten(p, 0), log, rem, cur, toStart) && (ended ==> cur == Size(p))
    ensures Accounts(p, log, ended)
  {
    CourseStarts(Flatten(p, 0), log, rem, cur, toStart);
    if NoInnerLoopIsGuarded(p) {
      FlatMeansProgram(p, SkipsIn(log));
      OnCourseMeans(Flatten(p, 0), log, ended, Trace(p, 0, 0, SkipsIn(log)));
    }
    if SkipsIn(log) == {} {
      FlatRepeatsMeanUnrolledLoops(p);
      OnCourseMeans(Flatten(p, 0), log, ended, Unroll(p, 0));
    }
  }

  /**
   * A program sent as a flat list: the log of calls accounts for what has been started. The list has ended after the given
   * ticks unless a call ended the run, or each tick found a segment that asked to be called again; so if all succeed, one
   * tick starts the whole program unrolled.
   */
  method RunProgram(p: Program, answers: Answers, ticks: nat) returns (list: SegmentList, r: EngineRunStatus)
    requires WellFormed(p) && p != End && WellBehaved(Flatten(p, 0), answers)
    ensures fresh(list) && list.cmds == Flatten(p, 0) && list.answers == answers && list.Logged() && list.curIndex <= |list.cmds|
    ensures r in {RunContinue, RunEnd, RunTerminate} && Accounts(p, list.asked, r == RunEnd)
    ensures Heeds(list.cmds, list.asked) && Unskipped(list.asked)
    ensures r == RunTerminate ==> EndsBadly(list.cmds, list.asked, list.curIndex)
    ensures r == RunContinue ==> Waited(list.asked) == ticks
    ensures ticks > 0 && AllSucceed(answers) ==> r == RunEnd && list.Started() == Unroll(p, 0)
  {
    FlattenIsValid(p);
    SizePositive(p);
    list := new SegmentList(Flatten(p, 0), answers);
    ghost var toStart;
    TicksOnly(ticks);
    r, toStart := Drive(list, OnlyTicks(ticks));
    RunAccounts(list, p, toStart, r);
    if AllSucceed(answers) {
      NothingInTheWay(list.cmds, answers, list.asked);
    }
  }

  /** A program's list that is on its course is accounted for. */
  lemma RunAccounts(list: SegmentList, p: Program, toStart: bool, r: EngineRunStatus)
    requires WellFormed(p) && list.cmds == Flatten(p, 0) && list.IsOnCourse(toStart)
    requires list.curIndex <= |list.cmds| && (r == RunEnd ==> list.curIndex == |list.cmds|)
    ensures Accounts(p, list.asked, r == RunEnd) && Heeds(list.cmds, list.asked)
  {
    CourseAccounts(p, list.asked, list.Left(), list.curIndex, toStart, r == RunEnd);
    LegalHeeds(list.cmds, list.asked);
  }

  // ----- Validation -----

  /** The repeat's own validation of where it jumps to and how often. */
  method RepeatValidate(cmds: seq<Command>, i: nat) returns (valid: bool)
    requires i < |cmds| && cmds[i].Repeat?
    ensures valid <==> cmds[i].target < i && cmds[i].count > 0
    ensures valid <==> ValidAt(cmds, i)
  {
    if cmds[i].target >= |cmds| {
      return false;
    }
    if i <= cmds[i].target {
      return false;
    }
    valid := cmds[i].count != 0;
  }
}
