/** What a log says about the abort segments that hang on others: who is asked before a segment goes on, and what comes of it. */
module Conditions {
  import opened CallLog
  import opened RepeatSemantics
  import opened SegmentTypes

  // ----- Who hangs on a segment -----

  /** Call m leaves those in place that hang on the segment it is for, or on the next one. */
  ghost predicate Keeps(log: seq<Callback>, m: nat)
    requires m < |log|
  {
    var c := log[m];
    if c.role.ConditionRole? then c.answer == SeAbortIfConditionFalse
    else c.answer in {SeAbortIfConditionAttach, SeContinue} && !(c.role.StartRole? && m > 0 && Waits(log[m - 1]))
  }

  /** Call k was answered "attach", and every call since has left what hangs in place. */
  ghost predicate AttachedAt(log: seq<Callback>, k: nat)
    requires k < |log|
  {
    && !log[k].role.ConditionRole? && log[k].answer == SeAbortIfConditionAttach
    && forall m :: k < m < |log| ==> Keeps(log, m)
  }

  lemma AttachedAtMore(log: seq<Callback>, c: Callback, k: nat)
    requires k < |log|
    ensures AttachedAt(log + [c], k) <==> AttachedAt(log, k) && Keeps(log + [c], |log|)
  {
    var more := log + [c];
    forall m | 0 <= m < |log| ensures Keeps(more, m) <==> Keeps(log, m) {
      assert m > 0 ==> more[m - 1] == log[m - 1];
    }
    if AttachedAt(more, k) {
      forall m | k < m < |log| ensures Keeps(log, m) {
        assert Keeps(more, m);
      }
    }
  }

  /** Exactly those hang on a segment that answered "attach" and have not been taken off since. */
  lemma {:induction false} AttachedIff(log: seq<Callback>, i: nat)
    ensures i in Attached(log) <==> exists k :: 0 <= k < |log| && log[k].segment == i && AttachedAt(log, k)
  {
    if log != [] {
      var n, before, c := |log| - 1, log[..|log| - 1], log[|log| - 1];
      assert log == before + [c];
      AttachedIff(before, i);
      OneMoreAttached(before, c);
      forall k | 0 <= k < n ensures AttachedAt(log, k) <==> AttachedAt(before, k) && Keeps(log, n) {
        AttachedAtMore(before, c, k);
      }
      assert Waiting(before) <==> n > 0 && Waits(log[n - 1]);
      if i in Attached(log) {
        if c.segment == i && AttachedAt(log, n) {
        } else {
          var k :| 0 <= k < n && before[k].segment == i && AttachedAt(before, k);
          assert log[k].segment == i && AttachedAt(log, k);
        }
      }
      if k :| 0 <= k < n && log[k].segment == i && AttachedAt(log, k) {
        assert before[k].segment == i && AttachedAt(before, k);
      }
    }
  }

  // ----- Who is asked -----

  /** What hangs on the segment that waits at call w. */
  ghost function AttachedAfter(log: seq<Callback>, w: nat): seq<nat>
    requires w < |log|
  {
    Attached(log[..w + 1])
  }

  /** The d-th call after call w is that of the d-th abort segment from there down, which hangs on it, and it does not object. */
  ghost predicate AskedInTurn(cmds: seq<Command>, log: seq<Callback>, w: nat, d: nat)
    requires w < |log|
  {
    var attached := AttachedAfter(log, w);
    && d < |attached| && w + 1 + d < |log|
    && var i := attached[|attached| - 1 - d];
    && log[w + 1 + d] == Callback(i, ConditionRole, SeAbortIfConditionFalse)
    && i + 1 + d == log[w].segment && i < |cmds| && cmds[i].Abort?
  }

  /**
   * After call w, whose segment waits, exactly the abort segments that hang on it have been asked, which are those right
   * before it, nearest first, and none has objected; so far n of them.
   */
  ghost predicate AskedSoFar(cmds: seq<Command>, log: seq<Callback>, w: nat, n: nat) {
    && w + n < |log| && Waits(log[w]) && n <= |AttachedAfter(log, w)|
    && forall d: nat {:trigger AskedInTurn(cmds, log, w, d)} :: d < n ==> AskedInTurn(cmds, log, w, d)
  }

  /** Segment log[k] goes on after all that hang on it have been asked since it asked for that, and none has objected. */
  ghost predicate AskedFirst(cmds: seq<Command>, log: seq<Callback>, k: nat)
    requires k < |log|
  {
    exists w :: 0 <= w < k && log[w].segment == log[k].segment
      && AskedSoFar(cmds, log[..k], w, k - 1 - w) && |AttachedAfter(log, w)| == k - 1 - w
  }

  /** No segment goes on before that. */
  ghost predicate Heeds(cmds: seq<Command>, log: seq<Callback>) {
    forall k {:trigger AskedFirst(cmds, log, k)} :: 0 <= k < |log| && log[k].role.RunRole? ==> AskedFirst(cmds, log, k)
  }

  lemma AskedOneMore(cmds: seq<Command>, log: seq<Callback>, w: nat, n: nat, c: Callback)
    requires AskedSoFar(cmds, log, w, n) && w + n + 1 == |log|
    requires IsSilent(c) && n < |AttachedAfter(log, w)| && c.segment == AttachedAfter(log, w)[|AttachedAfter(log, w)| - 1 - n]
    requires c.segment + 1 + n == log[w].segment && c.segment < |cmds| && cmds[c.segment].Abort?
    ensures AskedSoFar(cmds, log + [c], w, n + 1)
  {
    var more := log + [c];
    assert more[..w + 1] == log[..w + 1];
    forall d: nat | d < n + 1 ensures AskedInTurn(cmds, more, w, d) {
      assert d < n ==> AskedInTurn(cmds, log, w, d);
    }
  }

  /** While a segment waits, or conditions have been asked in vain, that is how far the asking has got. */
  lemma {:induction false} AskingInOrder(cmds: seq<Command>, log: seq<Callback>) returns (w: nat)
    requires Legal(cmds, log) && log != [] && (Waiting(log) || IsSilent(log[|log| - 1]))
    ensures w + AskedSince(log) + 1 == |log| && AskedSoFar(cmds, log, w, AskedSince(log))
    ensures AttachedAfter(log, w) == Attached(log) && LastCall(log) == Some(log[w])
  {
    var n, before, c := |log| - 1, log[..|log| - 1], log[|log| - 1];
    assert log == before + [c];
    OneMoreAttached(before, c);
    OneMore(before, c);
    if Waiting(log) {
      w := n;
      assert log[..w + 1] == log;
    } else {
      assert FitsAt(cmds, log, n);
      LegalLess(cmds, log);
      w := AskingInOrder(cmds, before);
      NearestIsLast(cmds, before, w);
      AskedOneMore(cmds, before, w, AskedSince(before), c);
      assert log[..w + 1] == before[..w + 1];
    }
  }

  lemma NearestIsLast(cmds: seq<Command>, log: seq<Callback>, w: nat)
    requires w + AskedSince(log) + 1 == |log| && AskedSoFar(cmds, log, w, AskedSince(log))
    ensures log[|log| - 1].segment + AskedSince(log) == log[w].segment
  {
    var n := AskedSince(log);
    if n > 0 {
      assert AskedInTurn(cmds, log, w, n - 1);
    }
  }

  lemma LegalLess(cmds: seq<Command>, log: seq<Callback>)
    requires log != [] && Legal(cmds, log)
    ensures Legal(cmds, log[..|log| - 1])
  {
    var before := log[..|log| - 1];
    forall k | 0 <= k < |before| ensures FitsAt(cmds, before, k) {
      assert before[..k] == log[..k] && FitsAt(cmds, log, k);
    }
  }

  lemma {:induction false} LegalPart(cmds: seq<Command>, log: seq<Callback>, k: nat)
    requires Legal(cmds, log) && k <= |log|
    ensures Legal(cmds, log[..k])
  {
    forall m | 0 <= m < k ensures FitsAt(cmds, log[..k], m) {
      assert log[..k][..m] == log[..m] && FitsAt(cmds, log, m);
    }
  }

  /** A segment goes on only after the conditions that hang on it have been asked. */
  lemma LegalHeeds(cmds: seq<Command>, log: seq<Callback>)
    requires Legal(cmds, log)
    ensures Heeds(cmds, log)
  {
    forall k | 0 <= k < |log| && log[k].role.RunRole? ensures AskedFirst(cmds, log, k) {
      assert FitsAt(cmds, log, k);
      LegalPart(cmds, log, k);
      var w := AskingInOrder(cmds, log[..k]);
      assert log[..k][..w + 1] == log[..w + 1];
    }
  }

  // ----- What comes of it -----

  /**
   * A segment waits at call w, and the next call that is for no condition is call k. If the segment has not been skipped
   * from outside, it is left aborted, so that call k starts another one, exactly if one of its conditions said "true";
   * otherwise it goes on.
   */
  lemma AbortedIffConditionTrue(cmds: seq<Command>, log: seq<Callback>, w: nat, k: nat)
    requires Legal(cmds, log) && Unskipped(log) && w < k < |log| && Waits(log[w])
    requires !log[k].role.ConditionRole? && forall m :: w < m < k ==> log[m].role.ConditionRole?
    ensures log[k].role.StartRole? <==> exists m :: w < m < k && log[m].answer == SeAbortIfConditionTrue
    ensures log[k].role.RunRole? ==> log[k].segment == log[w].segment
  {
    assert FitsAt(cmds, log, k);
    if log[k].role.StartRole? {
      assert k - 1 > w;
      assert log[k - 1].answer == SeAbortIfConditionTrue;
    } else {
      LegalHeeds(cmds, log);
      assert AskedFirst(cmds, log, k);
      var v :| 0 <= v < k && log[v].segment == log[k].segment
        && AskedSoFar(cmds, log[..k], v, k - 1 - v) && |AttachedAfter(log, v)| == k - 1 - v;
      forall m | v < m < k ensures IsSilent(log[m]) {
        assert AskedInTurn(cmds, log[..k], v, m - v - 1);
      }
      assert v == w;
    }
  }

  /** The answers logged are those of the Start of a segment that is started and of the Run of any other; a repeat is only started. */
  lemma AnswersAreTheirs(cmds: seq<Command>, answers: Answers, log: seq<Callback>, k: nat)
    requires Truthful(cmds, answers, log) && k < |log|
    ensures log[k].segment < |cmds|
    ensures !cmds[log[k].segment].Repeat? ==> log[k].answer == answers(k, log[k].segment, log[k].role == StartRole)
    ensures cmds[log[k].segment].Repeat? ==> log[k].role == StartRole && log[k].answer in {SeSuccess, SeActiveSegmentIndexModified}
  {
    assert IsAnswer(cmds, answers, k, log[k]);
  }

  /** After an error, or a condition without a verdict, nothing is called any more. */
  lemma ErrorsEndTheLog(cmds: seq<Command>, log: seq<Callback>, k: nat)
    requires Legal(cmds, log) && k + 1 < |log|
    ensures log[k].answer != SeError && (log[k].answer == SeAbortIfConditionFalse ==> log[k].role.ConditionRole?)
    ensures log[k].role.ConditionRole? ==> log[k].answer in {SeAbortIfConditionTrue, SeAbortIfConditionFalse}
  {
    assert FitsAt(cmds, log, k + 1);
    assert log[..k + 1][k] == log[k];
  }
}
