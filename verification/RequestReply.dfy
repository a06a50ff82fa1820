/** A caller's request and the engine thread's answer, step by step: one lock, and one semaphore and status slot per message. */
module RequestReply {

  /** The messages whose callers wait for an answer. */
  datatype Kind = Start | Modify | Goto

  /** What lies in the engine's queue: a request of one kind, or a message that nobody waits for. */
  datatype Item = Request(kind: Kind) | Async

  /** How far the thread that holds the engine's lock has got. */
  datatype Caller =
    | Free
    | Locked(thread: nat)
    | Waiting(thread: nat, kind: Kind)
    | Woken(thread: nat, kind: Kind)

  /** How far the engine thread has got with the message it took last. */
  datatype EngineThread = Ready | Handling(item: Item) | StatusWritten(kind: Kind)

  /** The slots, and what has happened: who asked what, what was answered, and who read what. */
  datatype State<S> = State(
    caller: Caller, queue: seq<Item>, engine: EngineThread,
    semaphore: map<Kind, nat>, status: map<Kind, S>,
    asked: seq<(nat, Kind)>, answered: seq<(Kind, S)>, read: seq<(nat, S)>)

  datatype Step<S> =
    | Lock(thread: nat)
    | Send(kind: Kind)
    | Wake
    | Read
    | SendAsync
    | Dequeue
    | WriteStatus(status: S)
    | PostAnswer

  ghost function Semaphore<S>(s: State<S>, k: Kind): nat {
    if k in s.semaphore then s.semaphore[k] else 0
  }

  /** One step; a thread that cannot take it stays where it is. `Read` includes unlocking. */
  ghost function Next<S>(s: State<S>, step: Step<S>): State<S> {
    match step
    case Lock(t) => if s.caller.Free? then s.(caller := Locked(t)) else s
    case Send(k) =>
      if !s.caller.Locked? then s
      else s.(caller := Waiting(s.caller.thread, k), queue := s.queue + [Request(k)], asked := s.asked + [(s.caller.thread, k)])
    case Wake =>
      if !s.caller.Waiting? || Semaphore(s, s.caller.kind) == 0 then s
      else s.(caller := Woken(s.caller.thread, s.caller.kind),
              semaphore := s.semaphore[s.caller.kind := Semaphore(s, s.caller.kind) - 1])
    case Read =>
      if !s.caller.Woken? || s.caller.kind !in s.status then s
      else s.(caller := Free, read := s.read + [(s.caller.thread, s.status[s.caller.kind])])
    case SendAsync => s.(queue := s.queue + [Async])
    case Dequeue =>
      if !s.engine.Ready? || s.queue == [] then s else s.(engine := Handling(s.queue[0]), queue := s.queue[1..])
    case WriteStatus(status) =>
      if !s.engine.Handling? then s
      else if s.engine.item.Async? then s.(engine := Ready)
      else s.(engine := StatusWritten(s.engine.item.kind), status := s.status[s.engine.item.kind := status],
              answered := s.answered + [(s.engine.item.kind, status)])
    case PostAnswer =>
      if !s.engine.StatusWritten? then s
      else s.(engine := Ready, semaphore := s.semaphore[s.engine.kind := Semaphore(s, s.engine.kind) + 1])
  }

  ghost function Run<S>(steps: seq<Step<S>>): State<S> {
    if steps == [] then State(Free, [], Ready, map[], map[], [], [], [])
    else Next(Run(steps[..|steps| - 1]), steps[|steps| - 1])
  }

  /** How many requests of the kind are queued. */
  ghost function Queued(queue: seq<Item>): nat {
    if queue == [] then 0 else Queued(queue[..|queue| - 1]) + (if queue[|queue| - 1].Request? then 1 else 0)
  }

  lemma {:induction false} QueuedFront(queue: seq<Item>)
    requires queue != []
    ensures Queued(queue) == (if queue[0].Request? then 1 else 0) + Queued(queue[1..])
  {
    if |queue| > 1 {
      QueuedFront(queue[..|queue| - 1]);
      assert queue[..|queue| - 1][1..] == queue[1..][..|queue| - 2];
    } else {
      assert queue[..0] == [] == queue[1..];
    }
  }

  ghost function Posted<S>(s: State<S>): nat {
    Semaphore(s, Start) + Semaphore(s, Modify) + Semaphore(s, Goto)
  }

  /** The request under way is in exactly one place: queued, being handled, answered but not posted, or posted. */
  ghost predicate OnePlace<S>(s: State<S>) {
    Queued(s.queue)
    + (if s.engine.Handling? && s.engine.item.Request? then 1 else 0)
    + (if s.engine.StatusWritten? then 1 else 0)
    + Posted(s)
    == if s.caller.Waiting? then 1 else 0
  }

  /** Whatever travels is of the kind that the caller waits for. */
  ghost predicate OwnKind<S>(s: State<S>) {
    && (s.caller.Waiting? ==> forall i :: 0 <= i < |s.queue| && s.queue[i].Request? ==> s.queue[i].kind == s.caller.kind)
    && (s.caller.Waiting? && s.engine.Handling? && s.engine.item.Request? ==> s.engine.item.kind == s.caller.kind)
    && (s.caller.Waiting? && s.engine.StatusWritten? ==> s.engine.kind == s.caller.kind)
    && (s.caller.Waiting? ==> forall k :: Semaphore(s, k) > 0 ==> k == s.caller.kind)
  }

  /** The request under way has been given its answer. */
  ghost predicate HasAnswer<S>(s: State<S>) {
    s.caller.Woken? || s.engine.StatusWritten? || Posted(s) > 0
  }

  /** Requests are answered and answers read one by one, each by the thread that asked and with the answer to its request. */
  ghost predicate Matched<S>(s: State<S>) {
    && |s.asked| == |s.read| + (if s.caller.Waiting? || s.caller.Woken? then 1 else 0)
    && |s.answered| == |s.read| + (if HasAnswer(s) then 1 else 0)
    && (forall i :: 0 <= i < |s.answered| && i < |s.asked| ==> s.answered[i].0 == s.asked[i].1)
    && (forall i :: 0 <= i < |s.read| && i < |s.asked| && i < |s.answered| ==>
        s.read[i].0 == s.asked[i].0 && s.read[i].1 == s.answered[i].1)
    && (s.caller.Waiting? || s.caller.Woken? ==> s.asked != [] && s.asked[|s.asked| - 1] == (s.caller.thread, s.caller.kind))
    && (HasAnswer(s) && (s.caller.Waiting? || s.caller.Woken?) ==>
        && s.answered != [] && s.caller.kind in s.status
        && s.answered[|s.answered| - 1] == (s.caller.kind, s.status[s.caller.kind]))
  }

  ghost predicate Orderly<S>(s: State<S>) {
    OnePlace(s) && OwnKind(s) && Matched(s)
  }

  lemma {:induction false} NoneQueued(queue: seq<Item>)
    requires Queued(queue) == 0
    ensures forall i :: 0 <= i < |queue| ==> queue[i].Async?
  {
    if queue != [] { NoneQueued(queue[..|queue| - 1]); }
  }

  lemma NextOnePlace<S>(s: State<S>, step: Step<S>)
    requires OnePlace(s)
    ensures OnePlace(Next(s, step))
  {
    match step {
      case Send(k) => assert (s.queue + [Request(k)])[..|s.queue|] == s.queue;
      case SendAsync => assert (s.queue + [Async])[..|s.queue|] == s.queue;
      case Dequeue => if s.queue != [] { QueuedFront(s.queue); }
      case Lock(_) =>
      case Wake => if s.caller.Waiting? { assert s.caller.kind.Start? || s.caller.kind.Modify? || s.caller.kind.Goto?; }
      case Read =>
      case WriteStatus(_) =>
      case PostAnswer =>
        if s.engine.StatusWritten? { assert s.engine.kind.Start? || s.engine.kind.Modify? || s.engine.kind.Goto?; }
    }
  }

  lemma NextOwnKind<S>(s: State<S>, step: Step<S>)
    requires OnePlace(s) && OwnKind(s)
    ensures OwnKind(Next(s, step))
  {
    match step {
      case Send(_) => if s.caller.Locked? { NoneQueued(s.queue); }
      case _ =>
    }
  }

  lemma WakeMatched<S>(s: State<S>)
    requires Orderly(s)
    ensures Matched(Next(s, Wake))
  {
  }

  lemma ReadMatched<S>(s: State<S>)
    requires Orderly(s)
    ensures Matched(Next(s, Read))
  {
  }

  lemma SendMatched<S>(s: State<S>, kind: Kind)
    requires Orderly(s)
    ensures Matched(Next(s, Send(kind)))
  {
  }

  lemma WriteStatusMatched<S>(s: State<S>, status: S)
    requires Orderly(s)
    ensures Matched(Next(s, WriteStatus(status)))
  {
  }

  lemma NextMatched<S>(s: State<S>, step: Step<S>)
    requires Orderly(s)
    ensures Matched(Next(s, step))
  {
    match step {
      case Wake => WakeMatched(s);
      case Read => ReadMatched(s);
      case Send(kind) => SendMatched(s, kind);
      case WriteStatus(status) => WriteStatusMatched(s, status);
      case _ =>
    }
  }

  /**
   * Whatever the interleaving of callers, senders of other messages and the engine thread: the i-th read is by the
   * thread that sent the i-th request, its status is the one the engine gave to that request, and no request is
   * answered twice or skipped.
   */
  lemma {:induction false} EachReadsItsOwnReply<S>(steps: seq<Step<S>>, i: nat)
    ensures Orderly(Run(steps))
    ensures var s := Run(steps); |s.read| <= |s.answered| <= |s.asked| <= |s.read| + 1
    ensures var s := Run(steps); i < |s.answered| ==> s.answered[i].0 == s.asked[i].1
    ensures var s := Run(steps); i < |s.read| ==> s.read[i] == (s.asked[i].0, s.answered[i].1)
  {
    if steps == [] {
      assert Queued([]) == 0;
    } else {
      EachReadsItsOwnReply(steps[..|steps| - 1], i);
      var s, step := Run(steps[..|steps| - 1]), steps[|steps| - 1];
      NextOnePlace(s, step);
      NextOwnKind(s, step);
      NextMatched(s, step);
    }
  }

  /** A caller that waits is let on at once, or the engine thread still has something to do; no answer gets lost. */
  lemma NobodyWaitsForever<S>(steps: seq<Step<S>>)
    requires Run(steps).caller.Waiting?
    ensures var s := Run(steps); Semaphore(s, s.caller.kind) > 0 || !s.engine.Ready? || s.queue != []
  {
    var s := Run(steps);
    EachReadsItsOwnReply(steps, 0);
    if s.queue == [] && s.engine.Ready? {
      assert Posted(s) == 1;
      assert Semaphore(s, Start) > 0 || Semaphore(s, Modify) > 0 || Semaphore(s, Goto) > 0;
    }
  }

  lemma RunMore<S>(steps: seq<Step<S>>, step: Step<S>)
    ensures Run(steps + [step]) == Next(Run(steps), step)
  {
    assert (steps + [step])[..|steps|] == steps;
  }

  /** Nobody asks and the engine has nothing to do. */
  ghost predicate AtRest<S>(s: State<S>) {
    s.caller == Free && s.queue == [] && s.engine == Ready
  }

  /** Whatever has happened before, a thread that locks at rest and asks is answered, and reads the status that the engine wrote. */
  lemma RequestIsServed<S>(steps: seq<Step<S>>, thread: nat, kind: Kind, status: S)
    requires AtRest(Run(steps))
    ensures
      var s := Run(steps);
      var s' := Run(steps + [Lock(thread)] + [Send(kind)] + [Dequeue] + [WriteStatus(status)] + [PostAnswer] + [Wake] + [Read]);
      && AtRest(s') && s'.read == s.read + [(thread, status)]
      && s'.asked == s.asked + [(thread, kind)] && s'.answered == s.answered + [(kind, status)]
  {
    var asking := steps + [Lock(thread)] + [Send(kind)];
    RunMore(steps, Lock(thread));
    RunMore(steps + [Lock(thread)], Send(kind));
    RunMore(asking, Dequeue);
    RunMore(asking + [Dequeue], WriteStatus(status));
    RunMore(asking + [Dequeue] + [WriteStatus(status)], PostAnswer);
    RunMore(asking + [Dequeue] + [WriteStatus(status)] + [PostAnswer], Wake);
    RunMore(asking + [Dequeue] + [WriteStatus(status)] + [PostAnswer] + [Wake], Read);
  }
}
