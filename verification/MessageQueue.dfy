/** The message queue: a list behind a lock, and a semaphore that is raised and lowered in separate steps. */
module MessageQueue {

  /** A queued message: its identifier and its optional data. */
  datatype Message<B> = Message(id: int, data: seq<B>)

  // ----- Threads taking their steps in any order -----

  /**
   * The queue between two steps of its threads, with the history of what went through it.
   * The threads in `posting` have pushed and not yet posted; those in `granted` have been let through by the
   * semaphore and not yet popped.
   */
  datatype State<M> = State(
    queued: seq<M>, semaphore: nat, posting: set<nat>, granted: set<nat>,
    pushed: seq<M>, popped: seq<(nat, M)>, poppedEmpty: bool)

  datatype Step<M> = Push(thread: nat, message: M) | Post(thread: nat) | Wait(thread: nat) | Pop(thread: nat)

  predicate Outside<M>(s: State<M>, thread: nat) {
    thread !in s.posting && thread !in s.granted
  }

  predicate Enabled<M>(s: State<M>, step: Step<M>) {
    match step
    case Push(t, _) => Outside(s, t)
    case Post(t) => t in s.posting
    case Wait(t) => Outside(s, t) && s.semaphore > 0
    case Pop(t) => t in s.granted
  }

  /** One step. A thread that cannot take it stays where it is; popping an empty list is remembered. */
  function Next<M>(s: State<M>, step: Step<M>): State<M> {
    if !Enabled(s, step) then s
    else match step
      case Push(t, m) => s.(queued := s.queued + [m], pushed := s.pushed + [m], posting := s.posting + {t})
      case Post(t) => s.(semaphore := s.semaphore + 1, posting := s.posting - {t})
      case Wait(t) => s.(semaphore := s.semaphore - 1, granted := s.granted + {t})
      case Pop(t) =>
        if |s.queued| == 0 then s.(poppedEmpty := true, granted := s.granted - {t})
        else s.(queued := s.queued[1..], popped := s.popped + [(t, s.queued[0])], granted := s.granted - {t})
  }

  ghost function Empty<M>(): State<M> {
    State([], 0, {}, {}, [], [], false)
  }

  ghost function Run<M>(steps: seq<Step<M>>): State<M> {
    if steps == [] then Empty() else Next(Run(steps[..|steps| - 1]), steps[|steps| - 1])
  }

  ghost function Contents<M>(popped: seq<(nat, M)>): (ms: seq<M>)
    ensures |ms| == |popped|
    ensures forall i :: 0 <= i < |ms| ==> ms[i] == popped[i].1
  {
    seq(|popped|, i requires 0 <= i < |popped| => popped[i].1)
  }

  /** Every queued message is counted once: by the semaphore, by a thread about to post it, or by one about to pop it. */
  ghost predicate Counted<M>(s: State<M>) {
    && !s.poppedEmpty
    && s.posting !! s.granted
    && |s.queued| == s.semaphore + |s.posting| + |s.granted|
    && Contents(s.popped) + s.queued == s.pushed
  }

  lemma PopCounted<M>(s: State<M>, t: nat)
    requires Counted(s) && t in s.granted
    ensures s.queued != [] && Counted(Next(s, Pop(t)))
  {
    assert s.granted == (s.granted - {t}) + {t};
    var m := s.queued[0];
    assert s.queued == [m] + s.queued[1..];
    assert Contents(s.popped + [(t, m)]) == Contents(s.popped) + [m];
    assert Contents(s.popped) + s.queued == (Contents(s.popped) + [m]) + s.queued[1..];
  }

  lemma NextCounted<M>(s: State<M>, step: Step<M>)
    requires Counted(s)
    ensures Counted(Next(s, step))
  {
    if Enabled(s, step) {
      match step {
        case Push(t, m) => assert Contents(s.popped) + (s.queued + [m]) == (Contents(s.popped) + s.queued) + [m];
        case Post(t) => assert s.posting == (s.posting - {t}) + {t};
        case Wait(t) =>
        case Pop(t) => PopCounted(s, t);
      }
    }
  }

  /** Whatever the interleaving: nobody pops an empty list, and the messages come out complete and in order. */
  lemma {:induction false} NothingLostOrReordered<M>(steps: seq<Step<M>>)
    ensures Counted(Run(steps))
    ensures !Run(steps).poppedEmpty
    ensures Contents(Run(steps).popped) + Run(steps).queued == Run(steps).pushed
  {
    if steps == [] {
      assert Contents<M>([]) + [] == [];
    } else {
      NothingLostOrReordered(steps[..|steps| - 1]);
      NextCounted(Run(steps[..|steps| - 1]), steps[|steps| - 1]);
    }
  }

  /** While no thread is between its two steps, a consumer is let through exactly when there is a message for it. */
  lemma AtRestWaitsIffEmpty<M>(steps: seq<Step<M>>, thread: nat)
    requires var s := Run(steps); s.posting == {} && s.granted == {}
    ensures Enabled(Run(steps), Wait(thread)) <==> Run(steps).queued != []
  {
    NothingLostOrReordered(steps);
  }

  /** No message is stranded: if one is queued, some thread can go on or a new consumer is let through. */
  lemma NoMessageIsStranded<M>(steps: seq<Step<M>>, newcomer: nat)
    requires Run(steps).queued != [] && Outside(Run(steps), newcomer)
    ensures Enabled(Run(steps), Wait(newcomer)) || exists t :: Enabled(Run(steps), Post(t)) || Enabled(Run(steps), Pop(t))
  {
    var s := Run(steps);
    NothingLostOrReordered(steps);
    if s.semaphore == 0 {
      if s.posting != {} {
        var t :| t in s.posting;
        assert Enabled(s, Post(t));
      } else {
        assert s.granted != {};
        var t :| t in s.granted;
        assert Enabled(s, Pop(t));
      }
    }
  }

  lemma RunMore<M>(steps: seq<Step<M>>, step: Step<M>)
    ensures Run(steps + [step]) == Next(Run(steps), step)
  {
    assert (steps + [step])[..|steps|] == steps;
  }

  /** Whatever has happened before: if nothing is under way, a message that one thread queues is the one that another gets. */
  lemma MessageGetsThrough<M>(steps: seq<Step<M>>, producer: nat, consumer: nat, message: M)
    requires var s := Run(steps); s.queued == [] && Outside(s, producer) && Outside(s, consumer)
    ensures var s' := Run(steps + [Push(producer, message)] + [Post(producer)] + [Wait(consumer)] + [Pop(consumer)]);
      s'.popped == Run(steps).popped + [(consumer, message)] && s'.queued == []
  {
    var pushed := steps + [Push(producer, message)];
    RunMore(steps, Push(producer, message));
    RunMore(pushed, Post(producer));
    RunMore(pushed + [Post(producer)], Wait(consumer));
    RunMore(pushed + [Post(producer)] + [Wait(consumer)], Pop(consumer));
  }

  // ----- The timed wait -----

  /** The state after more steps. */
  function RunFrom<M>(s: State<M>, steps: seq<Step<M>>): State<M> {
    if |steps| == 0 then s else Next(RunFrom(s, steps[..|steps| - 1]), steps[|steps| - 1])
  }

  lemma {:induction false} RunFromCounted<M>(s: State<M>, steps: seq<Step<M>>)
    requires Counted(s)
    ensures Counted(RunFrom(s, steps))
  {
    if |steps| > 0 {
      RunFromCounted(s, steps[..|steps| - 1]);
      NextCounted(RunFrom(s, steps[..|steps| - 1]), steps[|steps| - 1]);
    }
  }

  /** A thread that none of the steps names stays where it is. */
  lemma {:induction false} OthersOnly<M>(s: State<M>, steps: seq<Step<M>>, me: nat)
    requires Outside(s, me) && forall i :: 0 <= i < |steps| ==> steps[i].thread != me
    ensures Outside(RunFrom(s, steps), me)
  {
    if |steps| > 0 {
      OthersOnly(s, steps[..|steps| - 1], me);
    }
  }

  /** How long the next nap is when `timeout` is left. */
  function Nap(timeout: nat): (n: nat)
    ensures n <= timeout && n <= 20 && (timeout > 0 ==> n > 0)
  {
    if timeout >= 20 then 20 else if timeout >= 10 then 10 else if timeout >= 5 then 5 else timeout
  }

  /** The naps of a wait during which nothing arrives. */
  function Naps(timeout: nat): seq<nat> {
    if timeout == 0 then [] else [Nap(timeout)] + Naps(timeout - Nap(timeout))
  }

  function Sum(naps: seq<nat>): nat {
    if naps == [] then 0 else naps[0] + Sum(naps[1..])
  }

  /** The naps add up to the timeout, none is longer than 20, and none is empty. */
  lemma {:induction false} NapsFillTimeout(timeout: nat)
    ensures Sum(Naps(timeout)) == timeout
    ensures forall i :: 0 <= i < |Naps(timeout)| ==> 0 < Naps(timeout)[i] <= 20
  {
    if timeout > 0 {
      var rest := timeout - Nap(timeout);
      NapsFillTimeout(rest);
      assert Naps(timeout)[1..] == Naps(rest);
    }
  }

  function Same(n: nat, nap: nat): seq<nat> {
    seq(n, _ => nap)
  }

  /** The naps of a wait that is shorter than 20. */
  function LastNaps(tens: nat, fives: nat, over: nat): seq<nat> {
    Same(tens, 10) + Same(fives, 5) + (if over > 0 then [over] else [])
  }

  lemma LastNapsAre(tens: nat, fives: nat, over: nat)
    requires tens < 2 && fives < 2 && over < 5
    ensures Naps(10 * tens + 5 * fives + over) == LastNaps(tens, fives, over)
  {
    assert Naps(over) == if over > 0 then [over] else [];
    assert Naps(5 * fives + over) == Same(fives, 5) + Naps(over);
    assert Naps(10 * tens + 5 * fives + over) == Same(tens, 10) + Naps(5 * fives + over);
  }

  /** A wait for nothing naps for 20 as often as that fits, then for 10 and for 5 if they do, and for what is over. */
  lemma {:induction false} NapsAre(twenties: nat, tens: nat, fives: nat, over: nat)
    requires tens < 2 && fives < 2 && over < 5
    ensures Naps(20 * twenties + 10 * tens + 5 * fives + over) == Same(twenties, 20) + LastNaps(tens, fives, over)
  {
    if twenties == 0 {
      LastNapsAre(tens, fives, over);
    } else {
      NapsAre(twenties - 1, tens, fives, over);
      assert Same(twenties, 20) == [20] + Same(twenties - 1, 20);
    }
  }

  /** The state after k naps, during which the other threads, producers and consumers, take the given steps. */
  function AfterNaps<M>(s: State<M>, others: nat -> seq<Step<M>>, k: nat): State<M> {
    if k == 0 then s else RunFrom(AfterNaps(s, others, k - 1), others(k - 1))
  }

  lemma {:induction false} NapsKeepMeOutside<M>(s: State<M>, others: nat -> seq<Step<M>>, me: nat, k: nat)
    requires Counted(s) && Outside(s, me) && forall n: nat, i: nat :: i < |others(n)| ==> others(n)[i].thread != me
    ensures Counted(AfterNaps(s, others, k)) && Outside(AfterNaps(s, others, k), me)
  {
    if k > 0 {
      NapsKeepMeOutside(s, others, me, k - 1);
      RunFromCounted(AfterNaps(s, others, k - 1), others(k - 1));
      OthersOnly(AfterNaps(s, others, k - 1), others(k - 1), me);
    }
  }

  /**
   * The timed wait of one consumer among threads that push, post, wait and pop at will. Whoever else takes the messages:
   * it gives up only after sleeping exactly the timeout and being turned away at every look, and has changed nothing
   * then; otherwise it is let through at the first look at which the semaphore allows it, and a message is there for it.
   */
  method WaitAmongOthers<M>(s: State<M>, me: nat, timeout: nat, others: nat -> seq<Step<M>>)
    returns (granted: bool, naps: nat, s': State<M>)
    requires Counted(s) && Outside(s, me) && forall n: nat, i: nat :: i < |others(n)| ==> others(n)[i].thread != me
    ensures naps <= |Naps(timeout)| && forall k :: 0 <= k < naps ==> !Enabled(AfterNaps(s, others, k), Wait(me))
    ensures granted <==> Enabled(AfterNaps(s, others, naps), Wait(me))
    ensures !granted ==> Sum(Naps(timeout)[..naps]) == timeout && s' == AfterNaps(s, others, naps)
    ensures granted ==> s' == Next(AfterNaps(s, others, naps), Wait(me)) && Counted(s') && |s'.queued| > 0
    ensures granted ==> Next(s', Pop(me)).popped == s'.popped + [(me, s'.queued[0])]
  {
    var left := timeout;
    naps, s', granted := 0, s, false;
    while left > 0 && !Enabled(s', Wait(me))
      invariant 0 <= left && s' == AfterNaps(s, others, naps)
      invariant naps <= |Naps(timeout)| && Naps(left) == Naps(timeout)[naps..]
      invariant forall k :: 0 <= k < naps ==> !Enabled(AfterNaps(s, others, k), Wait(me))
    {
      assert Naps(left)[1..] == Naps(timeout)[naps + 1..];
      left := left - Nap(left);
      s' := RunFrom(s', others(naps));
      naps := naps + 1;
    }
    NapsKeepMeOutside(s, others, me, naps);
    granted := Enabled(s', Wait(me));
    if granted {
      NextCounted(s', Wait(me));
      s' := Next(s', Wait(me));
      PopCounted(s', me);
    } else {
      assert Naps(timeout)[..naps] == Naps(timeout);
      NapsFillTimeout(timeout);
    }
  }

  /** What the other threads queue during the first k naps. */
  function Arrived<B>(arrivals: nat -> seq<Message<B>>, k: nat): seq<Message<B>> {
    if k == 0 then [] else Arrived(arrivals, k - 1) + arrivals(k - 1)
  }

  /** Before a look: `naps` naps are over, `left` of the timeout is not, and the earlier looks found nothing. */
  ghost predicate Waiting<B>(
    timeout: nat, arrivals: nat -> seq<Message<B>>, before: seq<Message<B>>, now: seq<Message<B>>, naps: nat, left: nat)
  {
    && naps <= |Naps(timeout)| && Naps(left) == Naps(timeout)[naps..]
    && now == before + Arrived(arrivals, naps)
    && (naps > 0 ==> before + Arrived(arrivals, naps - 1) == [])
  }

  lemma NapAgain<B>(
      timeout: nat, arrivals: nat -> seq<Message<B>>, before: seq<Message<B>>, naps: nat, left: nat)
    requires left > 0 && Waiting(timeout, arrivals, before, [], naps, left)
    ensures Waiting(timeout, arrivals, before, arrivals(naps), naps + 1, left - Nap(left))
  {
    assert Naps(left)[1..] == Naps(timeout)[naps + 1..];
  }

  lemma WaitedOut<B>(timeout: nat, arrivals: nat -> seq<Message<B>>, before: seq<Message<B>>, now: seq<Message<B>>, naps: nat)
    requires Waiting(timeout, arrivals, before, now, naps, 0)
    ensures Waited(timeout, arrivals, before, now, now != [], naps)
  {
    assert Naps(timeout)[..naps] == Naps(timeout);
    NapsFillTimeout(timeout);
  }

  /**
   * A wait of `naps` naps, during the k-th of which the other threads queue arrivals(k). It gives up only after
   * sleeping exactly the timeout with nothing queued at any look, and otherwise stops at the first look that finds
   * something.
   */
  ghost predicate Waited<B>(
    timeout: nat, arrivals: nat -> seq<Message<B>>, before: seq<Message<B>>, after: seq<Message<B>>, granted: bool, naps: nat)
  {
    && naps <= |Naps(timeout)|
    && after == before + Arrived(arrivals, naps)
    && (granted <==> after != [])
    && (naps > 0 ==> before + Arrived(arrivals, naps - 1) == [])
    && (!granted ==> Sum(Naps(timeout)[..naps]) == timeout)
  }

  class Queue<B> {
    var messages: seq<Message<B>>
    var semaphore: nat

    ghost predicate Valid()
      reads this
    {
      semaphore == |messages|
    }

    constructor ()
      ensures Valid() && messages == []
    {
      messages, semaphore := [], 0;
    }

    method QueueMessage(id: int, data: seq<B>)
      requires Valid()
      modifies this
      ensures Valid() && messages == old(messages) + [Message(id, data)]
    {
      messages := messages + [Message(id, data)];
      semaphore := semaphore + 1;
    }

    /** Waits for the semaphore, for at most `timeout`, napping between two looks at it. */
    method TimedWait(timeout: nat, arrivals: nat -> seq<Message<B>>) returns (granted: bool, naps: nat)
      requires Valid()
      modifies this
      ensures Waited(timeout, arrivals, old(messages), messages, granted, naps)
      ensures semaphore == |messages| - (if granted then 1 else 0)
    {
      var left := timeout;
      naps, granted := 0, false;
      while left > 0
        invariant Valid() && !granted && 0 <= left
        invariant Waiting(timeout, arrivals, old(messages), messages, naps, left)
      {
        if semaphore > 0 {
          semaphore, granted := semaphore - 1, true;
          return;
        }
        NapAgain(timeout, arrivals, old(messages), naps, left);
        left := left - Nap(left);
        var news := arrivals(naps);
        messages, semaphore := messages + news, semaphore + |news|;
        naps := naps + 1;
      }
      WaitedOut(timeout, arrivals, old(messages), messages, naps);
      if semaphore > 0 {
        semaphore, granted := semaphore - 1, true;
      }
    }

    /** Takes the oldest message, waiting for at most `timeout`; the answer is false iff nothing came in that time. */
    method DequeueMessage(timeout: nat, arrivals: nat -> seq<Message<B>>, buffer: array<B>, bufferLength: int)
      returns (taken: bool, id: int, length: int, naps: nat)
      requires Valid() && bufferLength <= buffer.Length
      modifies this, buffer
      ensures Valid()
      ensures Waited(timeout, arrivals, old(messages), old(messages) + Arrived(arrivals, naps), taken, naps)
      ensures !taken ==> messages == [] && buffer[..] == old(buffer[..])
      ensures taken ==>
        var all := old(messages) + Arrived(arrivals, naps);
        messages == all[1..] && id == all[0].id && IsCopy(all[0].data, bufferLength, old(buffer[..]), buffer[..], length)
    {
      taken, naps := TimedWait(timeout, arrivals);
      id, length := 0, bufferLength;
      if taken {
        var message := messages[0];
        messages := messages[1..];
        id := message.id;
        length := CopyOut(message.data, buffer, bufferLength);
      }
    }
  }

  /** What a receiver finds in its buffer: as much of the data as fits, the rest of the buffer as it was. */
  ghost predicate IsCopy<B>(data: seq<B>, bufferLength: int, before: seq<B>, after: seq<B>, length: int) {
    && length == (if bufferLength < 0 then 0 else if |data| > bufferLength then bufferLength else |data|)
    && length <= |data| && |after| == |before| && length <= |before|
    && after == data[..length] + before[length..]
  }

  method CopyOut<B>(data: seq<B>, buffer: array<B>, bufferLength: int) returns (length: int)
    requires bufferLength <= buffer.Length
    modifies buffer
    ensures IsCopy(data, bufferLength, old(buffer[..]), buffer[..], length)
  {
    length := if bufferLength < 0 then 0 else bufferLength;
    var maxLength;
    if |data| > length {
      maxLength := length;
    } else {
      maxLength := |data|;
      length := maxLength;
    }
    for i := 0 to maxLength
      invariant forall k :: 0 <= k < i ==> buffer[k] == data[k]
      invariant forall k :: i <= k < buffer.Length ==> buffer[k] == old(buffer[k])
    {
      buffer[i] := data[i];
    }
  }
}
