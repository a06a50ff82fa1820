/** Reassembly of extended messages: one small state machine per arbitration id. */
module CanReassembly {
  import opened Bytes
  import opened CanFraming

  /** The packets received so far of a message of `last` packets; idle when cur is zero. */
  datatype Slot = Slot(cur: nat, last: nat, got: seq<Byte>)

  const IDLE := Slot(0, 0, [])

  datatype Error = BadLength | BadCurPacket | BadLastPacket | OutOfOrder | LastPacketChanged

  /** What a packet makes the receiver do. */
  datatype Reaction = Wait | Deliver(payload: seq<Byte>) | Complain(error: Error)

  /** Every slot that packets can produce. */
  ghost predicate Reachable(s: Slot) {
    s == IDLE || (1 <= s.cur < s.last <= 255 && |s.got| == 6 * s.cur)
  }

  /** One packet at one slot. */
  function Next(s: Slot, p: Packet): Slot {
    if |p| < 2 then IDLE
    else if s.cur == 0 then
      if p[0] == 1 && p[1] > 1 && |p| == 8 then Slot(1, p[1], p[2..]) else s
    else if s.cur + 1 == s.last || p[0] != s.cur + 1 || p[1] != s.last || |p| != 8 then IDLE
    else Slot(s.cur + 1, s.last, s.got + p[2..])
  }

  function React(s: Slot, p: Packet): Reaction {
    if |p| < 2 then Complain(BadLength)
    else if s.cur == 0 then
      if p[0] != 1 then Complain(BadCurPacket)
      else if p[1] == 0 then Complain(BadLastPacket)
      else if p[1] == 1 then Deliver(p[2..])
      else if |p| != 8 then Complain(BadLength)
      else Wait
    else if p[0] != s.cur + 1 then Complain(OutOfOrder)
    else if p[1] != s.last then Complain(LastPacketChanged)
    else if s.cur + 1 == s.last then Deliver(s.got + p[2..])
    else if |p| != 8 then Complain(BadLength)
    else Wait
  }

  // ----- Streams -----

  ghost predicate AllFit(ps: seq<Packet>) {
    forall i :: 0 <= i < |ps| ==> Fits(ps[i])
  }

  function After(s: Slot, ps: seq<Packet>): Slot {
    if ps == [] then s else Next(After(s, ps[..|ps| - 1]), ps[|ps| - 1])
  }

  /** What packet t of the stream makes the receiver do. */
  function ReactionAt(s: Slot, ps: seq<Packet>, t: nat): Reaction
    requires t < |ps|
  {
    React(After(s, ps[..t]), ps[t])
  }

  /** The payloads delivered during a stream, in order. */
  function Deliveries(s: Slot, ps: seq<Packet>): seq<seq<Byte>> {
    if ps == [] then []
    else
      var n := |ps| - 1;
      var r := React(After(s, ps[..n]), ps[n]);
      Deliveries(s, ps[..n]) + (if r.Deliver? then [r.payload] else [])
  }

  function Complaints(s: Slot, ps: seq<Packet>): nat {
    if ps == [] then 0
    else
      var n := |ps| - 1;
      Complaints(s, ps[..n]) + (if React(After(s, ps[..n]), ps[n]).Complain? then 1 else 0)
  }

  lemma {:induction false} AfterAppend(s: Slot, a: seq<Packet>, b: seq<Packet>)
    ensures After(s, a + b) == After(After(s, a), b)
  {
    if b == [] {
      assert a + b == a;
    } else {
      AfterAppend(s, a, b[..|b| - 1]);
      assert (a + b)[..|a + b| - 1] == a + b[..|b| - 1];
    }
  }

  lemma {:induction false} DeliveriesAppend(s: Slot, a: seq<Packet>, b: seq<Packet>)
    ensures Deliveries(s, a + b) == Deliveries(s, a) + Deliveries(After(s, a), b)
  {
    if b == [] {
      assert a + b == a;
    } else {
      var init := b[..|b| - 1];
      DeliveriesAppend(s, a, init);
      AfterAppend(s, a, init);
      assert (a + b)[..|a + b| - 1] == a + init;
    }
  }

  lemma AfterOne(s: Slot, ps: seq<Packet>, p: Packet)
    ensures After(s, ps + [p]) == Next(After(s, ps), p)
    ensures var r := React(After(s, ps), p);
      Deliveries(s, ps + [p]) == Deliveries(s, ps) + (if r.Deliver? then [r.payload] else [])
    ensures Complaints(s, ps + [p]) == Complaints(s, ps) + (if React(After(s, ps), p).Complain? then 1 else 0)
  {
    assert (ps + [p])[..|ps|] == ps;
  }

  // ----- Complaints -----

  /** What is wrong with a packet for a slot that waits for packet cur + 1 of `last`. */
  predicate IsFault(s: Slot, p: Packet, e: Error) {
    match e
    case BadCurPacket => |p| >= 2 && s.cur == 0 && p[0] != 1
    case BadLastPacket => |p| >= 2 && s.cur == 0 && p[0] == 1 && p[1] == 0
    case OutOfOrder => |p| >= 2 && s.cur > 0 && p[0] != s.cur + 1
    case LastPacketChanged => |p| >= 2 && s.cur > 0 && p[0] == s.cur + 1 && p[1] != s.last
    case BadLength =>
      |p| < 2 || (|p| != 8 && p[0] == s.cur + 1 < p[1] && (s.cur > 0 ==> p[1] == s.last))
  }

  /** The packet is the one that was waited for, and not the last of its message. */
  predicate IsTakenIn(s: Slot, p: Packet) {
    |p| == 8 && p[0] == s.cur + 1 < p[1] && (s.cur > 0 ==> p[1] == s.last)
  }

  /** A complaint says what is wrong, and there is one whenever something is. All other packets are taken in or complete a message. */
  lemma ComplaintsAreExact(s: Slot, p: Packet, e: Error)
    requires Reachable(s) && Fits(p)
    ensures React(s, p) == Complain(e) <==> IsFault(s, p, e)
    ensures React(s, p).Wait? <==> IsTakenIn(s, p)
    ensures React(s, p).Deliver? <==> |p| >= 2 && p[0] == s.cur + 1 == p[1] && (s.cur > 0 ==> p[1] == s.last)
  {
  }

  /** A packet that is taken in is the next one of the slot; after any other the slot is idle. */
  lemma SlotMovesOn(s: Slot, p: Packet)
    requires Reachable(s) && Fits(p)
    ensures if IsTakenIn(s, p) then Next(s, p) == Slot(s.cur + 1, p[1], s.got + p[2..]) else Next(s, p) == IDLE
  {
    assert [] + p[0..] == p;
  }

  /** How many packets of a stream are taken in. */
  function TakenIn(s: Slot, ps: seq<Packet>): nat {
    if ps == [] then 0
    else
      var n := |ps| - 1;
      TakenIn(s, ps[..n]) + (if IsTakenIn(After(s, ps[..n]), ps[n]) then 1 else 0)
  }

  /** Every packet is taken in, completes a message or is complained of. */
  lemma {:induction false} EachPacketCounts(ps: seq<Packet>)
    requires AllFit(ps)
    ensures |ps| == TakenIn(IDLE, ps) + |Deliveries(IDLE, ps)| + Complaints(IDLE, ps)
  {
    if ps != [] {
      var n := |ps| - 1;
      EachPacketCounts(ps[..n]);
      SlotSoundness(ps[..n]);
      ComplaintsAreExact(After(IDLE, ps[..n]), ps[n], BadLength);
    }
  }

  // ----- Soundness -----

  lemma NextReachable(s: Slot, p: Packet)
    requires Reachable(s) && Fits(p)
    ensures Reachable(Next(s, p))
  {
  }

  /** The end of the stream that a slot in progress stands for. */
  ghost predicate Remembers(s: Slot, ps: seq<Packet>) {
    s.cur <= |ps| && IsBeginning(ps[|ps| - s.cur..], s.last) && s.got == Body(ps[|ps| - s.cur..])
  }

  lemma {:induction false} BodyAppend(ps: seq<Packet>, p: Packet)
    requires |p| >= 2 && forall i :: 0 <= i < |ps| ==> |ps[i]| >= 2
    ensures Body(ps + [p]) == Body(ps) + p[2..]
  {
    assert (ps + [p])[..|ps|] == ps;
  }

  lemma {:induction false} BeginningGrows(tail: seq<Packet>, p: Packet, n: nat)
    requires IsBeginning(tail, n) && |p| == 8 && p[0] == |tail| + 1 && p[1] == n
    ensures IsBeginning(tail + [p], n) && Body(tail + [p]) == Body(tail) + p[2..]
  {
    BodyAppend(tail, p);
  }

  lemma {:induction false} RememberNext(s: Slot, ps: seq<Packet>, p: Packet)
    requires Reachable(s) && Fits(p) && Remembers(s, ps)
    ensures Remembers(Next(s, p), ps + [p])
  {
    var s', all := Next(s, p), ps + [p];
    if s'.cur == 0 {
      assert all[|all|..] == [];
    } else {
      var tail := if s.cur == 0 then [] else ps[|ps| - s.cur..];
      assert all[|all| - s'.cur..] == tail + [p];
      BeginningGrows(tail, p, s'.last);
      assert s.cur == 0 ==> Body(tail) + p[2..] == p[2..];
    }
  }

  lemma BodyOfOne(p: Packet)
    requires |p| >= 2
    ensures Body([p]) == p[2..]
  {
    var one := [p];
    assert one[..0] == [];
    assert Body(one) == [] + p[2..];
  }

  /** Packets start .. t of the stream are a complete message with this body. */
  ghost predicate MessageFrom(ps: seq<Packet>, start: nat, t: nat, payload: seq<Byte>) {
    start <= t < |ps| && IsMessage(ps[start..t + 1]) && MessageBody(ps[start..t + 1]) == payload
  }

  lemma {:induction false} RememberDelivery(s: Slot, tail: seq<Packet>, p: Packet)
    requires Reachable(s) && Fits(p) && React(s, p).Deliver?
    requires |tail| == s.cur && IsBeginning(tail, s.last) && s.got == Body(tail)
    ensures IsMessage(tail + [p]) && MessageBody(tail + [p]) == React(s, p).payload
  {
    var all := tail + [p];
    assert all[..|tail|] == tail;
    if s.cur == 0 {
      assert all == [p];
      BodyOfOne(p);
    }
  }

  /** From idle, every reachable slot is well formed and holds exactly the bytes of the consecutive packets it stands for. */
  lemma {:induction false} SlotSoundness(ps: seq<Packet>)
    requires AllFit(ps)
    ensures Reachable(After(IDLE, ps)) && Remembers(After(IDLE, ps), ps)
  {
    if ps == [] {
      assert ps[0..] == [];
    } else {
      var n := |ps| - 1;
      SlotSoundness(ps[..n]);
      var s := After(IDLE, ps[..n]);
      NextReachable(s, ps[n]);
      RememberNext(s, ps[..n], ps[n]);
      assert ps[..n] + [ps[n]] == ps;
    }
  }

  /** Every delivery is the body of the consecutive packets 1 .. k of k that end with the packet delivering it. */
  lemma {:induction false} DeliverySoundness(ps: seq<Packet>, t: nat)
    requires AllFit(ps) && t < |ps| && ReactionAt(IDLE, ps, t).Deliver?
    ensures exists start :: MessageFrom(ps, start, t, ReactionAt(IDLE, ps, t).payload)
  {
    var before := ps[..t];
    SlotSoundness(before);
    var s := After(IDLE, before);
    var tail := before[t - s.cur..];
    RememberDelivery(s, tail, ps[t]);
    assert tail + [ps[t]] == ps[t - s.cur..t + 1];
    assert MessageFrom(ps, t - s.cur, t, ReactionAt(IDLE, ps, t).payload);
  }

  /**
   * One run of packets first .. last for each payload: a complete message with that body. The runs come in order and
   * share no packet, and none goes beyond the first n packets.
   */
  ghost predicate ComeFrom(ps: seq<Packet>, payloads: seq<seq<Byte>>, runs: seq<(nat, nat)>, n: nat) {
    && |runs| == |payloads|
    && (forall k :: 0 <= k < |runs| ==> MessageFrom(ps, runs[k].0, runs[k].1, payloads[k]) && runs[k].1 < n)
    && (forall k, k' :: 0 <= k < k' < |runs| ==> runs[k].1 < runs[k'].0)
  }

  lemma {:induction false} MoreToCome(ps: seq<Packet>, p: Packet, payloads: seq<seq<Byte>>, runs: seq<(nat, nat)>, n: nat, n': nat)
    requires ComeFrom(ps, payloads, runs, n) && n <= n'
    ensures ComeFrom(ps + [p], payloads, runs, n')
  {
    forall k | 0 <= k < |runs| ensures MessageFrom(ps + [p], runs[k].0, runs[k].1, payloads[k]) {
      assert MessageFrom(ps, runs[k].0, runs[k].1, payloads[k]);
      assert (ps + [p])[runs[k].0..runs[k].1 + 1] == ps[runs[k].0..runs[k].1 + 1];
    }
  }

  lemma {:induction false} OneMoreRun(
      ps: seq<Packet>, payloads: seq<seq<Byte>>, runs: seq<(nat, nat)>, n: nat, start: nat, t: nat, payload: seq<Byte>)
    requires ComeFrom(ps, payloads, runs, n) && n <= start && MessageFrom(ps, start, t, payload)
    ensures ComeFrom(ps, payloads + [payload], runs + [(start, t)], t + 1)
  {
  }

  lemma {:induction false} DeliveryIsMessage(s: Slot, ps: seq<Packet>, p: Packet)
    requires Reachable(s) && Remembers(s, ps) && Fits(p) && React(s, p).Deliver?
    ensures MessageFrom(ps + [p], |ps| - s.cur, |ps|, React(s, p).payload)
  {
    var start := |ps| - s.cur;
    RememberDelivery(s, ps[start..], p);
    assert ps[start..] + [p] == (ps + [p])[start..|ps| + 1];
  }

  lemma {:induction false} DeliveryComesFrom(s: Slot, ps: seq<Packet>, p: Packet, payloads: seq<seq<Byte>>, runs: seq<(nat, nat)>)
    requires Reachable(s) && Remembers(s, ps) && Fits(p) && React(s, p).Deliver?
    requires ComeFrom(ps, payloads, runs, |ps| - s.cur)
    ensures ComeFrom(ps + [p], payloads + [React(s, p).payload], runs + [(|ps| - s.cur, |ps|)], |ps| + 1)
  {
    var start := |ps| - s.cur;
    DeliveryIsMessage(s, ps, p);
    MoreToCome(ps, p, payloads, runs, start, start);
    OneMoreRun(ps + [p], payloads, runs, start, start, |ps|, React(s, p).payload);
  }

  /** What the slot of an id holds after a stream, and what was delivered: the latter from before the former. */
  ghost predicate Explained(ps: seq<Packet>, s: Slot, payloads: seq<seq<Byte>>, runs: seq<(nat, nat)>) {
    Reachable(s) && Remembers(s, ps) && ComeFrom(ps, payloads, runs, |ps| - s.cur)
  }

  lemma {:induction false} ExplainedNext(s: Slot, ps: seq<Packet>, p: Packet, payloads: seq<seq<Byte>>, runs: seq<(nat, nat)>)
    returns (runs': seq<(nat, nat)>)
    requires Explained(ps, s, payloads, runs) && Fits(p)
    ensures var r := React(s, p);
      Explained(ps + [p], Next(s, p), payloads + (if r.Deliver? then [r.payload] else []), runs')
  {
    NextReachable(s, p);
    RememberNext(s, ps, p);
    if React(s, p).Deliver? {
      DeliveryComesFrom(s, ps, p, payloads, runs);
      runs' := runs + [(|ps| - s.cur, |ps|)];
    } else {
      MoreToCome(ps, p, payloads, runs, |ps| - s.cur, |ps| + 1 - Next(s, p).cur);
      assert payloads + [] == payloads;
      runs' := runs;
    }
  }

  /** All that an id delivers comes from runs of packets of its own, and from none that it still remembers. */
  lemma {:induction false} DeliveriesComeFrom(ps: seq<Packet>) returns (runs: seq<(nat, nat)>)
    requires AllFit(ps)
    ensures Explained(ps, After(IDLE, ps), Deliveries(IDLE, ps), runs)
  {
    if ps == [] {
      assert ps[0..] == [];
      runs := [];
    } else {
      var init, p := ps[..|ps| - 1], ps[|ps| - 1];
      assert ps == init + [p];
      var before := DeliveriesComeFrom(init);
      runs := ExplainedNext(After(IDLE, init), init, p, Deliveries(IDLE, init), before);
      AfterOne(IDLE, init, p);
    }
  }

  // ----- Completeness and resynchronisation -----

  lemma {:induction false} BodyPrefix(ps: seq<Packet>, k: nat)
    requires (forall i :: 0 <= i < |ps| ==> |ps[i]| >= 2) && 0 < k <= |ps|
    ensures Body(ps[..k]) == Body(ps[..k - 1]) + ps[k - 1][2..]
  {
    assert ps[..k][..k - 1] == ps[..k - 1];
  }

  /** An idle slot takes in the packets of a message one after the other, without complaint. */
  lemma {:induction false} IdleTakesBeginning(ps: seq<Packet>, k: nat)
    requires IsMessage(ps) && k < |ps|
    requires forall i :: 0 <= i < |ps| ==> |ps[i]| >= 2
    ensures After(IDLE, ps[..k]) == if k == 0 then IDLE else Slot(k, |ps|, Body(ps[..k]))
    ensures Deliveries(IDLE, ps[..k]) == [] && Complaints(IDLE, ps[..k]) == 0
  {
    if k > 0 {
      MessageSizes(ps);
      IdleTakesBeginning(ps, k - 1);
      BodyPrefix(ps, k);
      assert ps[..k][..k - 1] == ps[..k - 1];
      if k == 1 {
        assert Body(ps[..0]) == [];
      }
    }
  }

  /** The last packet of a complete message makes an idle slot deliver its body and be idle again. */
  lemma LastPacketDelivers(ps: seq<Packet>)
    requires IsMessage(ps)
    ensures ReactionAt(IDLE, ps, |ps| - 1) == Deliver(MessageBody(ps))
    ensures Next(After(IDLE, ps[..|ps| - 1]), ps[|ps| - 1]) == IDLE
  {
    MessageSizes(ps);
    var n := |ps| - 1;
    IdleTakesBeginning(ps, n);
    BodyPrefix(ps, n + 1);
    assert ps[..n + 1] == ps;
    if n == 0 {
      assert ps == [ps[0]];
      BodyOfOne(ps[0]);
    }
  }

  /** An idle slot delivers exactly the body of a complete message, once, without complaint, and is idle again. */
  lemma IdleDelivers(ps: seq<Packet>)
    requires IsMessage(ps)
    ensures After(IDLE, ps) == IDLE && Complaints(IDLE, ps) == 0
    ensures Deliveries(IDLE, ps) == [MessageBody(ps)]
  {
    MessageSizes(ps);
    IdleTakesBeginning(ps, |ps| - 1);
    LastPacketDelivers(ps);
    assert [] + [MessageBody(ps)] == [MessageBody(ps)];
  }

  /** Whatever payload is sent to an idle slot is delivered as it is. */
  lemma RoundTrip(data: seq<Byte>)
    requires |data| <= MAX_PAYLOAD
    ensures After(IDLE, Fragment(data)) == IDLE
    ensures Deliveries(IDLE, Fragment(data)) == [data] && Complaints(IDLE, Fragment(data)) == 0
  {
    FragmentIsMessage(data);
    IdleDelivers(Fragment(data));
  }

  /** A slot that is in the middle of something loses a whole message, but is idle at its end. */
  lemma {:induction false} BusyLoses(s: Slot, ps: seq<Packet>, k: nat)
    requires Reachable(s) && s != IDLE && IsMessage(ps) && 1 <= k <= |ps|
    ensures After(s, ps[..k]) == IDLE && Deliveries(s, ps[..k]) == []
  {
    MessageSizes(ps);
    var n := k - 1;
    assert ps[..k][..n] == ps[..n];
    if n == 0 {
      assert ps[..0] == [];
      assert After(s, ps[..0]) == s;
    } else {
      BusyLoses(s, ps, n);
    }
  }

  /** The messages' packets, back to back. */
  ghost function Stream(messages: seq<seq<Packet>>): seq<Packet> {
    if messages == [] then [] else messages[0] + Stream(messages[1..])
  }

  ghost function Bodies(messages: seq<seq<Packet>>): seq<seq<Byte>>
    requires forall m :: 0 <= m < |messages| ==> IsMessage(messages[m])
  {
    if messages == [] then [] else [MessageBody(messages[0])] + Bodies(messages[1..])
  }

  lemma {:induction false} IdleDeliversAll(messages: seq<seq<Packet>>)
    requires forall m :: 0 <= m < |messages| ==> IsMessage(messages[m])
    ensures After(IDLE, Stream(messages)) == IDLE && Deliveries(IDLE, Stream(messages)) == Bodies(messages)
  {
    if messages != [] {
      IdleDelivers(messages[0]);
      IdleDeliversAll(messages[1..]);
      AfterAppend(IDLE, messages[0], Stream(messages[1..]));
      DeliveriesAppend(IDLE, messages[0], Stream(messages[1..]));
    }
  }

  /** From any reachable slot, every message of a stream but the first is delivered; the first one is iff the slot was idle. */
  lemma Resynchronises(s: Slot, messages: seq<seq<Packet>>)
    requires Reachable(s) && messages != [] && forall m :: 0 <= m < |messages| ==> IsMessage(messages[m])
    ensures After(s, Stream(messages)) == IDLE
    ensures Deliveries(s, Stream(messages)) == if s == IDLE then Bodies(messages) else Bodies(messages[1..])
  {
    if s == IDLE {
      IdleDeliversAll(messages);
    } else {
      var first := messages[0];
      BusyLoses(s, first, |first|);
      assert first[..|first|] == first;
      IdleDeliversAll(messages[1..]);
      AfterAppend(s, first, Stream(messages[1..]));
      DeliveriesAppend(s, first, Stream(messages[1..]));
      assert [] + Bodies(messages[1..]) == Bodies(messages[1..]);
    }
  }

  // ----- Retransmission over a bad channel -----

  /** A slot that has only ever seen packets of one message is idle or holds a beginning of it. */
  ghost predicate HoldsPartOf(s: Slot, ps: seq<Packet>)
    requires IsMessage(ps)
  {
    MessageSizes(ps);
    s == IDLE || (1 <= s.cur < |ps| && s.last == |ps| && s.got == Body(ps[..s.cur]))
  }

  lemma PartStep(s: Slot, ps: seq<Packet>, i: nat)
    requires IsMessage(ps) && i < |ps| && HoldsPartOf(s, ps)
    ensures HoldsPartOf(Next(s, ps[i]), ps)
    ensures React(s, ps[i]).Deliver? ==> React(s, ps[i]).payload == MessageBody(ps)
  {
    MessageSizes(ps);
    assert ps[..|ps|] == ps;
    BodyPrefix(ps, i + 1);
    if i == 0 {
      assert Body(ps[..0]) == [];
    }
  }

  lemma {:induction false} PartAfter(ps: seq<Packet>, stream: seq<Packet>)
    requires IsMessage(ps) && forall t :: 0 <= t < |stream| ==> stream[t] in ps
    ensures HoldsPartOf(After(IDLE, stream), ps)
  {
    if stream != [] {
      var n := |stream| - 1;
      PartAfter(ps, stream[..n]);
      var i :| 0 <= i < |ps| && ps[i] == stream[n];
      PartStep(After(IDLE, stream[..n]), ps, i);
    }
  }

  /**
   * If an idle slot only ever sees packets of one message, lost, repeated and reordered in any way, then whatever it
   * delivers is that message.
   */
  lemma RetryIntegrity(ps: seq<Packet>, stream: seq<Packet>, t: nat)
    requires IsMessage(ps) && (forall u :: 0 <= u < |stream| ==> stream[u] in ps) && t < |stream|
    ensures ReactionAt(IDLE, stream, t).Deliver? ==> ReactionAt(IDLE, stream, t).payload == MessageBody(ps)
  {
    PartAfter(ps, stream[..t]);
    var i :| 0 <= i < |ps| && ps[i] == stream[t];
    PartStep(After(IDLE, stream[..t]), ps, i);
  }

  // ----- Packets of two messages -----

  /** The stream consists of packets of the two messages, lost, repeated, reordered and mixed in any way. */
  ghost predicate Mixes(stream: seq<Packet>, ps: seq<Packet>, qs: seq<Packet>) {
    forall u :: 0 <= u < |stream| ==> stream[u] in ps || stream[u] in qs
  }

  /** Whatever an idle slot delivers on such a stream is one of the two messages. */
  ghost predicate NeverSpliced(ps: seq<Packet>, qs: seq<Packet>)
    requires IsMessage(ps) && IsMessage(qs)
  {
    forall stream: seq<Packet>, t: nat :: t < |stream| && Mixes(stream, ps, qs) && ReactionAt(IDLE, stream, t).Deliver? ==>
      ReactionAt(IDLE, stream, t).payload in {MessageBody(ps), MessageBody(qs)}
  }

  /** The messages have different numbers of packets, or differ in one packet at most. */
  ghost predicate StayApart(ps: seq<Packet>, qs: seq<Packet>) {
    |ps| != |qs| || forall i, j :: 0 <= i < j < |ps| ==> ps[i] == qs[i] || ps[j] == qs[j]
  }

  /** A slot that holds part of the first message takes a packet of the second: it gives up, or holds part of that one too. */
  lemma OtherStep(s: Slot, ps: seq<Packet>, qs: seq<Packet>, j: nat)
    requires IsMessage(ps) && IsMessage(qs) && StayApart(ps, qs) && j < |qs| && HoldsPartOf(s, ps)
    ensures HoldsPartOf(Next(s, qs[j]), ps) || HoldsPartOf(Next(s, qs[j]), qs)
    ensures React(s, qs[j]).Deliver? ==> React(s, qs[j]).payload in {MessageBody(ps), MessageBody(qs)}
  {
    MessageSizes(qs);
    if s == IDLE {
      PartStep(s, qs, j);
    } else if |ps| == |qs| && j == s.cur {
      if ps[j] == qs[j] {
        PartStep(s, ps, j);
      } else {
        assert ps[..j] == qs[..j];
        PartStep(s, qs, j);
      }
    }
  }

  lemma {:induction false} OneOfTwoAfter(ps: seq<Packet>, qs: seq<Packet>, stream: seq<Packet>)
    requires IsMessage(ps) && IsMessage(qs) && StayApart(ps, qs) && Mixes(stream, ps, qs)
    ensures HoldsPartOf(After(IDLE, stream), ps) || HoldsPartOf(After(IDLE, stream), qs)
  {
    if stream != [] {
      var n := |stream| - 1;
      OneOfTwoAfter(ps, qs, stream[..n]);
      OneOfTwoStep(After(IDLE, stream[..n]), ps, qs, stream[n]);
    }
  }

  lemma OneOfTwoStep(s: Slot, ps: seq<Packet>, qs: seq<Packet>, p: Packet)
    requires IsMessage(ps) && IsMessage(qs) && StayApart(ps, qs) && (p in ps || p in qs)
    requires HoldsPartOf(s, ps) || HoldsPartOf(s, qs)
    ensures HoldsPartOf(Next(s, p), ps) || HoldsPartOf(Next(s, p), qs)
    ensures React(s, p).Deliver? ==> React(s, p).payload in {MessageBody(ps), MessageBody(qs)}
  {
    if p in ps {
      var i :| 0 <= i < |ps| && ps[i] == p;
      if HoldsPartOf(s, ps) { PartStep(s, ps, i); } else { OtherStep(s, qs, ps, i); }
    } else {
      var j :| 0 <= j < |qs| && qs[j] == p;
      if HoldsPartOf(s, qs) { PartStep(s, qs, j); } else { OtherStep(s, ps, qs, j); }
    }
  }

  /** Full packets that carry the same bytes under the same numbers are the same. */
  lemma {:induction false} BeginningsCarryDifferentBytes(a: seq<Packet>, b: seq<Packet>, n: nat)
    requires |a| == |b| && IsBeginning(a, n) && IsBeginning(b, n)
    ensures |Body(a)| == 6 * |a| && |Body(b)| == 6 * |b|
    ensures Body(a) == Body(b) ==> a == b
  {
    if a != [] {
      var k := |a| - 1;
      BeginningsCarryDifferentBytes(a[..k], b[..k], n);
      SplitEqual(Body(a[..k]), a[k][2..], Body(b[..k]), b[k][2..]);
      if Body(a) == Body(b) {
        SamePacket(a[k], b[k]);
        assert a == a[..k] + [a[k]] && b == b[..k] + [b[k]];
      }
    }
  }

  lemma SplitEqual(a: seq<Byte>, b: seq<Byte>, c: seq<Byte>, d: seq<Byte>)
    requires |a| == |c|
    ensures a + b == c + d <==> a == c && b == d
  {
    assert (a + b)[..|a|] == a && (a + b)[|a|..] == b;
    assert (c + d)[..|c|] == c && (c + d)[|c|..] == d;
  }

  lemma SamePacket(p: Packet, q: Packet)
    requires |p| >= 2 && |q| >= 2 && p[0] == q[0] && p[1] == q[1] && p[2..] == q[2..]
    ensures p == q
  {
    assert p == [p[0], p[1]] + p[2..] && q == [q[0], q[1]] + q[2..];
  }

  /** Different messages of as many packets carry different payloads. */
  lemma MessagesCarryDifferentBytes(ps: seq<Packet>, qs: seq<Packet>)
    requires IsMessage(ps) && IsMessage(qs) && |ps| == |qs| && MessageBody(ps) == MessageBody(qs)
    ensures ps == qs
  {
    var k := |ps| - 1;
    BeginningsCarryDifferentBytes(ps[..k], qs[..k], |ps|);
    SplitEqual(Body(ps[..k]), ps[k][2..], Body(qs[..k]), qs[k][2..]);
    SamePacket(ps[k], qs[k]);
    assert ps == ps[..k] + [ps[k]] && qs == qs[..k] + [qs[k]];
  }

  /** If the messages differ in packets i and j, losing the rest of the first and the beginning of the second joins them. */
  lemma Splice(ps: seq<Packet>, qs: seq<Packet>, i: nat, j: nat)
    requires IsMessage(ps) && IsMessage(qs) && |ps| == |qs| && i < j < |ps| && ps[i] != qs[i] && ps[j] != qs[j]
    ensures var stream := ps[..j] + qs[j..];
      Mixes(stream, ps, qs) && ReactionAt(IDLE, stream, |ps| - 1).Deliver?
      && ReactionAt(IDLE, stream, |ps| - 1).payload !in {MessageBody(ps), MessageBody(qs)}
  {
    var stream := ps[..j] + qs[j..];
    MessageSizes(ps);
    MessageSizes(qs);
    assert IsMessage(stream);
    LastPacketDelivers(stream);
    assert stream[i] == ps[i] && stream[j] == qs[j];
    if MessageBody(stream) == MessageBody(ps) { MessagesCarryDifferentBytes(stream, ps); }
    if MessageBody(stream) == MessageBody(qs) { MessagesCarryDifferentBytes(stream, qs); }
  }

  /**
   * Two messages on one id: they are never joined, whatever is lost, repeated, reordered and mixed, exactly when they
   * have different numbers of packets or differ in one packet at most. A sender can tell before it sends.
   */
  lemma NeverSplicedIffStayApart(ps: seq<Packet>, qs: seq<Packet>)
    requires IsMessage(ps) && IsMessage(qs)
    ensures NeverSpliced(ps, qs) <==> StayApart(ps, qs)
  {
    if StayApart(ps, qs) {
      forall stream: seq<Packet>, t: nat | t < |stream| && Mixes(stream, ps, qs) && ReactionAt(IDLE, stream, t).Deliver?
        ensures ReactionAt(IDLE, stream, t).payload in {MessageBody(ps), MessageBody(qs)}
      {
        OneOfTwoAfter(ps, qs, stream[..t]);
        OneOfTwoStep(After(IDLE, stream[..t]), ps, qs, stream[t]);
      }
    } else {
      var i, j :| 0 <= i < j < |ps| && ps[i] != qs[i] && ps[j] != qs[j];
      Splice(ps, qs, i, j);
    }
  }

  /** The same in terms of what is sent: payloads stay apart if they need different numbers of packets or differ in one chunk. */
  lemma PayloadsNeverSplicedIffStayApart(a: seq<Byte>, b: seq<Byte>)
    requires |a| <= MAX_PAYLOAD && |b| <= MAX_PAYLOAD
    ensures IsMessage(Fragment(a)) && IsMessage(Fragment(b))
    ensures NeverSpliced(Fragment(a), Fragment(b)) <==>
      (NumPackets(|a|) == NumPackets(|b|) ==>
        forall i, j :: 0 <= i < j < NumPackets(|a|) ==> Chunk(a, i) == Chunk(b, i) || Chunk(a, j) == Chunk(b, j))
  {
    var ps, qs := Fragment(a), Fragment(b);
    FragmentIsMessage(a);
    FragmentIsMessage(b);
    NeverSplicedIffStayApart(ps, qs);
    if |ps| == |qs| {
      forall i | 0 <= i < |ps| ensures ps[i] == qs[i] <==> Chunk(a, i) == Chunk(b, i) {
        assert ps[i][2..] == Chunk(a, i) && qs[i][2..] == Chunk(b, i);
      }
    }
  }

  /** A witness: with packets of two messages, loss alone can deliver a payload that nobody sent. */
  lemma TwoMessagesCanSplice()
    ensures
      var a, b := [1, 1, 1, 1, 1, 1, 1], [2, 2, 2, 2, 2, 2, 2];
      var stream := [Fragment(a)[0], Fragment(b)[1]];
      ReactionAt(IDLE, stream, 1) == Deliver([1, 1, 1, 1, 1, 1, 2])
  {
    var a: seq<Byte>, b: seq<Byte> := [1, 1, 1, 1, 1, 1, 1], [2, 2, 2, 2, 2, 2, 2];
    var p, q := PacketAt(a, 0), PacketAt(b, 1);
    assert p == [1, 2, 1, 1, 1, 1, 1, 1];
    assert q == [2, 2, 2];
    var stream, first := [p, q], [p];
    assert stream[..1] == first && first[..0] == [];
    assert After(IDLE, []) == IDLE;
    assert After(IDLE, [p]) == Slot(1, 2, [1, 1, 1, 1, 1, 1]);
    assert [1, 1, 1, 1, 1, 1] + q[2..] == [1, 1, 1, 1, 1, 1, 2];
  }
}
