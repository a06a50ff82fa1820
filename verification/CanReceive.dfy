/** The receiving end: a growing list of reassembly buffers, one per arbitration id. */
module CanReceive {
  import opened Bytes
  import opened CanFraming
  import opened CanReassembly

  datatype Kind = ExtAnnouncement | ExtCommand

  /** An arbitration id, as its fields: priority, message type, message, source and destination. */
  datatype CanId = CanId(priority: nat, kind: Kind, mid: nat, sid: nat, did: nat)

  datatype Message = Message(id: CanId, data: Packet)

  /** What the application and the bus get to see. */
  datatype Event = Delivered(id: CanId, payload: seq<Byte>) | Complained(id: CanId, error: Error) | Acked(id: CanId) | Naked(id: CanId)

  // ----- The receiver as a value -----

  function SlotFor(slots: map<CanId, Slot>, id: CanId): Slot {
    if id in slots then slots[id] else IDLE
  }

  /** A command for somebody else is dropped before it is even looked at. */
  function Ignored(own: nat, m: Message): bool {
    m.id.kind == ExtCommand && m.id.did != own
  }

  function SlotsAfter(own: nat, slots: map<CanId, Slot>, m: Message): map<CanId, Slot> {
    if Ignored(own, m) then slots else slots[m.id := Next(SlotFor(slots, m.id), m.data)]
  }

  /** What a reaction makes visible; `accept` is the application's answer to a delivery. */
  function Visible(id: CanId, reaction: Reaction, accept: bool): seq<Event> {
    match reaction
    case Wait => []
    case Complain(e) => [Complained(id, e)]
    case Deliver(w) =>
      if id.kind == ExtAnnouncement then [Delivered(id, w)]
      else [Delivered(id, w), if accept then Acked(id) else Naked(id)]
  }

  /** What one message makes visible. */
  function EventsOf(own: nat, slots: map<CanId, Slot>, m: Message, accept: bool): seq<Event> {
    if Ignored(own, m) then [] else Visible(m.id, React(SlotFor(slots, m.id), m.data), accept)
  }

  function AllSlots(own: nat, ms: seq<Message>): map<CanId, Slot> {
    if ms == [] then map[] else SlotsAfter(own, AllSlots(own, ms[..|ms| - 1]), ms[|ms| - 1])
  }

  /** Everything visible after a stream of messages, when the application answers `accepts[t]` at message t. */
  function AllEvents(own: nat, ms: seq<Message>, accepts: seq<bool>): seq<Event>
    requires |accepts| == |ms|
  {
    if ms == [] then []
    else
      var n := |ms| - 1;
      AllEvents(own, ms[..n], accepts[..n]) + EventsOf(own, AllSlots(own, ms[..n]), ms[n], accepts[n])
  }

  /** The packets of one id, alone. */
  function Only(ms: seq<Message>, id: CanId): seq<Packet> {
    if ms == [] then [] else Only(ms[..|ms| - 1], id) + (if ms[|ms| - 1].id == id then [ms[|ms| - 1].data] else [])
  }

  function DeliveredFor(events: seq<Event>, id: CanId): seq<seq<Byte>> {
    if events == [] then []
    else
      var n := |events| - 1;
      DeliveredFor(events[..n], id) + (if events[n].Delivered? && events[n].id == id then [events[n].payload] else [])
  }

  /** How many deliveries of commands, minus how many answers to them, there were. */
  function Unanswered(events: seq<Event>): int {
    if events == [] then 0
    else
      var n := |events| - 1;
      Unanswered(events[..n]) + match events[n] {
        case Delivered(id, _) => if id.kind == ExtCommand then 1 else 0
        case Acked(_) => -1
        case Naked(_) => -1
        case Complained(_, _) => 0
      }
  }

  lemma {:induction false} EventsAppend(a: seq<Event>, b: seq<Event>, id: CanId)
    ensures DeliveredFor(a + b, id) == DeliveredFor(a, id) + DeliveredFor(b, id)
    ensures Unanswered(a + b) == Unanswered(a) + Unanswered(b)
  {
    if b == [] {
      assert a + b == a;
    } else {
      EventsAppend(a, b[..|b| - 1], id);
      assert (a + b)[..|a + b| - 1] == a + b[..|b| - 1];
    }
  }

  lemma SingleEvent(e: Event, id: CanId)
    ensures DeliveredFor([e], id) == if e.Delivered? && e.id == id then [e.payload] else []
    ensures Unanswered([e]) == match e {
      case Delivered(i, _) => if i.kind == ExtCommand then 1 else 0
      case Acked(_) => -1
      case Naked(_) => -1
      case Complained(_, _) => 0
    }
  {
    var es := [e];
    assert es[..0] == [];
    assert DeliveredFor(es[..0], id) == [] && Unanswered(es[..0]) == 0;
  }

  lemma EventsOfOne(own: nat, slots: map<CanId, Slot>, m: Message, accept: bool, id: CanId)
    ensures var r := React(SlotFor(slots, m.id), m.data);
      DeliveredFor(EventsOf(own, slots, m, accept), id) == if !Ignored(own, m) && m.id == id && r.Deliver? then [r.payload] else []
    ensures Unanswered(EventsOf(own, slots, m, accept)) == 0
  {
    var es := EventsOf(own, slots, m, accept);
    if |es| == 2 {
      assert es == [es[0]] + [es[1]];
      SingleEvent(es[0], id);
      SingleEvent(es[1], id);
      EventsAppend([es[0]], [es[1]], id);
    } else if |es| == 1 {
      assert es == [es[0]];
      SingleEvent(es[0], id);
    }
  }

  /** The packets of an id that this receiver looks at: none of a command for another address. */
  function Mine(own: nat, ms: seq<Message>, id: CanId): seq<Packet> {
    if id.kind == ExtCommand && id.did != own then [] else Only(ms, id)
  }

  lemma MineStep(own: nat, ms: seq<Message>, m: Message, id: CanId)
    ensures Mine(own, ms + [m], id) == if m.id == id && !Ignored(own, m) then Mine(own, ms, id) + [m.data] else Mine(own, ms, id)
  {
    assert (ms + [m])[..|ms|] == ms;
  }

  lemma {:induction false} SlotsAreIndependent(own: nat, ms: seq<Message>, id: CanId)
    ensures SlotFor(AllSlots(own, ms), id) == After(IDLE, Mine(own, ms, id))
  {
    if ms != [] {
      var init, m := ms[..|ms| - 1], ms[|ms| - 1];
      SlotsAreIndependent(own, init, id);
      assert ms == init + [m];
      MineStep(own, init, m, id);
      AfterOne(IDLE, Mine(own, init, id), m.data);
    }
  }

  /**
   * Whatever else is on the bus, an id's slot and deliveries are those of its own packets alone (and a command for
   * another address has none at all). Every delivered command is answered.
   */
  lemma {:induction false} IdsAreIndependent(own: nat, ms: seq<Message>, accepts: seq<bool>, id: CanId)
    requires |accepts| == |ms|
    ensures SlotFor(AllSlots(own, ms), id) == After(IDLE, Mine(own, ms, id))
    ensures DeliveredFor(AllEvents(own, ms, accepts), id) == Deliveries(IDLE, Mine(own, ms, id))
    ensures Unanswered(AllEvents(own, ms, accepts)) == 0
  {
    SlotsAreIndependent(own, ms, id);
    if ms == [] {
      assert AllEvents(own, ms, accepts) == [];
    } else {
      var n := |ms| - 1;
      var init, answers := ms[..n], accepts[..n];
      assert ms == init + [ms[n]] && accepts == answers + [accepts[n]];
      assert DeliveredFor(AllEvents(own, init, answers), id) == Deliveries(IDLE, Mine(own, init, id))
          && Unanswered(AllEvents(own, init, answers)) == 0 by {
        IdsAreIndependent(own, init, answers, id);
      }
      EventsStep(own, init, answers, ms[n], accepts[n], id);
    }
  }

  lemma {:induction false} OnlyFit(ms: seq<Message>, id: CanId)
    requires forall i :: 0 <= i < |ms| ==> Fits(ms[i].data)
    ensures AllFit(Only(ms, id))
  {
    if ms != [] { OnlyFit(ms[..|ms| - 1], id); }
  }

  /**
   * Whatever else is on the bus, all that the application is delivered for an id comes from complete messages with that
   * id: consecutive packets 1 .. k of k among those of the id, the messages in order and without a packet in common.
   */
  lemma DeliveredWasSent(own: nat, ms: seq<Message>, accepts: seq<bool>, id: CanId)
    requires |accepts| == |ms| && forall i :: 0 <= i < |ms| ==> Fits(ms[i].data)
    ensures var ps := Mine(own, ms, id);
      exists runs :: ComeFrom(ps, DeliveredFor(AllEvents(own, ms, accepts), id), runs, |ps|)
  {
    var ps := Mine(own, ms, id);
    OnlyFit(ms, id);
    IdsAreIndependent(own, ms, accepts, id);
    var runs := DeliveriesComeFrom(ps);
    assert Explained(ps, After(IDLE, ps), DeliveredFor(AllEvents(own, ms, accepts), id), runs);
    assert ComeFrom(ps, DeliveredFor(AllEvents(own, ms, accepts), id), runs, |ps|);
  }

  // ----- Complaints -----

  /** How many complaints about an id there were. */
  function ComplaintsFor(events: seq<Event>, id: CanId): nat {
    if events == [] then 0
    else ComplaintsFor(events[..|events| - 1], id) + (if events[|events| - 1].Complained? && events[|events| - 1].id == id then 1 else 0)
  }

  lemma {:induction false} ComplaintsAppend(a: seq<Event>, b: seq<Event>, id: CanId)
    ensures ComplaintsFor(a + b, id) == ComplaintsFor(a, id) + ComplaintsFor(b, id)
  {
    if b == [] {
      assert a + b == a;
    } else {
      ComplaintsAppend(a, b[..|b| - 1], id);
      assert (a + b)[..|a + b| - 1] == a + b[..|b| - 1];
    }
  }

  lemma ComplaintsOfOne(own: nat, slots: map<CanId, Slot>, m: Message, accept: bool, id: CanId)
    ensures ComplaintsFor(EventsOf(own, slots, m, accept), id) ==
      if !Ignored(own, m) && m.id == id && React(SlotFor(slots, m.id), m.data).Complain? then 1 else 0
  {
    var es := EventsOf(own, slots, m, accept);
    if |es| == 2 {
      assert es[..1] == [es[0]] && es[..1][..0] == [];
    } else if |es| == 1 {
      assert es[..0] == [];
    }
  }

  /** What message t of a stream adds to the events. */
  lemma EventsNext(own: nat, ms: seq<Message>, accepts: seq<bool>, t: nat)
    requires |accepts| == |ms| && t < |ms|
    ensures AllEvents(own, ms[..t + 1], accepts[..t + 1])
         == AllEvents(own, ms[..t], accepts[..t]) + EventsOf(own, AllSlots(own, ms[..t]), ms[t], accepts[t])
  {
    assert ms[..t + 1][..t] == ms[..t] && accepts[..t + 1][..t] == accepts[..t];
  }

  lemma {:induction false} ComplaintsAreForTheirIds(own: nat, ms: seq<Message>, accepts: seq<bool>, id: CanId)
    requires |accepts| == |ms|
    ensures ComplaintsFor(AllEvents(own, ms, accepts), id) == Complaints(IDLE, Mine(own, ms, id))
  {
    if ms == [] {
      assert AllEvents(own, ms, accepts) == [];
    } else {
      var n := |ms| - 1;
      var init, answers, slots := ms[..n], accepts[..n], AllSlots(own, ms[..n]);
      assert ms == init + [ms[n]] && accepts == answers + [accepts[n]];
      ComplaintsAreForTheirIds(own, init, answers, id);
      SlotsAreIndependent(own, init, id);
      ComplaintsAppend(AllEvents(own, init, answers), EventsOf(own, slots, ms[n], accepts[n]), id);
      ComplaintsOfOne(own, slots, ms[n], accepts[n], id);
      MineStep(own, init, ms[n], id);
      AfterOne(IDLE, Mine(own, init, id), ms[n].data);
    }
  }

  /** On any stream and for every id: each packet that is not ignored is taken in, delivers a payload or is complained of, once. */
  lemma NothingVanishes(own: nat, ms: seq<Message>, accepts: seq<bool>, id: CanId)
    requires |accepts| == |ms| && forall i :: 0 <= i < |ms| ==> Fits(ms[i].data)
    ensures var ps, events := Mine(own, ms, id), AllEvents(own, ms, accepts);
      |ps| == TakenIn(IDLE, ps) + |DeliveredFor(events, id)| + ComplaintsFor(events, id)
  {
    OnlyFit(ms, id);
    IdsAreIndependent(own, ms, accepts, id);
    ComplaintsAreForTheirIds(own, ms, accepts, id);
    EachPacketCounts(Mine(own, ms, id));
  }

  /** A faulty packet is followed at once by the complaint that says what is wrong with it, and no other packet is. */
  lemma FaultsAreReported(own: nat, ms: seq<Message>, accepts: seq<bool>, t: nat, e: Error)
    requires |accepts| == |ms| && t < |ms| && forall i :: 0 <= i < |ms| ==> Fits(ms[i].data)
    ensures
      var before, now := AllEvents(own, ms[..t], accepts[..t]), AllEvents(own, ms[..t + 1], accepts[..t + 1]);
      var s, m := After(IDLE, Mine(own, ms[..t], ms[t].id)), ms[t];
      && (now == before + [Complained(m.id, e)] <==> !Ignored(own, m) && IsFault(s, m.data, e))
      && (now == before <==> Ignored(own, m) || IsTakenIn(s, m.data))
  {
    var m, slots := ms[t], AllSlots(own, ms[..t]);
    var before, added := AllEvents(own, ms[..t], accepts[..t]), EventsOf(own, slots, ms[t], accepts[t]);
    EventsNext(own, ms, accepts, t);
    SlotsAreIndependent(own, ms[..t], m.id);
    OnlyFit(ms[..t], m.id);
    SlotSoundness(Mine(own, ms[..t], m.id));
    ComplaintsAreExact(SlotFor(slots, m.id), m.data, e);
    assert (before + added)[|before|..] == added;
    assert (before + [Complained(m.id, e)])[|before|..] == [Complained(m.id, e)];
  }

  predicate IsCommandDelivery(e: Event) {
    e.Delivered? && e.id.kind == ExtCommand
  }

  predicate IsAnswer(e: Event) {
    e.Acked? || e.Naked?
  }

  /** If event t is the delivery of a command, its answer comes next; if it is an answer, what it answers came just before. */
  ghost predicate AnsweredAt(events: seq<Event>, t: nat)
    requires t < |events|
  {
    && (IsCommandDelivery(events[t]) ==> t + 1 < |events| && IsAnswer(events[t + 1]) && events[t + 1].id == events[t].id)
    && (IsAnswer(events[t]) ==> t > 0 && IsCommandDelivery(events[t - 1]) && events[t - 1].id == events[t].id)
  }

  ghost predicate EachAnswered(events: seq<Event>) {
    forall t :: 0 <= t < |events| ==> AnsweredAt(events, t)
  }

  lemma EachAnsweredAppend(a: seq<Event>, b: seq<Event>)
    requires EachAnswered(a) && EachAnswered(b)
    ensures EachAnswered(a + b)
  {
    forall t | 0 <= t < |a + b| ensures AnsweredAt(a + b, t) {
      assert if t < |a| then AnsweredAt(a, t) else AnsweredAt(b, t - |a|);
    }
  }

  /** A reaction to a command answers it at once, and positively iff the application takes it. */
  lemma ReactionAnswered(id: CanId, reaction: Reaction, accept: bool)
    ensures EachAnswered(Visible(id, reaction, accept))
    ensures Acked(id) in Visible(id, reaction, accept) <==> reaction.Deliver? && id.kind == ExtCommand && accept
    ensures Naked(id) in Visible(id, reaction, accept) <==> reaction.Deliver? && id.kind == ExtCommand && !accept
  {
    var events := Visible(id, reaction, accept);
    if |events| == 2 {
      assert AnsweredAt(events, 0) && AnsweredAt(events, 1);
      assert events[1] in events;
    } else if |events| == 1 {
      assert AnsweredAt(events, 0);
    }
  }

  /** On any stream: every command that is delivered is answered, at once and once; nothing else is. */
  lemma {:induction false} EachCommandAnsweredOnce(own: nat, ms: seq<Message>, accepts: seq<bool>)
    requires |accepts| == |ms|
    ensures EachAnswered(AllEvents(own, ms, accepts))
  {
    if ms != [] {
      var n := |ms| - 1;
      EachCommandAnsweredOnce(own, ms[..n], accepts[..n]);
      var slots := AllSlots(own, ms[..n]);
      ReactionAnswered(ms[n].id, React(SlotFor(slots, ms[n].id), ms[n].data), accepts[n]);
      EachAnsweredAppend(AllEvents(own, ms[..n], accepts[..n]), EventsOf(own, slots, ms[n], accepts[n]));
    }
  }

  lemma EventsStep(own: nat, ms: seq<Message>, accepts: seq<bool>, m: Message, accept: bool, id: CanId)
    requires |accepts| == |ms| && Unanswered(AllEvents(own, ms, accepts)) == 0
    requires DeliveredFor(AllEvents(own, ms, accepts), id) == Deliveries(IDLE, Mine(own, ms, id))
    ensures DeliveredFor(AllEvents(own, ms + [m], accepts + [accept]), id) == Deliveries(IDLE, Mine(own, ms + [m], id))
    ensures Unanswered(AllEvents(own, ms + [m], accepts + [accept])) == 0
  {
    var slots := AllSlots(own, ms);
    assert (ms + [m])[..|ms|] == ms && (accepts + [accept])[..|ms|] == accepts;
    SlotsAreIndependent(own, ms, id);
    EventsOfOne(own, slots, m, accept, id);
    EventsAppend(AllEvents(own, ms, accepts), EventsOf(own, slots, m, accept), id);
    MineStep(own, ms, m, id);
    AfterOne(IDLE, Mine(own, ms, id), m.data);
  }

  // ----- The receiver itself -----

  /** One reassembly buffer. */
  class ReceiveStruct {
    const id: CanId
    const buffer: array<Byte>
    var cur: nat
    var last: nat

    constructor (id: CanId)
      ensures this.id == id && Valid() && Value() == IDLE && fresh(buffer)
    {
      this.id := id;
      buffer := new Byte[MAX_PAYLOAD];
      cur, last := 0, 0;
    }

    ghost predicate Valid()
      reads this
    {
      buffer.Length == MAX_PAYLOAD && ((cur == 0 && last == 0) || 1 <= cur < last <= 255)
    }

    ghost function Value(): Slot
      reads this, buffer
      requires Valid()
    {
      Slot(cur, last, buffer[..6 * cur])
    }

    method Reset()
      requires Valid()
      modifies this
      ensures Valid() && cur == 0 && last == 0
    {
      cur, last := 0, 0;
    }

    method Copy(offset: nat, bytes: seq<Byte>)
      requires offset + |bytes| <= buffer.Length
      modifies buffer
      ensures buffer[..offset + |bytes|] == old(buffer[..offset]) + bytes
    {
      for i := 0 to |bytes|
        invariant buffer[..offset] == old(buffer[..offset])
        invariant buffer[offset..offset + i] == bytes[..i]
      {
        buffer[offset + i] := bytes[i];
      }
      assert buffer[..offset + |bytes|] == buffer[..offset] + buffer[offset..offset + |bytes|];
    }

    /** Takes in one packet of this id. */
    method Reassemble(p: Packet) returns (r: Reaction)
      requires Valid() && Fits(p)
      modifies this, buffer
      ensures Valid() && Value() == Next(old(Value()), p) && r == React(old(Value()), p)
    {
      ghost var before := Value();
      if |p| < 2 {
        Reset();
        return Complain(BadLength);
      }
      var curPacket, lastPacket := p[0], p[1];
      if cur == 0 {
        if curPacket != 1 {
          return Complain(BadCurPacket);
        }
        if lastPacket == 0 {
          return Complain(BadLastPacket);
        }
        if curPacket == lastPacket {
          Copy(0, p[2..]);
          return Deliver(buffer[..|p| - 2]);
        }
        if |p| != 8 {
          return Complain(BadLength);
        }
        cur, last := curPacket, lastPacket;
        Copy(0, p[2..]);
        return Wait;
      }
      var next := cur + 1;
      if curPacket != next {
        Reset();
        return Complain(OutOfOrder);
      }
      if lastPacket != last {
        Reset();
        return Complain(LastPacketChanged);
      }
      if next != last {
        if |p| != 8 {
          Reset();
          return Complain(BadLength);
        }
        Copy((curPacket - 1) * 6, p[2..]);
        cur := next;
        return Wait;
      }
      Copy((curPacket - 1) * 6, p[2..]);
      var size := (curPacket - 1) * 6 + |p| - 2;
      r := Deliver(buffer[..size]);
      Reset();
    }
  }

  class Receiver {
    const own: nat
    /** The buffers, found by their arbitration id. */
    var extendedList: map<CanId, ReceiveStruct>
    /** The same as values. */
    ghost var Slots: map<CanId, Slot>
    ghost var Repr: set<object>

    constructor (own: nat)
      ensures Valid() && this.own == own && Slots == map[] && fresh(Repr)
    {
      this.own := own;
      extendedList := map[];
      Slots, Repr := map[], {};
    }

    ghost predicate Valid()
      reads this, Repr
    {
      && this !in Repr && Slots.Keys == extendedList.Keys
      && (forall id :: id in extendedList ==> Holds(id, extendedList[id]))
      && (forall id, id' :: id in extendedList && id' in extendedList && id != id' ==> extendedList[id].buffer != extendedList[id'].buffer)
    }

    /** The buffer of an id, with its value in the table. */
    ghost predicate Holds(id: CanId, r: ReceiveStruct)
      reads this, Repr
    {
      r in Repr && r.buffer in Repr && r.Valid() && r.id == id && id in Slots && Slots[id] == r.Value()
    }

    /** The list grows by a fresh buffer when the id is new. */
    method Add(id: CanId)
      requires Valid() && id !in extendedList
      modifies this`extendedList, this`Slots, this`Repr
      ensures Valid() && fresh(Repr - old(Repr)) && id in extendedList
      ensures Slots == old(Slots)[id := IDLE]
    {
      var r := new ReceiveStruct(id);
      Slots := Slots[id := IDLE];
      Repr := Repr + {r, r.buffer};
      extendedList := extendedList[id := r];
    }

    method Update(id: CanId, p: Packet) returns (reaction: Reaction)
      requires Valid() && id in extendedList && Fits(p)
      modifies Repr, this`Slots
      ensures Valid() && Slots == old(Slots)[id := Next(old(Slots)[id], p)] && reaction == React(old(Slots)[id], p)
    {
      var r := extendedList[id];
      assert Holds(id, r);
      forall id' | id' in extendedList && id' != id
        ensures extendedList[id'] != r && extendedList[id'].buffer != r.buffer && Holds(id', extendedList[id'])
      {
      }
      reaction := r.Reassemble(p);
      Slots := Slots[id := r.Value()];
    }

    /** One extended announcement or extended command off the bus; `accept` is the application's answer if it is delivered. */
    method Receive(m: Message, accept: bool) returns (events: seq<Event>)
      requires Valid() && Fits(m.data)
      modifies this, Repr
      ensures Valid() && fresh(Repr - old(Repr)) && Slots == SlotsAfter(own, old(Slots), m)
      ensures events == EventsOf(own, old(Slots), m, accept)
    {
      if m.id.kind == ExtCommand && own != m.id.did {
        return [];
      }
      ghost var before := Slots;
      if m.id !in extendedList {
        Add(m.id);
      }
      UpdateTwice(before, m.id, Next(SlotFor(before, m.id), m.data));
      var reaction := Update(m.id, m.data);
      events := Report(m.id, reaction, accept);
    }
  }

  lemma UpdateTwice(slots: map<CanId, Slot>, id: CanId, s: Slot)
    ensures slots[id := IDLE][id := s] == slots[id := s]
  {
  }

  /** Hands a reaction to the application and, for a delivered command, answers the sender. */
  method Report(id: CanId, reaction: Reaction, accept: bool) returns (events: seq<Event>)
    ensures events == Visible(id, reaction, accept)
  {
    events := [];
    match reaction {
      case Wait =>
      case Complain(e) => events := events + [Complained(id, e)];
      case Deliver(w) =>
        events := events + [Delivered(id, w)];
        if id.kind == ExtCommand {
          events := events + [if accept then Acked(id) else Naked(id)];
        }
    }
  }
}
