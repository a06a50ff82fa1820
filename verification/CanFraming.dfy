/** The extended CAN framing: how a payload is cut into packets, and what reassembling them means. */
module CanFraming {
  import opened Bytes

  /** The data bytes of one CAN packet. */
  type Packet = seq<Byte>

  const MAX_PAYLOAD := 1530

  ghost predicate Fits(p: Packet) {
    |p| <= 8
  }

  // ----- Cutting -----

  function NumPackets(n: nat): (k: nat)
    requires n <= MAX_PAYLOAD
    ensures 1 <= k <= 255 && n <= 6 * k && (k > 1 ==> 6 * (k - 1) < n)
  {
    if n == 0 then 1 else (n + 5) / 6
  }

  /** The part of the payload that packet i (from zero) carries. */
  function Chunk(data: seq<Byte>, i: nat): seq<Byte>
    requires 6 * i <= |data|
  {
    data[6 * i..if 6 * i + 6 <= |data| then 6 * i + 6 else |data|]
  }

  /** Packet i of a payload: its number from one, the number of packets, and its part of the payload. */
  function PacketAt(data: seq<Byte>, i: nat): (p: Packet)
    requires |data| <= MAX_PAYLOAD && i < NumPackets(|data|)
    ensures 2 <= |p| <= 8
  {
    [i + 1, NumPackets(|data|)] + Chunk(data, i)
  }

  function Fragment(data: seq<Byte>): (ps: seq<Packet>)
    requires |data| <= MAX_PAYLOAD
    ensures |ps| == NumPackets(|data|)
    ensures forall i :: 0 <= i < |ps| ==> ps[i] == PacketAt(data, i)
  {
    seq(NumPackets(|data|), i requires 0 <= i < NumPackets(|data|) => PacketAt(data, i))
  }

  // ----- What a complete message is -----

  /** The payload bytes of a run of packets, in order. */
  ghost function Body(ps: seq<Packet>): seq<Byte>
    requires forall i :: 0 <= i < |ps| ==> |ps[i]| >= 2
  {
    if ps == [] then [] else Body(ps[..|ps| - 1]) + ps[|ps| - 1][2..]
  }

  /** The packets are numbered 1, 2, ... of n, and all of them are full. */
  ghost predicate IsBeginning(ps: seq<Packet>, n: nat) {
    forall i :: 0 <= i < |ps| ==> |ps[i]| == 8 && ps[i][0] == i + 1 && ps[i][1] == n
  }

  /** The packets 1 .. n of n, all full except perhaps the last. */
  ghost predicate IsMessage(ps: seq<Packet>) {
    var n := |ps|;
    && 1 <= n <= 255 && IsBeginning(ps[..n - 1], n)
    && 2 <= |ps[n - 1]| <= 8 && ps[n - 1][0] == n && ps[n - 1][1] == n
  }

  lemma MessageSizes(ps: seq<Packet>)
    requires IsMessage(ps)
    ensures forall i :: 0 <= i < |ps| ==> |ps[i]| >= 2 && ps[i][0] == i + 1 && ps[i][1] == |ps|
    ensures forall i :: 0 <= i < |ps| - 1 ==> |ps[i]| == 8
  {
    var init := ps[..|ps| - 1];
    forall i | 0 <= i < |ps| - 1 ensures |ps[i]| == 8 && ps[i][0] == i + 1 && ps[i][1] == |ps| {
      assert init[i] == ps[i];
    }
  }

  /** The payload a complete message carries. */
  ghost function MessageBody(ps: seq<Packet>): seq<Byte>
    requires IsMessage(ps)
  {
    MessageSizes(ps);
    Body(ps)
  }

  lemma {:induction false} ChunksJoin(data: seq<Byte>, ps: seq<Packet>, k: nat)
    requires |data| <= MAX_PAYLOAD && k <= NumPackets(|data|) && ps == Fragment(data)[..k]
    requires forall i :: 0 <= i < |ps| ==> |ps[i]| >= 2
    ensures Body(ps) == data[..if 6 * k <= |data| then 6 * k else |data|]
  {
    if k > 0 {
      var init := ps[..k - 1];
      assert init == Fragment(data)[..k - 1];
      ChunksJoin(data, init, k - 1);
      assert ps[k - 1] == PacketAt(data, k - 1);
      assert ps[k - 1][2..] == Chunk(data, k - 1);
    }
  }

  /** What the sender produces is a message whose body is the payload. */
  lemma FragmentIsMessage(data: seq<Byte>)
    requires |data| <= MAX_PAYLOAD
    ensures IsMessage(Fragment(data))
    ensures forall i :: 0 <= i < |Fragment(data)| ==> |Fragment(data)[i]| >= 2
    ensures Body(Fragment(data)) == data
  {
    var ps := Fragment(data);
    var n := |ps|;
    var full := ps[..n - 1];
    forall i | 0 <= i < |full|
      ensures |full[i]| == 8 && full[i][0] == i + 1 && full[i][1] == n
    {
      assert ps[i] == PacketAt(data, i);
    }
    assert ps[n - 1] == PacketAt(data, n - 1);
    ChunksJoin(data, ps, n);
  }
}
