/** The sending end: cutting a payload into packets, and retrying a command until it is answered. */
module CanSend {
  import opened Bytes
  import opened CanFraming
  import opened CanReassembly

  /** Waiting for the answer to a command ends with the answer's code, with a timeout, or with an error of the wait. */
  datatype WaitResult = Answered(code: int) | TimedOut | WaitFailed

  datatype Status = Success | InvalidParameter | Failed | Timeout | Code(code: int)

  /** The packets of a payload, sent so many times over. */
  ghost function Repeated(ps: seq<Packet>, times: nat): seq<Packet> {
    if times == 0 then [] else Repeated(ps, times - 1) + ps
  }

  lemma {:induction false} RepeatedContains(ps: seq<Packet>, times: nat, p: Packet)
    requires p in Repeated(ps, times)
    ensures p in ps
  {
    if times > 0 && p !in ps {
      RepeatedContains(ps, times - 1, p);
    }
  }

  /** Packet i of attempt k is packet i of the payload, and there are no others. */
  lemma {:induction false} RepeatedIs(ps: seq<Packet>, times: nat, k: nat, i: nat)
    ensures |Repeated(ps, times)| == times * |ps|
    ensures k < times && i < |ps| ==> k * |ps| + i < times * |ps| && Repeated(ps, times)[k * |ps| + i] == ps[i]
  {
    if times > 0 {
      RepeatedIs(ps, times - 1, k, i);
      assert times * |ps| == (times - 1) * |ps| + |ps|;
      if k == times - 1 {
        assert k * |ps| == (times - 1) * |ps|;
      }
    }
  }

  /** One attempt more, complete or broken off. */
  lemma OneMoreAttempt(ps: seq<Packet>, times: nat, now: seq<Packet>)
    requires |now| <= |ps| && now == ps[..|now|]
    ensures Repeated(ps, times) + now <= Repeated(ps, times + 1)
    ensures |now| < |ps| ==> |Repeated(ps, times) + now| < |Repeated(ps, times + 1)|
    ensures |now| == |ps| ==> Repeated(ps, times) + now == Repeated(ps, times + 1)
    ensures |Repeated(ps, times)| <= |Repeated(ps, times) + now|
  {
  }

  /** Fills the packet buffer: two numbers, then the bytes. */
  method FillPacket(buffer: array<Byte>, number: Byte, total: Byte, bytes: seq<Byte>) returns (p: Packet)
    requires buffer.Length == 8 && |bytes| <= 6
    modifies buffer
    ensures p == [number, total] + bytes
  {
    buffer[0], buffer[1] := number, total;
    forall j | 0 <= j < |bytes| {
      buffer[2 + j] := bytes[j];
    }
    p := buffer[..2 + |bytes|];
  }

  /** So many full packets and so many bytes over. */
  lemma CountPackets(n: nat, full: nat, over: nat)
    requires n <= MAX_PAYLOAD && n == 6 * full + over && over < 6
    ensures NumPackets(n) == if over != 0 then full + 1 else if full == 0 then 1 else full
  {
  }

  lemma NextFullPacket(data: seq<Byte>, i: nat)
    requires |data| <= MAX_PAYLOAD && 6 * i + 6 <= |data|
    ensures i < NumPackets(|data|) && [i + 1, NumPackets(|data|)] + data[6 * i..][..6] == PacketAt(data, i)
    ensures data[6 * i..][6..] == data[6 * (i + 1)..]
    ensures Fragment(data)[..i + 1] == Fragment(data)[..i] + [PacketAt(data, i)]
  {
    assert data[6 * i..][..6] == Chunk(data, i);
  }

  /** Writes the first packets of the payload, all of them full. */
  method SendFullPackets(data: seq<Byte>, buffer: array<Byte>, full: nat, total: Byte, ok: nat -> bool, first: nat)
    returns (success: bool, sent: seq<Packet>)
    requires buffer.Length == 8 && 6 * full <= |data| <= MAX_PAYLOAD && full <= NumPackets(|data|)
    requires full > 0 ==> total == NumPackets(|data|)
    modifies buffer
    ensures |sent| <= full && sent == Fragment(data)[..|sent|]
    ensures forall w :: first <= w < first + |sent| ==> ok(w)
    ensures success <==> |sent| == full
    ensures !success ==> !ok(first + |sent|)
  {
    var rest := data;
    sent := [];
    for i := 0 to full
      invariant rest == data[6 * i..] && |sent| == i && sent == Fragment(data)[..i]
      invariant forall w :: first <= w < first + i ==> ok(w)
    {
      NextFullPacket(data, i);
      var packet := FillPacket(buffer, i + 1, total, rest[..6]);
      if !ok(first + i) {
        return false, sent;
      }
      sent := sent + [packet];
      rest := rest[6..];
    }
    return true, sent;
  }

  /** Writes every packet of the payload to the driver, whose k-th write since the call began succeeds iff ok(k). */
  method SendPackets(data: seq<Byte>, ok: nat -> bool, first: nat) returns (success: bool, sent: seq<Packet>)
    requires |data| <= MAX_PAYLOAD
    ensures |sent| <= NumPackets(|data|) && sent == Fragment(data)[..|sent|]
    ensures forall w :: first <= w < first + |sent| ==> ok(w)
    ensures success <==> |sent| == NumPackets(|data|)
    ensures !success ==> !ok(first + |sent|)
  {
    var numFullPackets, trailingPacket := |data| / 6, |data| % 6;
    CountPackets(|data|, numFullPackets, trailingPacket);
    var numPackets := if trailingPacket != 0 then numFullPackets + 1 else numFullPackets;
    var buffer := new Byte[8];
    success, sent := SendFullPackets(data, buffer, numFullPackets, numPackets, ok, first);
    if !success {
      return;
    }
    if trailingPacket != 0 {
      var packet := FillPacket(buffer, numFullPackets + 1, numPackets, data[6 * numFullPackets..]);
      assert packet == PacketAt(data, numFullPackets);
      if !ok(first + numFullPackets) {
        return false, sent;
      }
      sent := sent + [packet];
    } else if numPackets == 0 {
      var packet := FillPacket(buffer, 1, 1, []);
      assert packet == PacketAt(data, 0);
      if !ok(first) {
        return false, sent;
      }
      sent := sent + [packet];
    }
  }

  /** An announcement goes out once, whole, unless it is too long or a write fails. */
  method SendExtAnnouncementMessage(data: seq<Byte>, ok: nat -> bool) returns (status: Status, sent: seq<Packet>)
    ensures |data| > MAX_PAYLOAD <==> status == InvalidParameter
    ensures status == InvalidParameter ==> sent == []
    ensures |data| <= MAX_PAYLOAD ==> |sent| <= NumPackets(|data|) && sent == Fragment(data)[..|sent|]
    ensures |data| <= MAX_PAYLOAD ==> (status == Success <==> forall k :: 0 <= k < NumPackets(|data|) ==> ok(k))
    ensures status == Success ==> sent == Fragment(data)
    ensures status in {Success, InvalidParameter, Failed}
  {
    if |data| > MAX_PAYLOAD {
      return InvalidParameter, [];
    }
    var success: bool;
    success, sent := SendPackets(data, ok, 0);
    if success {
      return Success, sent;
    }
    return Failed, sent;
  }

  // ----- Retries -----

  const MAX_COMMAND_RETRIES := 3

  const MAX_EXT_CMD_RETRIES := 3

  /** The retry count when the wait loop is left, given what each wait ends with. */
  function Retries(wait: nat -> WaitResult, maxRetries: nat, r: nat): (n: nat)
    requires r < maxRetries
    ensures r <= n <= maxRetries
    decreases maxRetries - r
  {
    if wait(r) != TimedOut then r
    else if r + 1 >= maxRetries then r + 1
    else Retries(wait, maxRetries, r + 1)
  }

  /** Every permitted attempt went without an answer. */
  ghost predicate Exhausted(wait: nat -> WaitResult, maxRetries: nat) {
    forall k :: 0 <= k < maxRetries ==> wait(k) == TimedOut
  }

  /** The first wait that does not time out, within the permitted attempts, is wait n. */
  ghost predicate EndsAt(wait: nat -> WaitResult, maxRetries: nat, n: nat) {
    n < maxRetries && wait(n) != TimedOut && forall k :: 0 <= k < n ==> wait(k) == TimedOut
  }

  lemma {:induction false} RetriesMeaning(wait: nat -> WaitResult, maxRetries: nat, r: nat)
    requires r < maxRetries
    ensures var n := Retries(wait, maxRetries, r);
      (forall k :: r <= k < n ==> wait(k) == TimedOut) && (n < maxRetries ==> wait(n) != TimedOut)
    decreases maxRetries - r
  {
    if wait(r) == TimedOut && r + 1 < maxRetries {
      RetriesMeaning(wait, maxRetries, r + 1);
    }
  }

  /** How often the payload is sent if every write succeeds. */
  ghost function Attempts(wait: nat -> WaitResult): nat {
    var n := Retries(wait, MAX_EXT_CMD_RETRIES, 0);
    if n == MAX_EXT_CMD_RETRIES then n else n + 1
  }

  /** The attempts at sending: written whole and awaited, until a write fails, a wait does not time out, or they are used up. */
  method SendUntilAnswered(data: seq<Byte>, ok: nat -> bool, wait: nat -> WaitResult, memory: int)
    returns (success: bool, sent: seq<Packet>, attempts: nat, retry: nat, code: int)
    requires |data| <= MAX_PAYLOAD
    ensures sent <= Repeated(Fragment(data), attempts) && 0 < attempts <= Attempts(wait)
    ensures forall w :: 0 <= w < |sent| ==> ok(w)
    ensures !success ==> !ok(|sent|) && |Repeated(Fragment(data), attempts - 1)| <= |sent| < |Repeated(Fragment(data), attempts)|
    ensures success ==> sent == Repeated(Fragment(data), attempts) && attempts == Attempts(wait)
    ensures success ==> retry == Retries(wait, MAX_EXT_CMD_RETRIES, 0)
    ensures success ==> code == if retry < MAX_EXT_CMD_RETRIES && wait(retry).Answered? then wait(retry).code else memory
  {
    code, retry := memory, 0;
    sent, attempts := [], 0;
    while true
      invariant attempts == retry < MAX_EXT_CMD_RETRIES && code == memory
      invariant sent == Repeated(Fragment(data), attempts)
      invariant forall w :: 0 <= w < |sent| ==> ok(w)
      invariant Retries(wait, MAX_EXT_CMD_RETRIES, 0) == Retries(wait, MAX_EXT_CMD_RETRIES, retry)
      decreases MAX_EXT_CMD_RETRIES - retry
    {
      var now;
      success, now := SendPackets(data, ok, |sent|);
      OneMoreAttempt(Fragment(data), attempts, now);
      sent, attempts := sent + now, attempts + 1;
      if !success {
        return;
      }
      match wait(retry) {
        case Answered(c) =>
          code := c;
          return;
        case TimedOut =>
          retry := retry + 1;
          if retry >= MAX_EXT_CMD_RETRIES {
            return;
          }
        case WaitFailed =>
          return;
      }
    }
  }

  /**
   * Sends a command over and over until it is answered. `memory` is what the record for the answer holds before anybody
   * writes to it: the code in it is reported also when the wait itself fails.
   */
  method SendExtCommandMessage(data: seq<Byte>, ok: nat -> bool, wait: nat -> WaitResult, memory: int)
    returns (status: Status, sent: seq<Packet>, attempts: nat)
    ensures |data| > MAX_PAYLOAD <==> status == InvalidParameter
    ensures status == InvalidParameter ==> sent == []
    ensures |data| <= MAX_PAYLOAD ==> sent <= Repeated(Fragment(data), attempts) && attempts <= Attempts(wait)
    ensures forall w :: 0 <= w < |sent| ==> ok(w)
    ensures status == Failed ==>
      && !ok(|sent|) && 0 < attempts && (forall k :: 0 <= k < attempts - 1 ==> wait(k) == TimedOut)
      && |Repeated(Fragment(data), attempts - 1)| <= |sent| < |Repeated(Fragment(data), attempts)|
    ensures status !in {InvalidParameter, Failed} ==>
      && attempts == Attempts(wait) && sent == Repeated(Fragment(data), attempts)
      && status == Reported(wait, memory)
      && (status == Timeout <==> Exhausted(wait, 3)) && (status == Timeout ==> attempts == 3)
      && (forall n: nat :: EndsAt(wait, 3, n) ==>
            attempts == n + 1 && status == if wait(n).Answered? then Code(wait(n).code) else Code(memory))
  {
    if |data| > MAX_PAYLOAD {
      return InvalidParameter, [], 0;
    }
    var success, retry, code;
    success, sent, attempts, retry, code := SendUntilAnswered(data, ok, wait, memory);
    RetriesEnd(wait);
    if !success {
      RetriesMeaning(wait, MAX_EXT_CMD_RETRIES, 0);
      return Failed, sent, attempts;
    }
    status := if retry >= MAX_COMMAND_RETRIES then Timeout else Code(code);
  }

  /** The retry count is the index of the wait that ended the attempts, or tells that none did. */
  lemma RetriesEnd(wait: nat -> WaitResult)
    ensures var n := Retries(wait, MAX_EXT_CMD_RETRIES, 0);
      && (n == MAX_EXT_CMD_RETRIES <==> Exhausted(wait, MAX_EXT_CMD_RETRIES))
      && forall n': nat :: EndsAt(wait, MAX_EXT_CMD_RETRIES, n') <==> n' == n < MAX_EXT_CMD_RETRIES
  {
    RetriesMeaning(wait, MAX_EXT_CMD_RETRIES, 0);
  }

  /** What is reported when every write succeeds, given how the waits end and what the record for the answer holds. */
  function Reported(wait: nat -> WaitResult, memory: int): Status {
    var n := Retries(wait, MAX_EXT_CMD_RETRIES, 0);
    if n >= MAX_COMMAND_RETRIES then Timeout
    else if wait(n).Answered? then Code(wait(n).code)
    else Code(memory)
  }

  /**
   * The report is decided by the channel alone, a timeout or the receiver's code, exactly when no wait fails before an
   * answer comes or the attempts are used up.
   */
  lemma ReportIsTheReceiversIffNoWaitFails(wait: nat -> WaitResult)
    ensures (forall m: int, m': int :: Reported(wait, m) == Reported(wait, m')) <==>
      !exists n: nat :: EndsAt(wait, MAX_EXT_CMD_RETRIES, n) && wait(n) == WaitFailed
  {
    RetriesEnd(wait);
    var n := Retries(wait, MAX_EXT_CMD_RETRIES, 0);
    if n < MAX_EXT_CMD_RETRIES && wait(n) == WaitFailed {
      assert EndsAt(wait, MAX_EXT_CMD_RETRIES, n);
      assert Reported(wait, 0) != Reported(wait, 1);
    }
  }

  /** A witness: a wait that fails at once has whatever the memory holds reported as the receiver's code. */
  lemma FailedWaitReportsMemory(memory: int)
    ensures Reported(k => WaitFailed, memory) == Code(memory)
  {
  }

  /** With these limits for the loop and for the report, a timeout is reported exactly if all attempts were used up. */
  ghost predicate ReportsTimeoutsExactly(maxExtRetries: nat, maxRetries: nat)
    requires maxExtRetries > 0
  {
    forall wait: nat -> WaitResult :: Retries(wait, maxExtRetries, 0) >= maxRetries <==> Exhausted(wait, maxExtRetries)
  }

  /** The loop and the report use constants of their own. That both are the same is what makes the report right. */
  lemma TimeoutReportNeedsEqualLimits(maxExtRetries: nat, maxRetries: nat)
    requires maxExtRetries > 0
    ensures ReportsTimeoutsExactly(maxExtRetries, maxRetries) <==> maxExtRetries == maxRetries
  {
    forall wait: nat -> WaitResult ensures Retries(wait, maxExtRetries, 0) == maxExtRetries <==> Exhausted(wait, maxExtRetries) {
      RetriesMeaning(wait, maxExtRetries, 0);
    }
    if maxRetries > maxExtRetries {
      var silent: nat -> WaitResult := k => TimedOut;
      assert Exhausted(silent, maxExtRetries);
    } else if maxRetries < maxExtRetries {
      LateAnswerIsLost(maxExtRetries, maxRetries);
    }
  }

  /** With a smaller limit for the report, an answer that comes late would be reported as a timeout. */
  lemma LateAnswerIsLost(maxExtRetries: nat, maxRetries: nat)
    requires maxRetries < maxExtRetries
    ensures exists wait: nat -> WaitResult :: Retries(wait, maxExtRetries, 0) >= maxRetries && !Exhausted(wait, maxExtRetries)
  {
    var late: nat -> WaitResult := k => if k < maxRetries then TimedOut else Answered(0);
    RetriesMeaning(late, maxExtRetries, 0);
    assert late(maxRetries) == Answered(0);
    assert !Exhausted(late, maxExtRetries);
    assert Retries(late, maxExtRetries, 0) >= maxRetries;
  }

  /**
   * From end to end: whatever part of a command's attempts an idle receiver sees, in whatever order and however often,
   * everything it delivers is the command's payload.
   */
  lemma CommandIntegrity(data: seq<Byte>, attempts: nat, stream: seq<Packet>, t: nat)
    requires |data| <= MAX_PAYLOAD && t < |stream|
    requires forall u :: 0 <= u < |stream| ==> stream[u] in Repeated(Fragment(data), attempts)
    ensures ReactionAt(IDLE, stream, t).Deliver? ==> ReactionAt(IDLE, stream, t).payload == data
  {
    var ps := Fragment(data);
    FragmentIsMessage(data);
    forall u | 0 <= u < |stream| ensures stream[u] in ps {
      RepeatedContains(ps, attempts, stream[u]);
    }
    RetryIntegrity(ps, stream, t);
  }
}
