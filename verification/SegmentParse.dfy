/** Reading a list of segments from the bytes that describe it. */
module SegmentParse {
  import opened Bytes
  import opened SegmentTypes

  /** The registered commands: the length of their data, by identifier. */
  type CommandTable = map<Word, nat>

  datatype Segment = Segment(id: Word, tag: Word, data: seq<Byte>)

  /** `Invalid` carries what the segment's own check answered. */
  datatype Error = InvalidParameters | UnknownSegment(index: nat) | DupSequenceNumber(index: nat) | Invalid(index: nat, why: int)

  datatype Result = Created(segments: seq<Segment>) | Failed(error: Error)

  /** 'S', 'G', 'M', 'T' */
  const MAGIC: seq<Byte> := [0x53, 0x47, 0x4D, 0x54]

  const HEADER := 12

  // ----- The format -----

  function Encode(s: Segment): (b: seq<Byte>)
    ensures |b| == HEADER + |s.data|
  {
    MAGIC + WordBytes(s.id) + WordBytes(s.tag) + s.data
  }

  function EncodeAll(ss: seq<Segment>): seq<Byte> {
    if ss == [] then [] else Encode(ss[0]) + EncodeAll(ss[1..])
  }

  ghost predicate Registered(commands: CommandTable, s: Segment) {
    s.id in commands && |s.data| == commands[s.id]
  }

  ghost predicate AllRegistered(commands: CommandTable, ss: seq<Segment>) {
    forall i :: 0 <= i < |ss| ==> Registered(commands, ss[i])
  }

  predicate UsesTag(ss: seq<Segment>, tag: Word) {
    exists i :: 0 <= i < |ss| && ss[i].tag == tag
  }

  ghost predicate DistinctTags(ss: seq<Segment>) {
    forall i, j :: 0 <= i < j < |ss| ==> ss[i].tag != ss[j].tag
  }

  // ----- Parsing -----

  /** The four letters are compared one by one, so a mismatch needs no more bytes than it takes to see it. */
  predicate HasMagic(b: seq<Byte>) {
    MAGIC <= b
  }

  ghost predicate LacksMagic(b: seq<Byte>) {
    exists k :: 0 <= k < 4 && k < |b| && b[k] != MAGIC[k]
  }

  /** The bytes start with a segment of a registered command. */
  predicate Known(commands: CommandTable, b: seq<Byte>) {
    HasMagic(b) && |b| >= 8 && WordAt(b, 4) in commands
  }

  function LengthOf(commands: CommandTable, b: seq<Byte>): nat
    requires Known(commands, b)
  {
    HEADER + commands[WordAt(b, 4)]
  }

  function Decode(commands: CommandTable, b: seq<Byte>): (s: Segment)
    requires Known(commands, b) && LengthOf(commands, b) <= |b|
  {
    Segment(WordAt(b, 4), WordAt(b, 8), b[HEADER..LengthOf(commands, b)])
  }

  /** The parser, having found the segments `before`, never looks past the end of the remaining bytes. */
  ghost predicate Readable(commands: CommandTable, b: seq<Byte>, before: seq<Segment>)
    decreases |b|
  {
    b == [] || LacksMagic(b)
    || (|b| >= 8 && HasMagic(b) && (!Known(commands, b)
        || (LengthOf(commands, b) <= |b| && var s := Decode(commands, b);
            UsesTag(before, s.tag) || Readable(commands, b[LengthOf(commands, b)..], before + [s]))))
  }

  /** What becomes of the remaining bytes after the segments `before`. */
  ghost function Parse(commands: CommandTable, b: seq<Byte>, before: seq<Segment>): Result
    requires Readable(commands, b, before)
    decreases |b|
  {
    if b == [] then Created(before)
    else if !Known(commands, b) then Failed(UnknownSegment(|before|))
    else
      var s := Decode(commands, b);
      if UsesTag(before, s.tag) then Failed(DupSequenceNumber(|before|))
      else Parse(commands, b[LengthOf(commands, b)..], before + [s])
  }

  // ----- Parsing undoes encoding -----

  /** The layout: the four letters, the identifier, the tag, and the data. */
  lemma EncodeLayout(s: Segment)
    ensures var b := Encode(s);
      MAGIC <= b && WordAt(b, 4) == s.id && WordAt(b, 8) == s.tag && b[HEADER..] == s.data
    ensures var b := Encode(s);
      && b[..4] == [0x53, 0x47, 0x4D, 0x54]
      && b[4] == s.id % 0x100 && b[5] == s.id / 0x100 % 0x100 && b[6] == s.id / 0x1_0000 % 0x100 && b[7] == s.id / 0x100_0000
      && b[8] == s.tag % 0x100 && b[9] == s.tag / 0x100 % 0x100 && b[10] == s.tag / 0x1_0000 % 0x100 && b[11] == s.tag / 0x100_0000
  {
    WordRoundTrip(s.id);
    WordRoundTrip(s.tag);
  }

  lemma DecodeEncode(commands: CommandTable, s: Segment, rest: seq<Byte>)
    requires Registered(commands, s)
    ensures var b := Encode(s) + rest;
      Known(commands, b) && LengthOf(commands, b) == |Encode(s)| && Decode(commands, b) == s && b[|Encode(s)|..] == rest
  {
    var b := Encode(s) + rest;
    EncodeLayout(s);
    assert b[..4] == Encode(s)[..4] == MAGIC;
    assert WordAt(b, 4) == WordAt(Encode(s), 4) && WordAt(b, 8) == WordAt(Encode(s), 8);
    assert b[HEADER..HEADER + |s.data|] == Encode(s)[HEADER..];
  }

  lemma EncodeDecode(commands: CommandTable, b: seq<Byte>)
    requires Known(commands, b) && LengthOf(commands, b) <= |b|
    ensures Registered(commands, Decode(commands, b))
    ensures Encode(Decode(commands, b)) == b[..LengthOf(commands, b)]
  {
    BytesRoundTrip(b, 4);
    BytesRoundTrip(b, 8);
    assert b[..LengthOf(commands, b)] == b[..4] + b[4..8] + b[8..12] + b[HEADER..LengthOf(commands, b)];
  }

  lemma EncodeAllFront(ss: seq<Segment>, rest: seq<Byte>)
    requires ss != []
    ensures EncodeAll(ss) + rest == Encode(ss[0]) + (EncodeAll(ss[1..]) + rest)
  {
  }

  /** A segment with a new tag is read, and the parser goes on behind it. */
  lemma ParseOne(commands: CommandTable, before: seq<Segment>, s: Segment, tail: seq<Byte>)
    requires Registered(commands, s) && !UsesTag(before, s.tag) && Readable(commands, tail, before + [s])
    ensures Readable(commands, Encode(s) + tail, before)
    ensures Parse(commands, Encode(s) + tail, before) == Parse(commands, tail, before + [s])
  {
    DecodeEncode(commands, s, tail);
  }

  /** Segments with new tags are read one after the other, whatever follows them. */
  lemma {:induction false} ParseEncoded(commands: CommandTable, before: seq<Segment>, ss: seq<Segment>, rest: seq<Byte>)
    requires AllRegistered(commands, ss) && DistinctTags(before + ss) && Readable(commands, rest, before + ss)
    ensures Readable(commands, EncodeAll(ss) + rest, before)
    ensures Parse(commands, EncodeAll(ss) + rest, before) == Parse(commands, rest, before + ss)
    decreases |ss|
  {
    if ss == [] {
      assert before + [] == before && [] + rest == rest;
    } else {
      var s := ss[0];
      assert !UsesTag(before, s.tag) by {
        forall k | 0 <= k < |before| ensures before[k].tag != s.tag {
          assert (before + ss)[k] == before[k] && (before + ss)[|before|] == s;
        }
      }
      assert (before + [s]) + ss[1..] == before + ss;
      ParseEncoded(commands, before + [s], ss[1..], rest);
      ParseOne(commands, before, s, EncodeAll(ss[1..]) + rest);
      EncodeAllFront(ss, rest);
    }
  }

  /** Segments with distinct tags come back as they were. */
  lemma RoundTrip(commands: CommandTable, ss: seq<Segment>)
    requires AllRegistered(commands, ss) && DistinctTags(ss)
    ensures Readable(commands, EncodeAll(ss), [])
    ensures Parse(commands, EncodeAll(ss), []) == Created(ss)
  {
    assert [] + ss == ss && EncodeAll(ss) + [] == EncodeAll(ss);
    ParseEncoded(commands, [], ss, []);
  }

  lemma {:induction false} EncodeAllSplit(ss: seq<Segment>, i: nat)
    requires i <= |ss|
    ensures EncodeAll(ss) == EncodeAll(ss[..i]) + EncodeAll(ss[i..])
  {
    if i == 0 {
      assert ss[..0] == [] && ss[0..] == ss && [] + EncodeAll(ss) == EncodeAll(ss);
    } else {
      EncodeAllSplit(ss[1..], i - 1);
      assert ss[1..][..i - 1] == ss[..i][1..] && ss[1..][i - 1..] == ss[i..];
      EncodeAllFront(ss[..i], EncodeAll(ss[i..]));
    }
  }

  /** The first segment whose tag repeats an earlier one is reported, and nothing after it is looked at. */
  lemma FirstRepeatIsReported(commands: CommandTable, ss: seq<Segment>, i: nat, rest: seq<Byte>)
    requires i < |ss| && AllRegistered(commands, ss)
    requires DistinctTags(ss[..i]) && exists k :: 0 <= k < i && ss[k].tag == ss[i].tag
    ensures Readable(commands, EncodeAll(ss) + rest, [])
    ensures Parse(commands, EncodeAll(ss) + rest, []) == Failed(DupSequenceNumber(i))
  {
    var tail := EncodeAll(ss[i..]) + rest;
    var k :| 0 <= k < i && ss[k].tag == ss[i].tag;
    assert ss[..i][k].tag == ss[i].tag;
    EncodeAllSplit(ss, i);
    assert EncodeAll(ss) + rest == EncodeAll(ss[..i]) + tail;
    EncodeAllFront(ss[i..], rest);
    DecodeEncode(commands, ss[i], EncodeAll(ss[i..][1..]) + rest);
    assert [] + ss[..i] == ss[..i];
    ParseEncoded(commands, [], ss[..i], tail);
  }

  /** A segment of a command nobody registered is reported. */
  lemma UnknownIsReported(commands: CommandTable, ss: seq<Segment>, rest: seq<Byte>)
    requires AllRegistered(commands, ss) && DistinctTags(ss)
    requires rest != [] && !Known(commands, rest) && Readable(commands, rest, ss)
    ensures Readable(commands, EncodeAll(ss) + rest, [])
    ensures Parse(commands, EncodeAll(ss) + rest, []) == Failed(UnknownSegment(|ss|))
  {
    assert [] + ss == ss;
    ParseEncoded(commands, [], ss, rest);
  }

  // ----- Encoding undoes parsing -----

  /** What the parser read: registered segments with distinct tags, up to the end, a repeated tag, or an unknown segment. */
  ghost predicate Explains(commands: CommandTable, b: seq<Byte>, ss: seq<Segment>, rest: seq<Byte>, r: Result) {
    && b == EncodeAll(ss) + rest && AllRegistered(commands, ss) && DistinctTags(ss)
    && match r
       case Created(segments) => segments == ss && rest == []
       case Failed(UnknownSegment(i)) => i == |ss| && rest != [] && !Known(commands, rest)
       case Failed(DupSequenceNumber(i)) =>
         i == |ss| && Known(commands, rest) && LengthOf(commands, rest) <= |rest|
         && exists k :: 0 <= k < |ss| && ss[k].tag == Decode(commands, rest).tag
       case _ => false
  }

  lemma DistinctTagsAppend(ss: seq<Segment>, s: Segment)
    requires DistinctTags(ss) && !UsesTag(ss, s.tag)
    ensures DistinctTags(ss + [s])
  {
  }

  lemma ReadOneMore(commands: CommandTable, before: seq<Segment>, rest: seq<Byte>)
    requires AllRegistered(commands, before) && DistinctTags(before)
    requires Known(commands, rest) && LengthOf(commands, rest) <= |rest| && !UsesTag(before, Decode(commands, rest).tag)
    ensures var now := before + [Decode(commands, rest)];
      && AllRegistered(commands, now) && DistinctTags(now)
      && EncodeAll(now) + rest[LengthOf(commands, rest)..] == EncodeAll(before) + rest
  {
    var s := Decode(commands, rest);
    var n := LengthOf(commands, rest);
    EncodeDecode(commands, rest);
    DistinctTagsAppend(before, s);
    EncodeAllSplit(before + [s], |before|);
    assert (before + [s])[..|before|] == before && (before + [s])[|before|..] == [s];
    assert EncodeAll([s]) == Encode(s) + EncodeAll([]) == Encode(s);
    assert rest == rest[..n] + rest[n..];
  }

  lemma {:induction false} ParseExplained(commands: CommandTable, b: seq<Byte>, before: seq<Segment>, rest: seq<Byte>)
      returns (ss: seq<Segment>, left: seq<Byte>)
    requires Readable(commands, rest, before)
    requires b == EncodeAll(before) + rest && AllRegistered(commands, before) && DistinctTags(before)
    ensures Explains(commands, b, ss, left, Parse(commands, rest, before))
    decreases |rest|
  {
    if rest == [] || !Known(commands, rest) || UsesTag(before, Decode(commands, rest).tag) {
      ss, left := before, rest;
    } else {
      ReadOneMore(commands, before, rest);
      ss, left := ParseExplained(commands, b, before + [Decode(commands, rest)], rest[LengthOf(commands, rest)..]);
    }
  }

  /** The parser accepts exactly the encodings of registered segments with distinct tags, and gives those segments. */
  lemma AcceptsExactlyEncodings(commands: CommandTable, b: seq<Byte>, ss: seq<Segment>)
    requires Readable(commands, b, [])
    ensures Parse(commands, b, []) == Created(ss) <==>
      b == EncodeAll(ss) && AllRegistered(commands, ss) && DistinctTags(ss)
  {
    assert EncodeAll([]) + b == b;
    var read, left := ParseExplained(commands, b, [], b);
    assert EncodeAll(read) + [] == EncodeAll(read);
    if b == EncodeAll(ss) && AllRegistered(commands, ss) && DistinctTags(ss) {
      RoundTrip(commands, ss);
    }
  }

  // ----- The parser -----

  /** The length of the data of the command whose segment comes next, if there is such a command. */
  method FindSegmentCommand(commands: CommandTable, b: seq<Byte>, ghost before: seq<Segment>) returns (length: Option<nat>)
    requires b != [] && Readable(commands, b, before)
    ensures length == if Known(commands, b) then Some(commands[WordAt(b, 4)]) else None
  {
    if b[0] != MAGIC[0] || b[1] != MAGIC[1] || b[2] != MAGIC[2] || b[3] != MAGIC[3] {
      return None;
    }
    assert b[..4] == MAGIC;
    var id := WordAt(b, 4);
    if id !in commands {
      return None;
    }
    return Some(commands[id]);
  }

  /** Does the last segment's tag repeat an earlier one? */
  method CheckForDuplicateSegmentIds(segments: seq<Segment>) returns (found: bool)
    requires segments != []
    ensures found <==> UsesTag(segments[..|segments| - 1], segments[|segments| - 1].tag)
  {
    var tail := segments[|segments| - 1];
    for i := 0 to |segments| - 1
      invariant forall k :: 0 <= k < i ==> segments[k].tag != tail.tag
    {
      if segments[i].tag == tail.tag {
        assert segments[..|segments| - 1][i].tag == tail.tag;
        return true;
      }
    }
    return false;
  }

  /** The first segment whose own check objects is reported. */
  ghost predicate IsVerdict(segments: seq<Segment>, validate: (seq<Segment>, nat) -> Option<int>, r: Result) {
    match r
    case Created(ss) => ss == segments && forall i :: 0 <= i < |ss| ==> validate(segments, i) == None
    case Failed(Invalid(i, why)) =>
      i < |segments| && validate(segments, i) == Some(why) && forall k :: 0 <= k < i ==> validate(segments, k) == None
    case _ => false
  }

  method ValidateAllSegments(segments: seq<Segment>, validate: (seq<Segment>, nat) -> Option<int>) returns (r: Result)
    ensures IsVerdict(segments, validate, r)
  {
    for i := 0 to |segments|
      invariant forall k :: 0 <= k < i ==> validate(segments, k) == None
    {
      var answer := validate(segments, i);
      if answer.Some? {
        return Failed(Invalid(i, answer.value));
      }
    }
    return Created(segments);
  }

  method SeCreateSegmentList(commands: CommandTable, data: seq<Byte>, validate: (seq<Segment>, nat) -> Option<int>)
    returns (r: Result)
    requires Readable(commands, data, [])
    ensures data == [] ==> r == Failed(InvalidParameters)
    ensures data != [] ==> match Parse(commands, data, [])
      case Created(segments) => IsVerdict(segments, validate, r)
      case Failed(_) => r == Parse(commands, data, [])
  {
    if |data| == 0 {
      return Failed(InvalidParameters);
    }
    var b, segments := data, [];
    while |b| > 0
      invariant Readable(commands, b, segments) && Parse(commands, b, segments) == Parse(commands, data, [])
    {
      var command := FindSegmentCommand(commands, b, segments);
      if command == None {
        return Failed(UnknownSegment(|segments|));
      }
      var length := HEADER + command.value;
      segments := segments + [Segment(WordAt(b, 4), WordAt(b, 8), b[HEADER..length])];
      var duplicate := CheckForDuplicateSegmentIds(segments);
      if duplicate {
        return Failed(DupSequenceNumber(|segments| - 1));
      }
      b := b[length..];
    }
    r := ValidateAllSegments(segments, validate);
  }
}
