/** The data message: its layout, its constructor, and the setters that patch it in place. */
module DataMessages {
  import opened ChunkIds
  import opened Messages

  const OPCODE_DATA: nat := 4
  const MESSAGE_DATA_HEADER_SIZE: nat := 22

  /** HOP, TRIES, CHUNKUID.Cycle, CHUNKUID.Position, GENERATIONTIMESTAMP, TIMEDURATION */
  const DATA_LAYOUT: seq<nat> := [8, 8, 32, 16, 32, 32]

  lemma DataOffsets()
    ensures ValidLayout(DATA_LAYOUT)
    ensures Offset(DATA_LAYOUT, 0) == 0 && Offset(DATA_LAYOUT, 1) == 1 && Offset(DATA_LAYOUT, 2) == 2
    ensures Offset(DATA_LAYOUT, 3) == 6 && Offset(DATA_LAYOUT, 4) == 8 && Offset(DATA_LAYOUT, 5) == 12
    ensures End(DATA_LAYOUT, 6) == 16
  {
    assert End(DATA_LAYOUT, 1) == 1 && End(DATA_LAYOUT, 2) == 2 && End(DATA_LAYOUT, 3) == 6;
    assert End(DATA_LAYOUT, 4) == 8 && End(DATA_LAYOUT, 5) == 12;
  }

  lemma HeaderOffsets()
    ensures ValidLayout(MESSAGE_HEADER_LAYOUT) && End(MESSAGE_HEADER_LAYOUT, 4) == 6
    ensures Offset(MESSAGE_HEADER_LAYOUT, 0) == 0 && Offset(MESSAGE_HEADER_LAYOUT, 1) == 1
    ensures Offset(MESSAGE_HEADER_LAYOUT, 2) == 2 && Offset(MESSAGE_HEADER_LAYOUT, 3) == 4
  {
    assert End(MESSAGE_HEADER_LAYOUT, 1) == 1 && End(MESSAGE_HEADER_LAYOUT, 2) == 2;
    assert End(MESSAGE_HEADER_LAYOUT, 3) == 4;
  }

  /** A buffer that holds a data message: the header-size byte says so. */
  predicate IsDataMessage(b: Bytes) {
    |b| >= MESSAGE_DATA_HEADER_SIZE && b[1] == MESSAGE_DATA_HEADER_SIZE
  }

  /** The six header values, as `GetHeaderValues` returns them. */
  function HeaderValues(b: Bytes): (r: seq<int>)
    requires |b| >= MESSAGE_DATA_HEADER_SIZE
    ensures |r| == 6
    ensures r[0] == ReadField(b, 6, 8) && r[1] == ReadField(b, 7, 8) && r[2] == ReadField(b, 8, 32)
    ensures r[3] == ReadField(b, 12, 16) && r[4] == ReadField(b, 14, 32) && r[5] == ReadField(b, 18, 32)
  {
    DataOffsets();
    Decoded(b, MESSAGE_HEADER_SIZE, DATA_LAYOUT)
  }

  /** The header values read the 16 bytes after the message header and nothing else. */
  lemma HeaderValuesFrame(b: Bytes, b': Bytes)
    requires |b| >= MESSAGE_DATA_HEADER_SIZE && |b'| == |b|
    requires forall k :: 6 <= k < 22 ==> b'[k] == b[k]
    ensures HeaderValues(b') == HeaderValues(b)
  {
    hide Join, Join4, Signed, Decoded;
    SameField(b, b', 6, 8);
    SameField(b, b', 7, 8);
    SameField(b, b', 8, 32);
    SameField(b, b', 12, 16);
    SameField(b, b', 14, 32);
    SameField(b, b', 18, 32);
    hide ReadField, HeaderValues;
    assert HeaderValues(b') == HeaderValues(b);
  }

  lemma SameField(b: Bytes, b': Bytes, o: nat, width: nat)
    requires IsWidth(width) && o + width / 8 <= |b| == |b'|
    requires forall k :: o <= k < o + width / 8 ==> b'[k] == b[k]
    ensures ReadField(b', o, width) == ReadField(b, o, width)
  {
    hide Join, Join4, Signed;
  }

  lemma PatchHop(b: Bytes, v: Byte)
    requires |b| >= MESSAGE_DATA_HEADER_SIZE
    ensures HeaderValues(b[6 := v]) == HeaderValues(b)[0 := v as int]
  {}

  lemma PatchTries(b: Bytes, v: Byte)
    requires |b| >= MESSAGE_DATA_HEADER_SIZE
    ensures HeaderValues(b[7 := v]) == HeaderValues(b)[1 := v as int]
  {}

  lemma PatchDuration(b: Bytes, v: nat)
    requires |b| >= MESSAGE_DATA_HEADER_SIZE
    ensures HeaderValues(WriteField(b, 18, 32, v)) == HeaderValues(b)[5 := FieldValue(v, 32)]
  {
    ReadAfterWrite(b, 18, 32, v);
    hide FieldValue;
    var r := WriteField(b, 18, 32, v);
    assert ReadField(r, 6, 8) == ReadField(b, 6, 8) && ReadField(r, 7, 8) == ReadField(b, 7, 8);
    ReadElsewhere(b, 18, 32, v, 8, 32);
    ReadElsewhere(b, 18, 32, v, 12, 16);
    ReadElsewhere(b, 18, 32, v, 14, 32);
  }

  /** A cycle number survives the trip through an `int` field. */
  lemma CycleRoundTrip(cycle: nat)
    requires cycle < 0x1_0000_0000
    ensures FieldValue(cycle, 32) % 0x1_0000_0000 == cycle
  {}

  /** What a node forwards: a received chunk with hop and tries updated, sealed again. The check
    * passes and every other field, and the body, is what was received. */
  lemma ForwardedChunk(b: Bytes, tries: Byte, hop: Byte)
    requires IsDataMessage(b)
    ensures var f := Sealed(b[7 := tries][6 := hop]);
            && ValidMessage(f) && Intact(f)
            && HeaderValues(f) == HeaderValues(b)[1 := tries as int][0 := hop as int]
            && f[MESSAGE_DATA_HEADER_SIZE..] == b[MESSAGE_DATA_HEADER_SIZE..]
  {
    var p := b[7 := tries][6 := hop];
    SealedIsIntact(p);
    PatchTries(b, tries);
    PatchHop(b[7 := tries], hop);
    hide Intact, HeaderValues;
    HeaderValuesFrame(p, Sealed(p));
  }

  /** Assembling the message header and then the data header. */
  lemma AssembledData(b: Bytes, header: seq<int>, data: seq<int>)
    requires |b| >= MESSAGE_DATA_HEADER_SIZE && |header| == 4 && |data| == 6 && header[1] == MESSAGE_DATA_HEADER_SIZE
    requires ValidLayout(MESSAGE_HEADER_LAYOUT) && ValidLayout(DATA_LAYOUT)
    requires End(MESSAGE_HEADER_LAYOUT, 4) == 6 && End(DATA_LAYOUT, 6) == 16
    ensures var r := Assembled(Assembled(b, 0, MESSAGE_HEADER_LAYOUT, header, 4), 6, DATA_LAYOUT, data, 6);
            && r[1] == MESSAGE_DATA_HEADER_SIZE
            && HeaderValues(r) == seq(6, i requires 0 <= i < 6 => FieldValue(data[i], DATA_LAYOUT[i]))
  {
    var r0 := Assembled(b, 0, MESSAGE_HEADER_LAYOUT, header, 4);
    HeaderOffsets();
    AssembledField(b, 0, MESSAGE_HEADER_LAYOUT, header, 4, 1);
    assert r0[1] == MESSAGE_DATA_HEADER_SIZE;
    hide FieldValue, Assembled;
    AssembledFrame(r0, 6, DATA_LAYOUT, data, 6, 1);
    RoundTrip(r0, 6, DATA_LAYOUT, data);
  }

  /** And the message header stays as it was assembled. */
  lemma AssembledHeader(b: Bytes, header: seq<int>, data: seq<int>, i: nat)
    requires |b| >= MESSAGE_DATA_HEADER_SIZE && |header| == 4 && |data| == 6 && i < 4
    requires ValidLayout(MESSAGE_HEADER_LAYOUT) && ValidLayout(DATA_LAYOUT)
    requires End(MESSAGE_HEADER_LAYOUT, 4) == 6 && End(DATA_LAYOUT, 6) == 16
    ensures var r := Assembled(Assembled(b, 0, MESSAGE_HEADER_LAYOUT, header, 4), 6, DATA_LAYOUT, data, 6);
            DecodedField(r, 0, MESSAGE_HEADER_LAYOUT, i) == FieldValue(header[i], MESSAGE_HEADER_LAYOUT[i])
  {
    hide Assembled, FieldValue, DecodedField;
    var r0 := Assembled(b, 0, MESSAGE_HEADER_LAYOUT, header, 4);
    AssembledField(b, 0, MESSAGE_HEADER_LAYOUT, header, 4, i);
    forall k: nat | k < 6
      ensures Assembled(r0, 6, DATA_LAYOUT, data, 6)[k] == r0[k]
    {
      AssembledFrame(r0, 6, DATA_LAYOUT, data, 6, k);
    }
    SameHeaderField(r0, Assembled(r0, 6, DATA_LAYOUT, data, 6), i);
  }

  lemma SameHeaderField(b: Bytes, b': Bytes, i: nat)
    requires |b'| == |b| >= 6 && i < 4 && forall k :: 0 <= k < 6 ==> b'[k] == b[k]
    requires ValidLayout(MESSAGE_HEADER_LAYOUT) && End(MESSAGE_HEADER_LAYOUT, 4) == 6
    ensures DecodedField(b', 0, MESSAGE_HEADER_LAYOUT, i) == DecodedField(b, 0, MESSAGE_HEADER_LAYOUT, i)
  {
    HeaderOffsets();
    hide Offset, Join, Join4;
  }

  /** The message header of a data message with a body of this size, before it is sealed: the opcode, the size of both
    * headers, the 16-bit body size and an empty checksum. */
  predicate HasDataHeader(b: Bytes, bodySize: nat) {
    |b| >= 6 && b[0] == 4 && b[1] == 22 && Join(b[2], b[3]) == bodySize % 0x1_0000 && b[4] == 0 && b[5] == 0
  }

  lemma HeaderFields(b: Bytes, bodySize: nat)
    requires |b| >= 6 && ValidLayout(MESSAGE_HEADER_LAYOUT) && End(MESSAGE_HEADER_LAYOUT, 4) == 6
    requires forall i :: 0 <= i < 4 ==>
               DecodedField(b, 0, MESSAGE_HEADER_LAYOUT, i)
               == FieldValue([4, 22, bodySize, 0][i], MESSAGE_HEADER_LAYOUT[i])
    ensures HasDataHeader(b, bodySize)
  {
    HeaderOffsets();
    hide Offset, End;
    assert b[0] == DecodedField(b, 0, MESSAGE_HEADER_LAYOUT, 0) && b[1] == DecodedField(b, 0, MESSAGE_HEADER_LAYOUT, 1);
    assert Join(b[2], b[3]) == DecodedField(b, 0, MESSAGE_HEADER_LAYOUT, 2);
    assert Join(b[4], b[5]) == DecodedField(b, 0, MESSAGE_HEADER_LAYOUT, 3);
  }

  lemma AssembledHasHeader(b: Bytes, bodySize: nat, data: seq<int>)
    requires |b| >= MESSAGE_DATA_HEADER_SIZE && |data| == 6
    requires ValidLayout(MESSAGE_HEADER_LAYOUT) && ValidLayout(DATA_LAYOUT)
    requires End(MESSAGE_HEADER_LAYOUT, 4) == 6 && End(DATA_LAYOUT, 6) == 16
    ensures var r0 := Assembled(b, 0, MESSAGE_HEADER_LAYOUT, [4, 22, bodySize, 0], 4);
            HasDataHeader(Assembled(r0, 6, DATA_LAYOUT, data, 6), bodySize)
  {
    hide Assembled, FieldValue, DecodedField, HasDataHeader;
    var r0 := Assembled(b, 0, MESSAGE_HEADER_LAYOUT, [4, 22, bodySize, 0], 4);
    var r := Assembled(r0, 6, DATA_LAYOUT, data, 6);
    forall i | 0 <= i < 4
      ensures DecodedField(r, 0, MESSAGE_HEADER_LAYOUT, i)
              == FieldValue([4, 22, bodySize, 0][i], MESSAGE_HEADER_LAYOUT[i])
    {
      AssembledHeader(b, [4, 22, bodySize, 0], data, i);
    }
    HeaderFields(r, bodySize);
  }

  class MessageData {
    const message: Message
    const firstByte: array<Byte>

    ghost predicate Valid()
      reads firstByte
    {
      message.firstByte == firstByte && IsDataMessage(firstByte[..])
    }

    function Content(): Bytes
      reads firstByte
    {
      firstByte[..]
    }

    constructor (bodySize: nat, hop: Byte, tries: Byte, chunkuid: ChunkId, generationTime: nat, estimatedDuration: nat)
      requires chunkuid.Valid()
      ensures Valid() && fresh(firstByte) && firstByte.Length == MESSAGE_DATA_HEADER_SIZE + bodySize
      ensures HeaderValues(Content()) ==
              [hop as int, tries as int, FieldValue(chunkuid.cycle, 32), chunkuid.position,
               FieldValue(generationTime, 32), FieldValue(estimatedDuration, 32)]
      ensures HasDataHeader(Content(), bodySize)
    {
      hide HasDataHeader;
      hide HeaderValues, Assembled, FieldValue;
      var data := [hop as int, tries as int, chunkuid.cycle, chunkuid.position, generationTime, estimatedDuration];
      var m := new Message(MESSAGE_DATA_HEADER_SIZE + bodySize);
      HeaderOffsets();
      DataOffsets();
      AssembledData(m.Content(), [OPCODE_DATA, MESSAGE_DATA_HEADER_SIZE, bodySize, 0], data);
      AssembledHasHeader(m.Content(), bodySize, data);
      var headerSize := m.AssembleHeaderValues(0, MESSAGE_HEADER_LAYOUT,
                                               [OPCODE_DATA, MESSAGE_DATA_HEADER_SIZE, bodySize, 0]);
      var _ := m.AssembleHeaderValues(headerSize, DATA_LAYOUT, data);
      SmallFields(hop, tries, chunkuid.position);
      message := m;
      firstByte := m.firstByte;
    }

    static lemma SmallFields(hop: Byte, tries: Byte, position: nat)
      requires position < 0x1_0000
      ensures FieldValue(hop, 8) == hop && FieldValue(tries, 8) == tries && FieldValue(position, 16) == position
    {}

    method SetHop(hop: Byte)
      requires Valid()
      modifies firstByte
      ensures Valid() && Content() == old(Content())[6 := hop]
      ensures HeaderValues(Content()) == old(HeaderValues(Content()))[0 := hop as int]
    {
      PatchHop(Content(), hop);
      hide HeaderValues;
      message.SetCodedByteValue(MESSAGE_HEADER_SIZE + 0, hop);
    }

    method SetTries(tries: Byte)
      requires Valid()
      modifies firstByte
      ensures Valid() && Content() == old(Content())[7 := tries]
      ensures HeaderValues(Content()) == old(HeaderValues(Content()))[1 := tries as int]
    {
      PatchTries(Content(), tries);
      hide HeaderValues;
      message.SetCodedByteValue(MESSAGE_HEADER_SIZE + 1, tries);
    }

    method SetDuration(duration: nat)
      requires Valid()
      modifies firstByte
      ensures Valid() && Content() == WriteField(old(Content()), 18, 32, duration)
      ensures HeaderValues(Content()) == old(HeaderValues(Content()))[5 := FieldValue(duration, 32)]
    {
      PatchDuration(Content(), duration);
      ghost var before := Content();
      hide HeaderValues, FieldValue;
      assert End([32], 1) == 4 && Offset([32], 0) == 0;
      assert Assembled(before, 18, [32], [duration], 1) == WriteField(before, 18, 32, duration) by {
        assert Assembled(before, 18, [32], [duration], 0) == before;
      }
      var _ := message.AssembleHeaderValues(MESSAGE_HEADER_SIZE + 12, [32], [duration]);
    }

    /** Copies the media into the body; the header stays. */
    method SetMedia(buffer: seq<Byte>)
      requires Valid()
      requires Join(firstByte[2], firstByte[3]) <= |buffer|
      requires MESSAGE_DATA_HEADER_SIZE + Join(firstByte[2], firstByte[3]) <= firstByte.Length
      modifies firstByte
      ensures Valid()
      ensures var n := Join(old(firstByte[2]), old(firstByte[3]));
              Content() == old(Content())[..22] + buffer[..n] + old(Content())[22 + n..]
    {
      ghost var n := Join(firstByte[2], firstByte[3]);
      var i := 0;
      while i < Join(firstByte[2], firstByte[3])
        invariant 0 <= i <= n == Join(firstByte[2], firstByte[3]) && firstByte[1] == 22
        invariant forall k :: 0 <= k < firstByte.Length ==>
                    firstByte[k] == if 22 <= k < 22 + i then buffer[k - 22] else old(firstByte[k])
      {
        firstByte[firstByte[1] + i] := buffer[i];
        i := i + 1;
      }
    }

    /** Hop, tries and integrity, as `HandleDataMessage` updates them before storing the chunk. */
    method UpdateForForwarding(tries: Byte, hop: Byte)
      requires Valid()
      modifies firstByte
      ensures Valid() && ValidMessage(Content()) && Intact(Content())
      ensures HeaderValues(Content()) == old(HeaderValues(Content()))[1 := tries as int][0 := hop as int]
      ensures Content()[22..] == old(Content())[22..]
    {
      ForwardedChunk(Content(), tries, hop);
      hide HeaderValues, Intact, Sealed;
      SetTries(tries);
      SetHop(hop);
      message.SetIntegrity();
    }
  }
}
