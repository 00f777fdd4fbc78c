/** The wire format: header layouts, their encoding into bytes, and the checksum. Host order is
  * little-endian. */
module Messages {
  import opened Arith

  type Byte = x: int | 0 <= x < 256
  type Bytes = seq<Byte>

  const MESSAGE_HEADER_SIZE: nat := 6
  const MESSAGE_HEADER_LAYOUT: seq<nat> := [8, 8, 16, 16]

  /** A little-endian 16-bit word. */
  function Join(low: Byte, high: Byte): (w: nat)
    ensures w < 0x1_0000 && w % 256 == low && w / 256 == high
  {
    (low as int) + 256 * (high as int)
  }

  /** A little-endian 32-bit word. */
  function Join4(b0: Byte, b1: Byte, b2: Byte, b3: Byte): (w: nat)
    ensures w < 0x1_0000_0000
  {
    Join(b0, b1) + 0x1_0000 * Join(b2, b3)
  }

  // ---------- Layouts ----------

  /** A header layout: the field widths in bits. */
  predicate ValidLayout(sizes: seq<nat>) {
    forall i :: 0 <= i < |sizes| ==> IsWidth(sizes[i])
  }

  predicate IsWidth(width: nat) {
    width == 8 || width == 16 || width == 32
  }

  /** Wider fields start at an even offset. */
  function Align(offset: nat, width: nat): nat {
    if width != 8 && offset % 2 != 0 then offset + 1 else offset
  }

  /** The offset after the first `n` fields. */
  function End(sizes: seq<nat>, n: nat): nat
    requires n <= |sizes|
  {
    if n == 0 then 0 else Align(End(sizes, n - 1), sizes[n - 1]) + sizes[n - 1] / 8
  }

  function Offset(sizes: seq<nat>, i: nat): nat
    requires i < |sizes|
  {
    Align(End(sizes, i), sizes[i])
  }

  lemma {:induction false} EndGrows(sizes: seq<nat>, i: nat, j: nat)
    requires i <= j <= |sizes|
    ensures End(sizes, i) <= End(sizes, j)
  {
    if i < j {
      EndGrows(sizes, i, j - 1);
    }
  }

  /** Fields do not overlap, keep their order, and stay within the header. */
  lemma FieldsAreDisjoint(sizes: seq<nat>, i: nat, j: nat)
    requires i < j < |sizes|
    ensures Offset(sizes, i) + sizes[i] / 8 <= Offset(sizes, j)
    ensures Offset(sizes, j) + sizes[j] / 8 <= End(sizes, |sizes|)
  {
    EndGrows(sizes, i + 1, j);
    EndGrows(sizes, j + 1, |sizes|);
  }

  /** A layout that extends another one puts the common fields at the same offsets. */
  lemma {:induction false} PrefixOffsets(sizes: seq<nat>, more: seq<nat>, n: nat)
    requires sizes <= more && n <= |sizes|
    ensures End(more, n) == End(sizes, n)
  {
    if n > 0 {
      PrefixOffsets(sizes, more, n - 1);
      assert more[n - 1] == sizes[n - 1];
    }
  }

  // ---------- Field values ----------

  /** Byte `k` of the 32-bit two's complement of `v`. */
  function ByteOf(v: int, k: nat): Byte
    requires k < 4
  {
    if k == 0 then v % 256
    else if k == 1 then v / 256 % 256
    else if k == 2 then v / 0x1_0000 % 256
    else v / 0x1_0000 / 256 % 256
  }

  function Signed(v: nat): int {
    if v < 0x8000_0000 then v else v - 0x1_0000_0000
  }

  /** What a field of this width can carry of an `int`, read back as an `int`. */
  function FieldValue(v: int, width: nat): int
  {
    if width == 8 then v % 256 else if width == 16 then v % 0x1_0000 else Signed(v % 0x1_0000_0000)
  }

  function ReadField(b: Bytes, o: nat, width: nat): int
    requires IsWidth(width) && o + width / 8 <= |b|
  {
    if width == 8 then b[o]
    else if width == 16 then Join(b[o], b[o + 1])
    else Signed(Join4(b[o], b[o + 1], b[o + 2], b[o + 3]))
  }

  function FieldBytes(v: int, width: nat): (r: Bytes)
    requires IsWidth(width)
    ensures |r| == width / 8 && forall k :: 0 <= k < |r| ==> r[k] == ByteOf(v, k)
  {
    if width == 8 then [ByteOf(v, 0)]
    else if width == 16 then [ByteOf(v, 0), ByteOf(v, 1)]
    else [ByteOf(v, 0), ByteOf(v, 1), ByteOf(v, 2), ByteOf(v, 3)]
  }

  function WriteField(b: Bytes, o: nat, width: nat, v: int): (r: Bytes)
    requires IsWidth(width) && o + width / 8 <= |b|
    ensures |r| == |b|
    ensures forall k :: 0 <= k < |b| ==> r[k] == if o <= k < o + width / 8 then ByteOf(v, k - o) else b[k]
  {
    b[..o] + FieldBytes(v, width) + b[o + width / 8..]
  }

  lemma LowHalf(v: int)
    ensures Join(v % 256, v / 256 % 256) == v % 0x1_0000
  {}

  lemma TwoHalves(v: int)
    ensures v % 0x1_0000 + 0x1_0000 * (v / 0x1_0000 % 0x1_0000) == v % 0x1_0000_0000
  {}

  lemma BytesOfInt(v: int)
    ensures Join(ByteOf(v, 0), ByteOf(v, 1)) == v % 0x1_0000
    ensures Join4(ByteOf(v, 0), ByteOf(v, 1), ByteOf(v, 2), ByteOf(v, 3)) == v % 0x1_0000_0000
  {
    LowHalf(v);
    LowHalf(v / 0x1_0000);
    TwoHalves(v);
    hide Join;
  }

  lemma ReadAfterWrite(b: Bytes, o: nat, width: nat, v: int)
    requires IsWidth(width) && o + width / 8 <= |b|
    ensures ReadField(WriteField(b, o, width, v), o, width) == FieldValue(v, width)
  {
    BytesOfInt(v);
  }

  lemma ReadElsewhere(b: Bytes, o: nat, width: nat, v: int, o': nat, width': nat)
    requires IsWidth(width) && o + width / 8 <= |b| && IsWidth(width') && o' + width' / 8 <= |b|
    requires o' + width' / 8 <= o || o + width / 8 <= o'
    ensures ReadField(WriteField(b, o, width, v), o', width') == ReadField(b, o', width')
  {
    hide Join, Join4, Signed;
  }

  /** What goes over the wire: the low byte of a field comes first, and a negative number is its two's complement. */
  lemma FieldOnTheWire(v: int)
    ensures 0 <= v < 0x1_0000 ==> FieldBytes(v, 16) == [v % 256, v / 256]
    ensures 0 <= v < 0x1_0000_0000 ==> IsSumOf(v, FieldBytes(v, 32))
    ensures FieldBytes(-2, 32) == [254, 255, 255, 255]
  {
    hide ByteOf, IsSumOf, FieldBytes;
    if 0 <= v < 0x1_0000 {
      ShortOnTheWire(v);
    }
    if 0 <= v < 0x1_0000_0000 {
      LongOnTheWire(v);
    }
    NegativeOnTheWire();
  }

  /** The number with these bytes, the low one first. */
  predicate IsSumOf(v: int, b: Bytes) {
    |b| == 4 && v == (b[0] as int) + 0x100 * (b[1] as int) + 0x1_0000 * (b[2] as int) + 0x100_0000 * (b[3] as int)
  }

  lemma ShortOnTheWire(v: int)
    requires 0 <= v < 0x1_0000
    ensures FieldBytes(v, 16) == [v % 256, v / 256]
  {}

  lemma LongOnTheWire(v: int)
    requires 0 <= v < 0x1_0000_0000
    ensures IsSumOf(v, FieldBytes(v, 32))
  {
    hide ByteOf, Join, Join4;
    BytesOfInt(v);
    WordIsSum(ByteOf(v, 0), ByteOf(v, 1), ByteOf(v, 2), ByteOf(v, 3));
    SmallRemainder(v);
  }

  lemma SmallRemainder(v: int)
    requires 0 <= v < 0x1_0000_0000
    ensures v % 0x1_0000_0000 == v
  {}

  lemma NegativeOnTheWire()
    ensures FieldBytes(-2, 32) == [254, 255, 255, 255]
  {}

  lemma WordIsSum(b0: Byte, b1: Byte, b2: Byte, b3: Byte)
    ensures Join4(b0, b1, b2, b3)
            == (b0 as int) + 0x100 * (b1 as int) + 0x1_0000 * (b2 as int) + 0x100_0000 * (b3 as int)
  {}

  /** Wider fields are aligned to pairs of bytes. */
  lemma WiderFieldsAreAligned()
    ensures Offset([8, 16, 8, 32], 0) == 0 && Offset([8, 16, 8, 32], 1) == 2 && Offset([8, 16, 8, 32], 2) == 4
    ensures Offset([8, 16, 8, 32], 3) == 6 && End([8, 16, 8, 32], 4) == 10
  {
    assert End([8, 16, 8, 32], 1) == 1 && End([8, 16, 8, 32], 2) == 4 && End([8, 16, 8, 32], 3) == 5;
  }

  // ---------- Whole headers ----------

  /** The buffer after the first `n` fields have been written from `from` on. */
  function Assembled(b: Bytes, from: nat, sizes: seq<nat>, data: seq<int>, n: nat): (r: Bytes)
    requires ValidLayout(sizes) && n <= |sizes| <= |data| && from + End(sizes, n) <= |b|
    ensures |r| == |b|
  {
    if n == 0 then b
    else WriteField(Assembled(b, from, sizes, data, n - 1), from + Offset(sizes, n - 1), sizes[n - 1], data[n - 1])
  }

  function Decoded(b: Bytes, from: nat, sizes: seq<nat>): (r: seq<int>)
    requires ValidLayout(sizes) && from + End(sizes, |sizes|) <= |b|
    ensures |r| == |sizes|
  {
    seq(|sizes|, i requires 0 <= i < |sizes| => DecodedField(b, from, sizes, i))
  }

  function DecodedField(b: Bytes, from: nat, sizes: seq<nat>, i: nat): int
    requires ValidLayout(sizes) && from + End(sizes, |sizes|) <= |b| && i < |sizes|
  {
    EndGrows(sizes, i + 1, |sizes|);
    ReadField(b, from + Offset(sizes, i), sizes[i])
  }

  lemma FieldFits(sizes: seq<nat>, i: nat, n: nat)
    requires i < n <= |sizes|
    ensures Offset(sizes, i) + sizes[i] / 8 <= End(sizes, n)
  {
    EndGrows(sizes, i + 1, n);
  }

  /** The field just written reads back as its value. */
  lemma LastField(b: Bytes, from: nat, sizes: seq<nat>, data: seq<int>, n: nat)
    requires ValidLayout(sizes) && 0 < n <= |sizes| <= |data| && from + End(sizes, |sizes|) <= |b|
    requires from + End(sizes, n) <= |b| && from + End(sizes, n - 1) <= |b|
    ensures DecodedField(Assembled(b, from, sizes, data, n), from, sizes, n - 1)
            == FieldValue(data[n - 1], sizes[n - 1])
  {
    FieldFits(sizes, n - 1, n);
    hide ReadField, WriteField, FieldValue, End, Align, Offset;
    ReadAfterWrite(Assembled(b, from, sizes, data, n - 1), from + Offset(sizes, n - 1), sizes[n - 1], data[n - 1]);
  }

  /** A field written elsewhere does not change what is decoded. */
  lemma WrittenElsewhere(b: Bytes, from: nat, sizes: seq<nat>, i: nat, o: nat, width: nat, v: int)
    requires ValidLayout(sizes) && i < |sizes| && from + End(sizes, |sizes|) <= |b|
    requires IsWidth(width) && o + width / 8 <= |b| && from + Offset(sizes, i) + sizes[i] / 8 <= o
    ensures DecodedField(WriteField(b, o, width, v), from, sizes, i) == DecodedField(b, from, sizes, i)
  {
    FieldFits(sizes, i, |sizes|);
    hide ReadField, WriteField, End, Align, Offset;
    ReadElsewhere(b, o, width, v, from + Offset(sizes, i), sizes[i]);
  }

  /** Writing a field leaves the earlier ones alone. */
  lemma EarlierField(b: Bytes, b': Bytes, from: nat, sizes: seq<nat>, n: nat, i: nat, v: int)
    requires ValidLayout(sizes) && i + 1 < n <= |sizes| && from + End(sizes, |sizes|) <= |b|
    requires from + Offset(sizes, n - 1) + sizes[n - 1] / 8 <= |b|
    requires b' == WriteField(b, from + Offset(sizes, n - 1), sizes[n - 1], v)
    ensures DecodedField(b', from, sizes, i) == DecodedField(b, from, sizes, i)
  {
    hide DecodedField, WriteField, End, Align, Offset;
    FieldsAreDisjoint(sizes, i, n - 1);
    WrittenElsewhere(b, from, sizes, i, from + Offset(sizes, n - 1), sizes[n - 1], v);
  }

  lemma AssembledStep(b: Bytes, from: nat, sizes: seq<nat>, data: seq<int>, n: nat)
    requires ValidLayout(sizes) && 0 < n <= |sizes| <= |data|
    requires from + End(sizes, n) <= |b| && from + End(sizes, n - 1) <= |b|
    ensures IsWidth(sizes[n - 1]) && from + Offset(sizes, n - 1) + sizes[n - 1] / 8 <= |b|
    ensures Assembled(b, from, sizes, data, n)
            == WriteField(Assembled(b, from, sizes, data, n - 1), from + Offset(sizes, n - 1), sizes[n - 1],
                          data[n - 1])
  {
    FieldFits(sizes, n - 1, n);
    hide WriteField, Align;
  }

  /** Assembling one more field leaves the earlier ones alone. */
  lemma EarlierStays(b: Bytes, from: nat, sizes: seq<nat>, data: seq<int>, n: nat, i: nat)
    requires ValidLayout(sizes) && i + 1 < n <= |sizes| <= |data| && from + End(sizes, |sizes|) <= |b|
    requires from + End(sizes, n) <= |b| && from + End(sizes, n - 1) <= |b|
    ensures DecodedField(Assembled(b, from, sizes, data, n), from, sizes, i)
            == DecodedField(Assembled(b, from, sizes, data, n - 1), from, sizes, i)
  {
    hide Assembled, DecodedField, WriteField, End, Align, Offset;
    AssembledStep(b, from, sizes, data, n);
    EarlierField(Assembled(b, from, sizes, data, n - 1), Assembled(b, from, sizes, data, n), from, sizes, n, i,
                 data[n - 1]);
  }

  lemma {:induction false} AssembledField(b: Bytes, from: nat, sizes: seq<nat>, data: seq<int>, n: nat, i: nat)
    requires ValidLayout(sizes) && i < n <= |sizes| <= |data| && from + End(sizes, |sizes|) <= |b|
    requires from + End(sizes, n) <= |b|
    ensures DecodedField(Assembled(b, from, sizes, data, n), from, sizes, i) == FieldValue(data[i], sizes[i])
  {
    hide *;
    EndGrows(sizes, n - 1, n);
    if i == n - 1 {
      LastField(b, from, sizes, data, n);
    } else {
      AssembledField(b, from, sizes, data, n - 1, i);
      EarlierStays(b, from, sizes, data, n, i);
    }
  }

  /** Round trip: decoding an assembled header gives back every value, modulo its field's width. */
  lemma RoundTrip(b: Bytes, from: nat, sizes: seq<nat>, data: seq<int>)
    requires ValidLayout(sizes) && |sizes| <= |data| && from + End(sizes, |sizes|) <= |b|
    ensures Decoded(Assembled(b, from, sizes, data, |sizes|), from, sizes)
            == seq(|sizes|, i requires 0 <= i < |sizes| => FieldValue(data[i], sizes[i]))
  {
    forall i | 0 <= i < |sizes|
      ensures DecodedField(Assembled(b, from, sizes, data, |sizes|), from, sizes, i) == FieldValue(data[i], sizes[i])
    {
      AssembledField(b, from, sizes, data, |sizes|, i);
    }
  }

  /** Bytes outside the header's range keep their value. */
  lemma {:induction false} AssembledFrame(b: Bytes, from: nat, sizes: seq<nat>, data: seq<int>, n: nat, k: nat)
    requires ValidLayout(sizes) && n <= |sizes| <= |data| && from + End(sizes, n) <= |b|
    requires k < |b| && !(from <= k < from + End(sizes, n))
    ensures Assembled(b, from, sizes, data, n)[k] == b[k]
  {
    if n > 0 {
      EndGrows(sizes, n - 1, n);
      AssembledFrame(b, from, sizes, data, n - 1, k);
    }
  }

  lemma PrefixField(b: Bytes, from: nat, sizes: seq<nat>, more: seq<nat>, i: nat)
    requires ValidLayout(more) && ValidLayout(sizes) && sizes <= more && i < |sizes|
    requires from + End(more, |more|) <= |b| && from + End(sizes, |sizes|) <= |b|
    ensures DecodedField(b, from, more, i) == DecodedField(b, from, sizes, i)
  {
    hide ReadField, End;
    PrefixOffsets(sizes, more, i);
    assert more[i] == sizes[i];
  }

  /** Reading a derived message through its base class's layout gives the base fields. */
  lemma BaseView(b: Bytes, from: nat, sizes: seq<nat>, more: seq<nat>)
    requires ValidLayout(more) && sizes <= more && from + End(more, |more|) <= |b|
    ensures ValidLayout(sizes) && from + End(sizes, |sizes|) <= |b|
    ensures Decoded(b, from, more)[..|sizes|] == Decoded(b, from, sizes)
  {
    PrefixOffsets(sizes, more, |sizes|);
    EndGrows(more, |sizes|, |more|);
    assert forall i :: 0 <= i < |sizes| ==> sizes[i] == more[i];
    hide DecodedField, End;
    forall i | 0 <= i < |sizes|
      ensures DecodedField(b, from, more, i) == DecodedField(b, from, sizes, i)
    {
      PrefixField(b, from, sizes, more, i);
    }
  }

  // ---------- Checksum ----------

  function Word(b: Bytes, i: nat): nat
    requires 2 * i + 1 < |b|
  {
    Join(b[2 * i], b[2 * i + 1])
  }

  /** The sum of the first `n` words; the checksum keeps its low 16 bits. */
  function WordSum(b: Bytes, n: nat): nat
    requires 2 * n <= |b|
  {
    if n == 0 then 0 else WordSum(b, n - 1) + Word(b, n - 1)
  }

  /** The value left in a `uint16_t`. */
  function Low16(x: int): (r: nat)
    ensures r < 0x1_0000
  {
    x % 0x1_0000
  }

  lemma LowOfZero()
    ensures Low16(0) == 0
  {}

  lemma Low16Add(x: nat, y: nat)
    ensures Low16(Low16(x) + y) == Low16(x + y)
  {}

  lemma NextOfOnes(sum: nat)
    ensures Low16(sum + 1) == 0 <==> Low16(sum) == 0xFFFF
  {}

  lemma Complement(sum: nat)
    ensures Low16(sum + (0xFFFF - Low16(sum))) == 0xFFFF
  {
    DivModUnique(sum + (0xFFFF - sum % 0x1_0000), 0x1_0000, sum / 0x1_0000, 0xFFFF);
  }

  lemma OnesAfter(sum: nat, change: int)
    requires Low16(sum) == 0xFFFF
    ensures Low16(sum + change) == 0xFFFF <==> Low16(change) == 0
    ensures -0x1_0000 < change < 0x1_0000 ==> (Low16(change) == 0 <==> change == 0)
  {}

  /** Room for the message header, and for as much header as the header-size byte claims. */
  predicate ValidMessage(b: Bytes) {
    |b| >= MESSAGE_HEADER_SIZE && b[1] <= |b|
  }

  function CoveredWords(b: Bytes): (n: nat)
    requires ValidMessage(b)
    ensures 2 * n <= |b|
  {
    b[1] / 2
  }

  /** The sum of the words the checksum covers. */
  function CoveredSum(b: Bytes): nat
    requires ValidMessage(b)
  {
    WordSum(b, CoveredWords(b))
  }

  /** The covered words sum to all ones. */
  predicate Intact(b: Bytes)
    requires ValidMessage(b)
  {
    Low16(CoveredSum(b)) == 0xFFFF
  }

  function Sealed(b: Bytes): (r: Bytes)
    requires ValidMessage(b)
    ensures |r| == |b| && r[1] == b[1]
  {
    var checksum := 0xFFFF - Low16(CoveredSum(b[4 := 0][5 := 0]));
    b[4 := checksum % 256][5 := checksum / 256]
  }

  /** The two buffers differ at most in word `i`. */
  ghost predicate SameExceptWord(b: Bytes, b': Bytes, i: nat) {
    |b'| == |b| && 2 * i + 1 < |b| && forall k :: 0 <= k < |b| && k != 2 * i && k != 2 * i + 1 ==> b'[k] == b[k]
  }

  lemma {:induction false} SumAfterChange(b: Bytes, b': Bytes, i: nat, n: nat)
    requires 2 * n <= |b| && SameExceptWord(b, b', i)
    ensures WordSum(b', n) == WordSum(b, n) + if i < n then Word(b', i) - Word(b, i) else 0
  {
    hide Join;
    if n > 0 {
      SumAfterChange(b, b', i, n - 1);
    }
  }

  lemma CoveredSumAfterChange(b: Bytes, b': Bytes, i: nat)
    requires ValidMessage(b) && SameExceptWord(b, b', i) && b'[1] == b[1]
    ensures CoveredSum(b') == CoveredSum(b) + if i < CoveredWords(b) then Word(b', i) - Word(b, i) else 0
  {
    SumAfterChange(b, b', i, CoveredWords(b));
  }

  lemma SealedSum(b: Bytes, zero: Bytes)
    requires ValidMessage(b) && zero == b[4 := 0][5 := 0]
    ensures CoveredSum(Sealed(b))
            == CoveredSum(zero) + if CoveredWords(b) > 2 then 0xFFFF - Low16(CoveredSum(zero)) else 0
    ensures CoveredWords(b) <= 2 ==> CoveredSum(zero) == CoveredSum(b)
  {
    CoveredSumAfterChange(zero, Sealed(b), 2);
    CoveredSumAfterChange(b, zero, 2);
    hide CoveredSum, Low16;
    var checksum := 0xFFFF - Low16(CoveredSum(zero));
    assert Sealed(b)[4] == checksum % 256 && Sealed(b)[5] == checksum / 256;
    assert Word(Sealed(b), 2) == checksum && Word(zero, 2) == 0;
  }

  /** Sealing a message makes its check pass exactly when the header is long enough to cover the
    * checksum field, or the covered words happen to sum to all ones anyway. */
  lemma SealedIsIntact(b: Bytes)
    requires ValidMessage(b)
    ensures Intact(Sealed(b)) <==> b[1] >= MESSAGE_HEADER_SIZE || Intact(b)
  {
    assert CoveredWords(b) > 2 <==> b[1] >= MESSAGE_HEADER_SIZE;
    hide CoveredSum, CoveredWords, Sealed, Low16;
    var zero := b[4 := 0][5 := 0];
    SealedSum(b, zero);
    Complement(CoveredSum(zero));
  }

  lemma SameWordSameBytes(b: Bytes, b': Bytes, i: nat)
    requires SameExceptWord(b, b', i)
    ensures Word(b', i) == Word(b, i) ==> b' == b
    ensures -0x1_0000 < Word(b', i) - Word(b, i) < 0x1_0000
  {
    if Word(b', i) == Word(b, i) {
      assert b'[2 * i] == Word(b', i) % 256 && b'[2 * i + 1] == Word(b', i) / 256;
    }
  }

  /** Any change to a single covered word, the header-size byte aside, is detected. */
  lemma SingleWordChangeIsDetected(b: Bytes, b': Bytes, i: nat)
    requires ValidMessage(b) && Intact(b) && SameExceptWord(b, b', i) && b'[1] == b[1]
    requires i < CoveredWords(b) && b' != b
    ensures !Intact(b')
  {
    hide CoveredSum, CoveredWords, Word, Low16;
    CoveredSumAfterChange(b, b', i);
    SameWordSameBytes(b, b', i);
    OnesAfter(CoveredSum(b), Word(b', i) - Word(b, i));
  }

  /** Changes to two covered words go undetected exactly when they cancel modulo 2^16. */
  lemma TwoWordChange(b: Bytes, mid: Bytes, b': Bytes, i: nat, j: nat)
    requires ValidMessage(b) && Intact(b) && i != j && i < CoveredWords(b) && j < CoveredWords(b)
    requires SameExceptWord(b, mid, i) && SameExceptWord(mid, b', j) && mid[1] == b[1] == b'[1]
    ensures Intact(b') <==> Low16(Word(b', i) - Word(b, i) + Word(b', j) - Word(b, j)) == 0
  {
    assert CoveredWords(mid) == CoveredWords(b);
    assert Word(b', i) == Word(mid, i) && Word(mid, j) == Word(b, j);
    hide CoveredSum, CoveredWords, Word, Low16;
    CoveredSumAfterChange(b, mid, i);
    CoveredSumAfterChange(mid, b', j);
    OnesAfter(CoveredSum(b), Word(b', i) - Word(b, i) + Word(b', j) - Word(b, j));
  }

  /** The checksum of a header as bytes, the low one first: the complement of the sum of its words. */
  lemma ChecksumBytes()
    ensures ValidMessage([4, 6, 3, 1, 9, 9]) && Sealed([4, 6, 3, 1, 9, 9]) == [4, 6, 3, 1, 248, 248]
  {
    var zero: Bytes := [4, 6, 3, 1, 0, 0];
    assert [4, 6, 3, 1, 9, 9][4 := 0][5 := 0] == zero;
    ThreeWords(zero);
    hide WordSum;
    assert [4, 6, 3, 1, 9, 9][4 := 248][5 := 248] == [4, 6, 3, 1, 248, 248];
  }

  lemma ThreeWords(b: Bytes)
    requires |b| == 6
    ensures WordSum(b, 3) == Word(b, 0) + Word(b, 1) + Word(b, 2)
  {
    assert WordSum(b, 1) == Word(b, 0);
  }

  // ---------- 16-bit helpers ----------

  /** `ntohs` and `htons` on a little-endian host. */
  function SwapBytes(x: nat): (r: nat)
    requires x < 0x1_0000
    ensures r < 0x1_0000
  {
    x % 256 * 256 + x / 256
  }

  function ShortGetHigh(target: nat): Byte
    requires target < 0x1_0000
  {
    target / 256
  }

  function ShortSetHigh(target: nat, value: Byte): (r: nat)
    requires target < 0x1_0000
    ensures r < 0x1_0000
  {
    target % 256 + value * 256
  }

  function ShortGetLow(target: nat): Byte
    requires target < 0x1_0000
  {
    target % 256
  }

  function ShortSetLow(target: nat, value: Byte): (r: nat)
    requires target < 0x1_0000
    ensures r < 0x1_0000
  {
    target / 256 * 256 + value
  }

  /** Setting a half and reading it back through `ntohs`/`htons` touches only that half. */
  lemma CodedByte(low: Byte, high: Byte, value: Byte)
    ensures var network := SwapBytes(Join(low, high));
            && SwapBytes(ShortSetHigh(network, value)) == Join(value, high)
            && SwapBytes(ShortSetLow(network, value)) == Join(low, value)
            && ShortGetHigh(network) == low && ShortGetLow(network) == high
  {
    assert SwapBytes(Join(low, high)) == Join(high, low);
    assert ShortSetHigh(Join(high, low), value) == Join(high, value);
    assert ShortSetLow(Join(high, low), value) == Join(value, low);
    assert SwapBytes(Join(high, value)) == Join(value, high);
    assert SwapBytes(Join(value, low)) == Join(low, value);
  }

  // ---------- The message object ----------

  class Message {
    const firstByte: array<Byte>

    function Content(): Bytes
      reads firstByte
    {
      firstByte[..]
    }

    constructor (length: nat)
      ensures fresh(firstByte) && firstByte.Length == length
    {
      firstByte := new Byte[length](_ => 0);
    }

    method AssembleHeaderValues(from: nat, sizes: seq<nat>, data: seq<int>) returns (length: nat)
      requires ValidLayout(sizes) && |sizes| <= |data|
      requires End(sizes, |sizes|) < 256 && from + End(sizes, |sizes|) <= firstByte.Length
      modifies firstByte
      ensures Content() == Assembled(old(Content()), from, sizes, data, |sizes|)
      ensures length == End(sizes, |sizes|)
    {
      hide WriteField, FieldBytes, ByteOf, Align;
      ghost var before := Content();
      var byteBufferIter := 0;
      EndGrows(sizes, 0, |sizes|);
      for i := 0 to |sizes|
        invariant byteBufferIter == End(sizes, i) <= End(sizes, |sizes|)
        invariant Content() == Assembled(before, from, sizes, data, i)
      {
        EndGrows(sizes, i + 1, |sizes|);
        byteBufferIter := AlignIterator(byteBufferIter, sizes[i]);
        WriteValue(from + byteBufferIter, sizes[i], data[i]);
        byteBufferIter := byteBufferIter + sizes[i] / 8;
      }
      length := byteBufferIter % 256;
    }

    /** Data is encoded in pairs of bytes: a wider field never starts in the second half of a pair. */
    static method AlignIterator(byteBufferIter: nat, width: nat) returns (aligned: nat)
      ensures aligned == Align(byteBufferIter, width)
    {
      aligned := byteBufferIter;
      if width != 8 && byteBufferIter % 2 != 0 {
        aligned := 2 * (byteBufferIter / 2 + 1);
      }
    }

    method WriteValue(o: nat, width: nat, value: int)
      requires IsWidth(width) && o + width / 8 <= firstByte.Length
      modifies firstByte
      ensures Content() == WriteField(old(Content()), o, width, value)
    {
      for k := 0 to width / 8
        invariant forall j :: 0 <= j < firstByte.Length ==>
                    firstByte[j] == if o <= j < o + k then ByteOf(value, j - o) else old(firstByte[j])
      {
        firstByte[o + k] := ByteOf(value, k);
      }
    }

    method SplitHeaderValues(from: nat, sizes: seq<nat>) returns (out: seq<int>)
      requires ValidLayout(sizes) && End(sizes, |sizes|) < 0x1_0000 && from + End(sizes, |sizes|) <= firstByte.Length
      ensures out == Decoded(Content(), from, sizes)
    {
      hide ReadField;
      out := [];
      var j := 0;
      EndGrows(sizes, 0, |sizes|);
      for i := 0 to |sizes|
        invariant j == End(sizes, i) <= End(sizes, |sizes|) && |out| == i
        invariant forall k :: 0 <= k < i ==> out[k] == DecodedField(Content(), from, sizes, k)
      {
        EndGrows(sizes, i + 1, |sizes|);
        j := AlignIterator(j, sizes[i]);
        var value := ReadValue(from + j, sizes[i]);
        out := out + [value];
        j := j + sizes[i] / 8;
      }
    }

    /** The three cases of the decoding switch. */
    method ReadValue(o: nat, width: nat) returns (value: int)
      requires IsWidth(width) && o + width / 8 <= firstByte.Length
      ensures value == ReadField(Content(), o, width)
    {
      match width {
        case 8 =>
          value := firstByte[o];
        case 16 =>
          value := Join(firstByte[o], firstByte[o + 1]);
        case _ =>
          value := Signed(Join4(firstByte[o], firstByte[o + 1], firstByte[o + 2], firstByte[o + 3]));
      }
    }

    method CalcChecksum() returns (checksum: nat)
      requires ValidMessage(Content())
      ensures checksum == Low16(CoveredSum(Content()))
    {
      hide Join, Low16;
      checksum := 0;
      LowOfZero();
      for i := 0 to firstByte[1] / 2
        invariant checksum == Low16(WordSum(Content(), i))
      {
        Low16Add(WordSum(Content(), i), Word(Content(), i));
        checksum := Low16(checksum + Join(firstByte[2 * i], firstByte[2 * i + 1]));
      }
    }

    method SetIntegrity()
      requires ValidMessage(Content())
      modifies firstByte
      ensures Content() == Sealed(old(Content()))
    {
      firstByte[4] := 0;
      firstByte[5] := 0;
      assert Content() == old(Content())[4 := 0][5 := 0];
      var sum := CalcChecksum();
      var checksum := 0xFFFF - sum;
      firstByte[4] := checksum % 256;
      firstByte[5] := checksum / 256;
      assert Content() == old(Content())[4 := checksum % 256][5 := checksum / 256];
    }

    method CheckIntegrity() returns (ok: bool)
      requires ValidMessage(Content())
      ensures ok <==> Intact(Content())
    {
      var sum := CalcChecksum();
      Low16Add(CoveredSum(Content()), 1);
      NextOfOnes(CoveredSum(Content()));
      hide Low16, CoveredSum;
      var checksum := Low16(sum + 1);
      ok := checksum == 0;
    }

    method GetCodedByteValue(byteAddress: nat) returns (value: Byte)
      requires byteAddress / 2 * 2 + 1 < firstByte.Length
      ensures value == firstByte[byteAddress]
    {
      var at := byteAddress / 2 * 2;
      CodedByte(firstByte[at], firstByte[at + 1], 0);
      var word := SwapBytes(Join(firstByte[at], firstByte[at + 1]));
      value := if byteAddress % 2 == 0 then ShortGetHigh(word) else ShortGetLow(word);
    }

    method SetCodedByteValue(byteAddress: nat, value: Byte)
      requires byteAddress / 2 * 2 + 1 < firstByte.Length
      modifies firstByte
      ensures Content() == old(Content())[byteAddress := value]
    {
      var at := byteAddress / 2 * 2;
      CodedByte(firstByte[at], firstByte[at + 1], value);
      var word := SwapBytes(Join(firstByte[at], firstByte[at + 1]));
      var newValue := if byteAddress % 2 == 0 then SwapBytes(ShortSetHigh(word, value))
                      else SwapBytes(ShortSetLow(word, value));
      firstByte[at], firstByte[at + 1] := newValue % 256, newValue / 256;
    }
  }
}
