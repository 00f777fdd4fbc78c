/** The chunk map as a bit set and as bytes. */
module Bitmaps {
  import opened Messages

  type Bits = seq<bool>

  /** `to_ulong`: bit 0 is the least significant. */
  function Value(bits: Bits): nat {
    if bits == [] then 0 else (if bits[0] then 1 else 0) + 2 * Value(bits[1..])
  }

  function Bit(v: nat, k: nat): bool {
    if k == 0 then v % 2 == 1 else Bit(v / 2, k - 1)
  }

  lemma {:induction false} BitOfValue(bits: Bits, k: nat)
    ensures Bit(Value(bits), k) == (k < |bits| && bits[k])
  {
    if bits == [] {
      if k > 0 {
        BitOfValue(bits, k - 1);
      }
    } else if k > 0 {
      BitOfValue(bits[1..], k - 1);
    }
  }

  function Power2(n: nat): nat {
    if n == 0 then 1 else 2 * Power2(n - 1)
  }

  lemma {:induction false} ValueBound(bits: Bits)
    ensures Value(bits) < Power2(|bits|)
  {
    if bits != [] {
      ValueBound(bits[1..]);
    }
  }

  lemma Power2Of8()
    ensures Power2(8) == 256
  {
    assert Power2(4) == 16;
  }

  /** Two numbers below `2^n` with the same `n` bits are equal. */
  lemma {:induction false} SameBits(v: nat, w: nat, n: nat)
    requires v < Power2(n) && w < Power2(n) && forall k :: 0 <= k < n ==> Bit(v, k) == Bit(w, k)
    ensures v == w
  {
    if n > 0 {
      assert Bit(v, 0) == Bit(w, 0);
      forall k | 0 <= k < n - 1
        ensures Bit(v / 2, k) == Bit(w / 2, k)
      {
        assert Bit(v, k + 1) == Bit(w, k + 1);
      }
      SameBits(v / 2, w / 2, n - 1);
    }
  }

  function Octet(bits: Bits): Byte
    requires |bits| == 8
  {
    ValueBound(bits);
    Power2Of8();
    Value(bits)
  }

  /** The first bit of an octet is its lowest. */
  lemma FirstBitIsLowest()
    ensures Octet([true, false, false, false, false, false, false, false]) == 1
    ensures Octet([false, true, false, false, false, false, false, false]) == 2
    ensures Octet([false, false, false, false, false, false, false, true]) == 128
  {
    assert Value([false, false, false, false, false, false]) == 0;
    assert Value([false, false, false, true]) == 8;
    assert [false, false, false, false, false, false, false, true][4..] == [false, false, false, true];
  }

  function BitsOf(v: Byte): (r: Bits)
    ensures |r| == 8
  {
    seq(8, k requires 0 <= k < 8 => Bit(v, k))
  }

  lemma OctetOfBits(v: Byte)
    ensures Octet(BitsOf(v)) == v
  {
    forall k | 0 <= k < 8
      ensures Bit(Value(BitsOf(v)), k) == Bit(v, k)
    {
      BitOfValue(BitsOf(v), k);
    }
    ValueBound(BitsOf(v));
    Power2Of8();
    SameBits(Value(BitsOf(v)), v, 8);
  }

  lemma BitsOfOctet(bits: Bits)
    requires |bits| == 8
    ensures BitsOf(Octet(bits)) == bits
  {
    forall k | 0 <= k < 8
      ensures Bit(Value(bits), k) == bits[k]
    {
      BitOfValue(bits, k);
    }
  }

  // ---------- Whole maps ----------

  function Unpack(bytes: Bytes): (r: Bits)
    ensures |r| == 8 * |bytes|
  {
    if bytes == [] then [] else Unpack(bytes[..|bytes| - 1]) + BitsOf(bytes[|bytes| - 1])
  }

  /** The bytes of the whole octets of a bit set. */
  function Pack(bits: Bits): (r: Bytes)
    requires |bits| % 8 == 0
    ensures |r| == |bits| / 8
  {
    if bits == [] then [] else Pack(bits[..|bits| - 8]) + [Octet(bits[|bits| - 8..])]
  }

  lemma UnpackSnoc(bytes: Bytes, b: Byte)
    ensures Unpack(bytes + [b]) == Unpack(bytes) + BitsOf(b)
  {
    hide BitsOf;
    assert (bytes + [b])[..|bytes|] == bytes;
  }

  lemma {:induction false} UnpackPack(bits: Bits)
    requires |bits| % 8 == 0
    ensures Unpack(Pack(bits)) == bits
  {
    if bits != [] {
      var front, last := bits[..|bits| - 8], bits[|bits| - 8..];
      hide Unpack, Octet, BitsOf;
      UnpackPack(front);
      UnpackSnoc(Pack(front), Octet(last));
      BitsOfOctet(last);
      assert bits == front + last;
    }
  }

  lemma {:induction false} PackUnpack(bytes: Bytes)
    ensures Pack(Unpack(bytes)) == bytes
  {
    if bytes != [] {
      var last := |bytes| - 1;
      PackUnpack(bytes[..last]);
      OctetOfBits(bytes[last]);
      var bits := Unpack(bytes);
      assert bits[..|bits| - 8] == Unpack(bytes[..last]) && bits[|bits| - 8..] == BitsOf(bytes[last]);
      assert bytes == bytes[..last] + [bytes[last]];
    }
  }

  function Zeros(n: nat): Bits {
    seq(n, _ => false)
  }

  /** What `BitsetToBytes` produces on zeroed memory. After whole octets come, when bits are left over,
    * one byte whose top bit is the top bit of the octet before it -- or no byte at all, when seven are
    * left over -- and unused bytes. */
  function Packed(a: Bits): (r: Bytes)
    ensures |r| == |a| / 8 + |a| % 8
  {
    var q, left := |a| / 8 * 8, |a| % 8;
    Pack(a[..q]) +
    if left == 0 then []
    else if left == 7 then seq(7, _ => 0)
    else [Octet(a[q..] + Zeros(7 - left) + [StaleBit(a)])] + seq(left - 1, _ => 0)
  }

  function StaleBit(a: Bits): bool {
    var q := |a| / 8 * 8;
    q > 0 && a[q - 1]
  }

  lemma {:induction false} UnpackAppend(x: Bytes, y: Bytes)
    ensures Unpack(x + y) == Unpack(x) + Unpack(y)
  {
    if y == [] {
      assert x + y == x;
    } else {
      var last := |y| - 1;
      assert (x + y)[..|x + y| - 1] == x + y[..last];
      UnpackAppend(x, y[..last]);
    }
  }

  lemma {:induction false} UnpackZeros(n: nat)
    ensures Unpack(seq(n, _ => 0)) == Zeros(8 * n)
  {
    if n > 0 {
      UnpackZeros(n - 1);
      var z: Bytes := seq(n, _ => 0);
      assert z[..n - 1] == seq(n - 1, _ => 0);
      ZeroBits();
    }
  }

  lemma ZeroBits()
    ensures BitsOf(0) == Zeros(8)
  {
    forall k | 0 <= k < 8
      ensures !Bit(0, k)
    {
      BitOfValue([], k);
    }
  }

  /** The bits `Packed` carries, read back. */
  lemma UnpackPacked(a: Bits)
    ensures var q, left := |a| / 8 * 8, |a| % 8;
            Unpack(Packed(a)) == a[..q] + if left == 0 then []
                                          else if left == 7 then Zeros(56)
                                          else a[q..] + Zeros(7 - left) + [StaleBit(a)] + Zeros(8 * (left - 1))
  {
    var q, left := |a| / 8 * 8, |a| % 8;
    UnpackPack(a[..q]);
    if left == 0 {
      assert Pack(a[..q]) + [] == Pack(a[..q]);
      assert a[..q] + [] == a[..q];
    } else if left == 7 {
      UnpackAppend(Pack(a[..q]), seq(7, _ => 0));
      UnpackZeros(7);
    } else {
      var tail := a[q..] + Zeros(7 - left) + [StaleBit(a)];
      var rest: Bytes := seq(left - 1, _ => 0);
      UnpackAppend(Pack(a[..q]), [Octet(tail)] + rest);
      UnpackAppend([Octet(tail)], rest);
      UnpackZeros(left - 1);
      BitsOfOctet(tail);
      assert Unpack([Octet(tail)]) == tail by {
        assert [Octet(tail)][..0] == [];
        assert Unpack([]) + BitsOf(Octet(tail)) == tail;
      }
    }
  }

  /** Every bit of the map comes back exactly when no seven bits are left over, or those are zero. */
  lemma BitsComeBack(a: Bits)
    ensures Unpack(Packed(a))[..|a|] == a <==>
              |a| % 8 != 7 || forall k :: |a| / 8 * 8 <= k < |a| ==> !a[k]
  {
    UnpackPacked(a);
    var q := |a| / 8 * 8;
    assert a == a[..q] + a[q..];
    if |a| % 8 == 7 {
      var r := Unpack(Packed(a))[..|a|];
      assert r == a[..q] + Zeros(7);
      assert forall k :: q <= k < |a| ==> !r[k];
    }
  }

  /** The top bit of the last byte is the top bit of the octet before it. */
  lemma LastBitIsStale(a: Bits)
    requires 1 <= |a| % 8 <= 6
    ensures |Unpack(Packed(a))| >= (|a| / 8 + 1) * 8
    ensures Unpack(Packed(a))[(|a| / 8 + 1) * 8 - 1] == StaleBit(a)
    ensures forall k :: |a| <= k < (|a| / 8 + 1) * 8 - 1 ==> !Unpack(Packed(a))[k]
  {
    UnpackPacked(a);
    hide Unpack, Packed, StaleBit;
  }

  /** The leftover bits of the last byte are zero, as its comment promises, exactly when the octet before
    * it has its top bit clear. */
  lemma PaddingIsZero(a: Bits)
    requires 1 <= |a| % 8 <= 6
    ensures (forall k :: |a| <= k < (|a| / 8 + 1) * 8 ==> !Unpack(Packed(a))[k]) <==> !StaleBit(a)
  {
    LastBitIsStale(a);
    hide Unpack, Packed, StaleBit;
  }

  /** Seven set bits are all lost. */
  lemma SevenBitsAreLost()
    ensures Unpack(Packed(Ones(7)))[..7] == Zeros(7) != Ones(7)
  {
    BitsComeBack(Ones(7));
    UnpackPacked(Ones(7));
    assert Ones(7)[0] && !Zeros(7)[0];
    assert Ones(7)[..0] + Zeros(56) == Zeros(56);
  }

  /** With nine set bits the second byte is not filled with zeros: its top bit is set. */
  lemma NineBitsLeaveStaleBit()
    ensures Unpack(Packed(Ones(9)))[15]
  {
    LastBitIsStale(Ones(9));
    assert StaleBit(Ones(9));
    hide Unpack, Packed, StaleBit;
  }

  function Ones(n: nat): Bits {
    seq(n, _ => true)
  }

  // ---------- The conversions ----------

  /** Taking off the lowest bit of what is left of `byte` above its first `n` bits. */
  lemma NextBit(byte: nat, a: nat, n: nat)
    requires forall k :: n <= k ==> Bit(byte, k) == Bit(a, k - n)
    ensures Bit(byte, n) == (a % 2 == 1)
    ensures forall k :: n + 1 <= k ==> Bit(byte, k) == Bit(a / 2, k - (n + 1))
  {
    assert Bit(byte, n) == Bit(a, n - n);
    forall k | n + 1 <= k
      ensures Bit(byte, k) == Bit(a / 2, k - (n + 1))
    {
      assert Bit(a, k - n) == Bit(a / 2, k - n - 1);
    }
  }

  /** `a` is what is left of `byte` above the bits `x`. */
  ghost predicate Shifted(byte: nat, a: nat, x: Bits) {
    && |x| <= 8 && a < Power2(8 - |x|)
    && (forall k :: 0 <= k < |x| ==> x[k] == Bit(byte, k))
    && (forall k :: |x| <= k ==> Bit(byte, k) == Bit(a, k - |x|))
  }

  lemma ShiftStep(byte: nat, a: nat, x: Bits)
    requires Shifted(byte, a, x) && a >= 1
    ensures Shifted(byte, a / 2, x + [a % 2 == 1])
  {
    hide Bit;
    NextBit(byte, a, |x|);
  }

  lemma ShiftedOut(byte: Byte, x: Bits)
    requires Shifted(byte, 0, x)
    ensures x + Zeros(8 - |x|) == BitsOf(byte)
  {
    forall k | |x| <= k
      ensures !Bit(byte, k)
    {
      BitOfValue([], k - |x|);
    }
  }

  method ByteToBitset(byte: Byte) returns (x: Bits)
    ensures |x| <= 8 && x + Zeros(8 - |x|) == BitsOf(byte)
  {
    x := [];
    var a: nat := byte;
    Power2Of8();
    assert Shifted(byte, a, x);
    while a >= 1
      invariant Shifted(byte, a, x)
      decreases a
    {
      ShiftStep(byte, a, x);
      hide Shifted;
      x := x + [a % 2 == 1];
      a := a / 2;
    }
    ShiftedOut(byte, x);
    hide Bit;
    if a == 1 {
      x := x + [true];
    }
  }

  method BytesToBitset(byteVector: Bytes, size: nat) returns (bitvector: Bits)
    requires size <= |byteVector|
    ensures bitvector == Unpack(byteVector[..size])
  {
    bitvector := [];
    for i := 0 to size
      invariant bitvector == Unpack(byteVector[..i])
    {
      var bitvector8 := ByteToBitset(byteVector[i]);
      ghost var short := bitvector8;
      while |bitvector8| < 8
        invariant |short| <= |bitvector8| <= 8 && bitvector8 == short + Zeros(|bitvector8| - |short|)
      {
        bitvector8 := bitvector8 + [false];
      }
      assert byteVector[..i + 1][..i] == byteVector[..i];
      bitvector := bitvector + bitvector8;
    }
  }

  method BitsetToBytes(a: Bits) returns (c: array<Byte>)
    ensures fresh(c) && c[..] == Packed(a)
  {
    c := new Byte[|a| / 8 + |a| % 8](_ => 0);
    var x := PackOctets(a, c);
    PackTail(a, c, x);
  }

  /** The main loop: every whole octet is written; `x` keeps the bits of the last, partial one over
    * those of the octet before. */
  method PackOctets(a: Bits, c: array<Byte>) returns (x: Bits)
    requires c.Length == |a| / 8 + |a| % 8 && forall k :: 0 <= k < c.Length ==> c[k] == 0
    modifies c
    ensures c[..|a| / 8] == Pack(a[..|a| / 8 * 8]) && forall k :: |a| / 8 <= k < c.Length ==> c[k] == 0
    ensures IsPartial(a, |a|, x)
  {
    x := Zeros(8);
    assert IsPartial(a, 0, x);
    var i, j := 0, 0;
    assert a[..0] == [];
    assert IsFilled(a, c[..], 0);
    hide Octet, Pack, IsPartial, IsFilled;
    while i < |a|
      invariant 0 <= i <= |a| && j == i / 8 && IsPartial(a, i, x) && IsFilled(a, c[..], j)
    {
      NextPartial(a, i, x);
      x := x[i % 8 := a[i]];
      if i % 8 == 7 {
        WholeOctet(a, i, x);
        WriteOctet(a, c, j, x);
        j := j + 1;
      }
      i := i + 1;
    }
    FilledUp(a, c[..]);
  }

  /** The first `j` bytes are the first `j` octets; the others are still zero. */
  ghost predicate IsFilled(a: Bits, c: Bytes, j: nat) {
    && 8 * j <= |a| && j <= |c| && c[..j] == Pack(a[..8 * j])
    && forall k :: j <= k < |c| ==> c[k] == 0
  }

  lemma FilledUp(a: Bits, c: Bytes)
    requires IsFilled(a, c, |a| / 8)
    ensures c[..|a| / 8] == Pack(a[..|a| / 8 * 8]) && forall k :: |a| / 8 <= k < |c| ==> c[k] == 0
  {
    assert 8 * (|a| / 8) == |a| / 8 * 8;
  }

  ghost predicate IsPartial(a: Bits, i: nat, x: Bits)
    requires i <= |a|
    ensures IsPartial(a, i, x) ==> |x| == 8
  {
    |x| == 8 && forall k :: 0 <= k < 8 ==> x[k] == PartialBit(a, i, k)
  }

  lemma NextPartial(a: Bits, i: nat, x: Bits)
    requires i < |a| && IsPartial(a, i, x)
    ensures IsPartial(a, i + 1, x[i % 8 := a[i]])
  {}

  lemma WholeOctet(a: Bits, i: nat, x: Bits)
    requires i < |a| && i % 8 == 7 && IsPartial(a, i + 1, x)
    ensures x == a[8 * (i / 8)..8 * (i / 8) + 8]
  {}

  method WriteOctet(a: Bits, c: array<Byte>, j: nat, x: Bits)
    requires 8 * j + 8 <= |a| && j < c.Length && x == a[8 * j..8 * j + 8] && IsFilled(a, c[..], j)
    modifies c
    ensures IsFilled(a, c[..], j + 1)
  {
    PackNext(a, j);
    hide Octet, Pack;
    c[j] := Octet(x);
    assert c[..j + 1] == c[..j] + [c[j]];
    assert a[..8 * (j + 1)] == a[..8 * j + 8];
    assert c[..][..j + 1] == c[..j + 1];
  }

  lemma PackNext(a: Bits, j: nat)
    requires 8 * j + 8 <= |a|
    ensures Pack(a[..8 * j + 8]) == Pack(a[..8 * j]) + [Octet(a[8 * j..8 * j + 8])]
  {
    hide Octet;
    var bits := a[..8 * j + 8];
    assert bits[..8 * j] == a[..8 * j] && bits[8 * j..] == a[8 * j..8 * j + 8];
  }

  /** Bit `k` of the work octet at position `i`: the bits of the current octet, and beyond them those of
    * the octet before. */
  ghost function PartialBit(a: Bits, i: nat, k: nat): bool
    requires i <= |a| && k < 8
  {
    var start := i / 8 * 8;
    if k < i % 8 then a[start + k] else start > 0 && a[start - 8 + k]
  }

  /** The trailing loop: clears the leftover bits one by one, and writes the octet before the last of
    * them is cleared. */
  method PackTail(a: Bits, c: array<Byte>, octet: Bits)
    requires c.Length == |a| / 8 + |a| % 8
    requires c[..|a| / 8] == Pack(a[..|a| / 8 * 8]) && forall k :: |a| / 8 <= k < c.Length ==> c[k] == 0
    requires IsPartial(a, |a|, octet)
    modifies c
    ensures c[..] == Packed(a)
  {
    hide Octet, Pack, Packed, TailOctet, IsPartial, IsCleared, TailWritten;
    ghost var before, r := c[..], |a| % 8;
    TailStarts(a, octet, before);
    var i, j, x := |a|, |a| / 8, octet;
    while i % 8 != 0
      invariant |a| % 8 <= r <= 8 && i == |a| / 8 * 8 + r && (|a| % 8 == 0 ==> r == 0)
      invariant j == |a| / 8 + if 1 <= |a| % 8 <= 6 && r >= 7 then 1 else 0
      invariant IsCleared(a, r, x) && TailWritten(a, before, c[..], j)
      decreases 8 - r
    {
      ClearOneMore(a, r, x);
      x := x[i % 8 := false];
      i := i + 1;
      r := r + 1;
      if i % 8 == 7 {
        ClearedIsTail(a, x);
        WriteTail(a, before, c[..]);
        c[j] := Octet(x);
        j := j + 1;
      }
    }
    PackedBytes(a, c[..], before, j);
  }

  /** The work octet once its leftover bits below `r` are cleared. */
  ghost predicate IsCleared(a: Bits, r: nat, x: Bits)
    ensures IsCleared(a, r, x) ==> |x| == 8
  {
    |x| == 8 && forall k :: 0 <= k < 8 ==> x[k] == if |a| % 8 <= k < r then false else PartialBit(a, |a|, k)
  }

  /** Up to `j` the bytes are final: those of the whole octets, and the one of the last, partial octet. */
  ghost predicate TailWritten(a: Bits, before: Bytes, c: Bytes, j: nat) {
    |c| == |before| && forall k :: 0 <= k < |c| ==>
      c[k] == if k < |a| / 8 then before[k] else if k == |a| / 8 < j then Octet(TailOctet(a)) else 0
  }

  lemma TailStarts(a: Bits, x: Bits, c: Bytes)
    requires IsPartial(a, |a|, x) && forall k :: |a| / 8 <= k < |c| ==> c[k] == 0
    ensures IsCleared(a, |a| % 8, x) && TailWritten(a, c, c, |a| / 8)
  {}

  lemma ClearOneMore(a: Bits, r: nat, x: Bits)
    requires IsCleared(a, r, x) && |a| % 8 <= r < 8
    ensures IsCleared(a, r + 1, x[r := false])
  {
    hide PartialBit;
  }

  lemma ClearedIsTail(a: Bits, x: Bits)
    requires 1 <= |a| % 8 <= 6 && IsCleared(a, 7, x)
    ensures x == TailOctet(a)
  {}

  lemma WriteTail(a: Bits, before: Bytes, c: Bytes)
    requires TailWritten(a, before, c, |a| / 8) && |a| / 8 < |c|
    ensures TailWritten(a, before, c[|a| / 8 := Octet(TailOctet(a))], |a| / 8 + 1)
  {
    hide Octet, TailOctet;
  }

  lemma PackedBytes(a: Bits, c: Bytes, before: Bytes, j: nat)
    requires |c| == |before| == |a| / 8 + |a| % 8 && before[..|a| / 8] == Pack(a[..|a| / 8 * 8])
    requires TailWritten(a, before, c, j) && j == |a| / 8 + if 1 <= |a| % 8 <= 6 then 1 else 0
    ensures c == Packed(a)
  {
    hide Octet, Pack;
    var q := |a| / 8;
    assert c[..q] == before[..q];
    assert c == c[..q] + c[q..];
    if 1 <= |a| % 8 <= 6 {
      assert c[q..] == [Octet(TailOctet(a))] + seq(|a| % 8 - 1, _ => 0);
    }
  }

  /** The last octet as it is written when one to six bits are left over. */
  ghost function TailOctet(a: Bits): (r: Bits)
    ensures |r| == 8
  {
    if 1 <= |a| % 8 <= 6 then a[|a| / 8 * 8..] + Zeros(7 - |a| % 8) + [StaleBit(a)] else Zeros(8)
  }
}
