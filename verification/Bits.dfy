/** Bits packed little-endian into bytes, and the builder that appends them one by one. */
module Bits {

  function Bit(x: bv8, i: nat): bool
    requires i < 8
  {
    (x >> i) & 1 != 0
  }

  function Mask(i: nat): bv8
    requires i < 8
  {
    1 << i
  }

  /** Bit b of the buffer; positions past the end read as 0. */
  function BitOf(buf: seq<bv8>, b: nat): bool {
    b / 8 < |buf| && Bit(buf[b / 8], b % 8)
  }

  function WithBit(buf: seq<bv8>, b: nat): (r: seq<bv8>)
    requires b / 8 < |buf|
    ensures |r| == |buf|
  {
    buf[b / 8 := buf[b / 8] | Mask(b % 8)]
  }

  function PackedSize(n: nat): nat { (n + 7) / 8 }

  /** buf carries exactly these bits, with the unused high bits of the last byte clear. */
  ghost predicate IsPacked(buf: seq<bv8>, bits: seq<bool>) {
    && |buf| == PackedSize(|bits|)
    && forall b :: 0 <= b < 8 * |buf| ==> BitOf(buf, b) == (b < |bits| && bits[b])
  }

  /** The buffer the builder makes of these bits. */
  function Pack(bits: seq<bool>): (buf: seq<bv8>)
    ensures |buf| == PackedSize(|bits|)
  {
    if bits == [] then []
    else
      var n := |bits| - 1;
      var front := Pack(bits[..n]);
      var room := if n % 8 == 0 then front + [0] else front;
      if bits[n] then WithBit(room, n) else room
  }

  // Bits of one byte

  lemma {:induction false} ShiftXor(x: bv8, y: bv8, j: nat)
    requires j < 8
    ensures (x ^ y) >> j == (x >> j) ^ (y >> j)
  {
  }

  lemma {:induction false} ShiftOr(x: bv8, y: bv8, j: nat)
    requires j < 8
    ensures (x | y) >> j == (x >> j) | (y >> j)
  {
  }

  lemma {:induction false} LowBitLinear(x: bv8, y: bv8)
    ensures (x ^ y) & 1 != 0 <==> (x & 1 != 0) != (y & 1 != 0)
    ensures (x | y) & 1 != 0 <==> x & 1 != 0 || y & 1 != 0
  {
  }

  lemma {:induction false} MaskBit(i: nat, j: nat)
    requires i < 8 && j < 8
    ensures Bit(Mask(i), j) <==> i == j
  {
  }

  lemma {:induction false} SetOneBit(x: bv8, i: nat, j: nat)
    requires i < 8 && j < 8
    ensures Bit(x | Mask(i), j) <==> i == j || Bit(x, j)
  {
    hide Mask;
    MaskBit(i, j);
    ShiftOr(x, Mask(i), j);
    LowBitLinear(x >> j, Mask(i) >> j);
  }

  lemma {:induction false} XorBit(x: bv8, y: bv8, j: nat)
    requires j < 8
    ensures Bit(x ^ y, j) <==> Bit(x, j) != Bit(y, j)
  {
    ShiftXor(x, y, j);
    LowBitLinear(x >> j, y >> j);
  }

  lemma {:induction false} ZeroBit(j: nat)
    requires j < 8
    ensures !Bit(0, j)
  {
  }

  lemma {:induction false} SameByte(x: bv8, y: bv8)
    requires forall j :: 0 <= j < 8 ==> Bit(x, j) == Bit(y, j)
    ensures x == y
  {
    assert Bit(x, 0) == Bit(y, 0) && Bit(x, 1) == Bit(y, 1);
    assert Bit(x, 2) == Bit(y, 2) && Bit(x, 3) == Bit(y, 3);
    assert Bit(x, 4) == Bit(y, 4) && Bit(x, 5) == Bit(y, 5);
    assert Bit(x, 6) == Bit(y, 6) && Bit(x, 7) == Bit(y, 7);
  }

  // Bits of a buffer

  lemma {:induction false} WithBitMeaning(buf: seq<bv8>, k: nat)
    requires k / 8 < |buf|
    ensures forall b :: 0 <= b ==> BitOf(WithBit(buf, k), b) == (b == k || BitOf(buf, b))
  {
    hide Bit, Mask;
    forall b | 0 <= b ensures BitOf(WithBit(buf, k), b) == (b == k || BitOf(buf, b)) {
      if b / 8 == k / 8 {
        SetOneBit(buf[k / 8], k % 8, b % 8);
      }
    }
  }

  lemma {:induction false} ZeroBits(buf: seq<bv8>, b: nat)
    requires forall i :: 0 <= i < |buf| ==> buf[i] == 0
    ensures !BitOf(buf, b)
  {
    ZeroBit(b % 8);
  }

  lemma {:induction false} AppendZero(buf: seq<bv8>)
    ensures forall b :: 0 <= b ==> BitOf(buf + [0], b) == BitOf(buf, b)
  {
    hide Bit;
    forall b | 0 <= b ensures BitOf(buf + [0], b) == BitOf(buf, b) {
      ZeroBit(b % 8);
    }
  }

  /** Two buffers that carry the same bits are the same. */
  lemma {:induction false} PackedUnique(a: seq<bv8>, b: seq<bv8>, bits: seq<bool>)
    requires IsPacked(a, bits) && IsPacked(b, bits)
    ensures a == b
  {
    hide Bit;
    forall i | 0 <= i < |a| ensures a[i] == b[i] {
      forall j | 0 <= j < 8 ensures Bit(a[i], j) == Bit(b[i], j) {
        assert BitOf(a, 8 * i + j) == BitOf(b, 8 * i + j);
      }
      SameByte(a[i], b[i]);
    }
  }

  lemma {:induction false} PackMeaning(bits: seq<bool>)
    ensures IsPacked(Pack(bits), bits)
  {
    hide Bit, WithBit;
    if bits != [] {
      var n := |bits| - 1;
      var front := Pack(bits[..n]);
      var room := if n % 8 == 0 then front + [0] else front;
      PackMeaning(bits[..n]);
      AppendZero(front);
      WithBitMeaning(room, n);
      forall b | 0 <= b < 8 * |room| ensures BitOf(room, b) == (b < n && bits[b]) {
        assert b < 8 * |front| ==> BitOf(front, b) == (b < n && bits[..n][b]);
      }
    }
  }

  class BitBuilder {
    var bytes: seq<bv8>
    var length: nat
    ghost var contents: seq<bool>

    ghost predicate Valid()
      reads this
    {
      length == |contents| && bytes == Pack(contents)
    }

    constructor ()
      ensures Valid() && contents == []
    {
      bytes, length, contents := [], 0, [];
    }

    method AppendBit(v: bool)
      requires Valid()
      modifies this
      ensures Valid() && contents == old(contents) + [v]
    {
      var byteIdx := length / 8;
      assert (contents + [v])[..length] == contents;
      while |bytes| <= byteIdx
        invariant length == old(length) && contents == old(contents)
        invariant bytes == Pack(contents) || (length % 8 == 0 && bytes == Pack(contents) + [0])
      {
        bytes := bytes + [0];
      }
      if v {
        bytes := WithBit(bytes, length);
      }
      length := length + 1;
      contents := contents + [v];
    }
  }
}
