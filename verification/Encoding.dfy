/** Fixed-width big-endian integers and length prefixes, as the canonical encoders write them. */
module Encoding {
  type Byte = x: int | 0 <= x < 256
  type Bytes = seq<Byte>

  const TWO_16 := 0x1_0000
  const TWO_32 := 0x1_0000_0000
  const TWO_64 := 0x1_0000_0000_0000_0000

  type Int64 = x: int | -0x8000_0000_0000_0000 <= x < 0x8000_0000_0000_0000
  type Uint64 = x: int | 0 <= x < 0x1_0000_0000_0000_0000

  /** Two's-complement wrap-around of a 64-bit sum. */
  function WrapInt64(x: int): (r: Int64)
    ensures -0x8000_0000_0000_0000 <= x < 0x8000_0000_0000_0000 ==> r == x
  {
    var m := x % TWO_64;
    if m < 0x8000_0000_0000_0000 then m else m - TWO_64
  }

  function Ascii(s: string): (b: Bytes)
    ensures |b| == |s|
  {
    seq(|s|, i requires 0 <= i < |s| => s[i] as int % 256)
  }

  /** Byte k of v, the least significant being byte 0. */
  function ByteAt(v: nat, k: nat): Byte {
    if k == 0 then v % 256 else ByteAt(v / 256, k - 1)
  }

  function BigEndian(v: nat, width: nat): (b: Bytes)
    ensures |b| == width
  {
    seq(width, i requires 0 <= i < width => ByteAt(v, width - 1 - i))
  }

  // The conversions truncate as Go's do: only the low bits are written, also of negative values.
  function U16(v: int): (b: Bytes) ensures |b| == 2 { BigEndian(v % TWO_16, 2) }
  function U32(v: int): (b: Bytes) ensures |b| == 4 { BigEndian(v % TWO_32, 4) }
  function U64(v: int): (b: Bytes) ensures |b| == 8 { BigEndian(v % TWO_64, 8) }

  function Prefixed16(b: Bytes): (r: Bytes) ensures |r| == 2 + |b| { U16(|b|) + b }
  function Prefixed32(b: Bytes): (r: Bytes) ensures |r| == 4 + |b| { U32(|b|) + b }

  function Pow256(n: nat): (p: nat)
    ensures p > 0
  {
    if n == 0 then 1 else 256 * Pow256(n - 1)
  }

  lemma {:induction false} BytesDetermine(v: nat, w: nat, width: nat)
    requires v < Pow256(width) && w < Pow256(width)
    requires forall k :: 0 <= k < width ==> ByteAt(v, k) == ByteAt(w, k)
    ensures v == w
  {
    if width > 0 {
      assert ByteAt(v, 0) == ByteAt(w, 0);
      forall k | 0 <= k < width - 1 ensures ByteAt(v / 256, k) == ByteAt(w / 256, k) {
        assert ByteAt(v, k + 1) == ByteAt(w, k + 1);
      }
      BytesDetermine(v / 256, w / 256, width - 1);
    }
  }

  lemma {:induction false} BigEndianInjective(v: nat, w: nat, width: nat)
    requires v < Pow256(width) && w < Pow256(width)
    requires BigEndian(v, width) == BigEndian(w, width)
    ensures v == w
  {
    forall k | 0 <= k < width ensures ByteAt(v, k) == ByteAt(w, k) {
      assert BigEndian(v, width)[width - 1 - k] == BigEndian(w, width)[width - 1 - k];
    }
    BytesDetermine(v, w, width);
  }

  lemma {:induction false} Widths()
    ensures Pow256(2) == TWO_16 && Pow256(4) == TWO_32 && Pow256(8) == TWO_64
  {
    assert Pow256(3) == 256 * Pow256(2);
    assert Pow256(5) == 256 * Pow256(4);
    assert Pow256(6) == 256 * Pow256(5);
    assert Pow256(7) == 256 * Pow256(6);
  }

  /** Equal encodings mean equal values up to the encoded width. */
  lemma {:induction false} FixedWidthInjective(v: int, w: int)
    ensures U16(v) == U16(w) ==> v % TWO_16 == w % TWO_16
    ensures U32(v) == U32(w) ==> v % TWO_32 == w % TWO_32
    ensures U64(v) == U64(w) ==> v % TWO_64 == w % TWO_64
  {
    Widths();
    if U16(v) == U16(w) {
      BigEndianInjective(v % TWO_16, w % TWO_16, 2);
    }
    if U32(v) == U32(w) {
      BigEndianInjective(v % TWO_32, w % TWO_32, 4);
    }
    if U64(v) == U64(w) {
      BigEndianInjective(v % TWO_64, w % TWO_64, 8);
    }
  }

  lemma {:induction false} Int64ByWidth(v: Int64, w: Int64)
    requires U64(v) == U64(w)
    ensures v == w
  {
    hide U64;
    FixedWidthInjective(v, w);
    SameResidue(v, w);
  }

  lemma {:induction false} SameResidue(v: Int64, w: Int64)
    requires v % TWO_64 == w % TWO_64
    ensures v == w
  {
  }

  lemma {:induction false} SplitEqual<T>(a: seq<T>, r: seq<T>, b: seq<T>, s: seq<T>)
    requires |a| == |b| && a + r == b + s
    ensures a == b && r == s
  {
    assert a == (a + r)[..|a|] == (b + s)[..|b|] == b;
    assert r == (a + r)[|a|..] == (b + s)[|b|..] == s;
  }

  lemma {:induction false} Prefixed32Injective(a: Bytes, r: Bytes, b: Bytes, s: Bytes)
    requires |a| < TWO_32 && |b| < TWO_32
    requires Prefixed32(a) + r == Prefixed32(b) + s
    ensures a == b && r == s
  {
    hide BigEndian;
    assert U32(|a|) + (a + r) == Prefixed32(a) + r;
    assert U32(|b|) + (b + s) == Prefixed32(b) + s;
    SplitEqual(U32(|a|), a + r, U32(|b|), b + s);
    FixedWidthInjective(|a|, |b|);
    SplitEqual(a, r, b, s);
  }

  lemma {:induction false} Prefixed16Injective(a: Bytes, r: Bytes, b: Bytes, s: Bytes)
    requires |a| < TWO_16 && |b| < TWO_16
    requires Prefixed16(a) + r == Prefixed16(b) + s
    ensures a == b && r == s
  {
    hide BigEndian;
    assert U16(|a|) + (a + r) == Prefixed16(a) + r;
    assert U16(|b|) + (b + s) == Prefixed16(b) + s;
    SplitEqual(U16(|a|), a + r, U16(|b|), b + s);
    FixedWidthInjective(|a|, |b|);
    SplitEqual(a, r, b, s);
  }

  /** The number a big-endian byte string spells. */
  function FromBytes(b: Bytes): nat {
    if b == [] then 0 else 256 * FromBytes(b[..|b| - 1]) + b[|b| - 1]
  }

  /** Big-endian digits: reading them back gives the number, most significant byte first. */
  lemma {:induction false} BigEndianReads(v: nat, width: nat)
    requires v < Pow256(width)
    ensures FromBytes(BigEndian(v, width)) == v
  {
    if width > 0 {
      var b := BigEndian(v, width);
      forall i | 0 <= i < width - 1 ensures b[i] == BigEndian(v / 256, width - 1)[i] {
        assert ByteAt(v, width - 1 - i) == ByteAt(v / 256, width - 2 - i);
      }
      assert b[..width - 1] == BigEndian(v / 256, width - 1);
      assert b[width - 1] == ByteAt(v, 0) == v % 256;
      BigEndianReads(v / 256, width - 1);
    }
  }

  /** The fixed widths in plain numbers. */
  lemma {:induction false} WidthsRead(v: int)
    ensures FromBytes(U16(v)) == v % 0x1_0000 && FromBytes(U32(v)) == v % 0x1_0000_0000
    ensures FromBytes(U64(v)) == v % 0x1_0000_0000_0000_0000
  {
    hide BigEndian, FromBytes;
    Widths();
    BigEndianReads(v % TWO_16, 2);
    BigEndianReads(v % TWO_32, 4);
    BigEndianReads(v % TWO_64, 8);
  }
}
