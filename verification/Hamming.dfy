/** The Hamming(7,4) block code and its bit-packed stream forms. */
module Hamming {
  import opened Bits

  // One block

  function HammingEncode4to7(data: bv8): bv8 {
    var d1 := (data >> 0) & 1;
    var d2 := (data >> 1) & 1;
    var d3 := (data >> 2) & 1;
    var d4 := (data >> 3) & 1;
    var p1 := d1 ^ d2 ^ d4;
    var p2 := d1 ^ d3 ^ d4;
    var p4 := d2 ^ d3 ^ d4;
    p1 | (p2 << 1) | (d1 << 2) | (p4 << 3) | (d2 << 4) | (d3 << 5) | (d4 << 6)
  }

  function Syndrome(c: bv8): bv8 {
    var b1 := (c >> 0) & 1;
    var b2 := (c >> 1) & 1;
    var b3 := (c >> 2) & 1;
    var b4 := (c >> 3) & 1;
    var b5 := (c >> 4) & 1;
    var b6 := (c >> 5) & 1;
    var b7 := (c >> 6) & 1;
    (b1 ^ b3 ^ b5 ^ b7) | ((b2 ^ b3 ^ b6 ^ b7) << 1) | ((b4 ^ b5 ^ b6 ^ b7) << 2)
  }

  function DataOf(c: bv8): bv8 {
    ((c >> 2) & 1) | (((c >> 4) & 1) << 1) | (((c >> 5) & 1) << 2) | (((c >> 6) & 1) << 3)
  }

  /** The nibble of the codeword next to code. */
  function Decoded(code: bv8): bv8 {
    var c := code & 0x7F;
    var syn := Syndrome(c);
    DataOf(if syn != 0 then c ^ ((1 as bv8) << (syn - 1)) else c)
  }

  /** The code is perfect: a word decodes to d exactly when it is d's codeword with at most one bit flipped. */
  lemma {:induction false} PerfectCode(c: bv8, d: bv8)
    requires c & 0x80 == 0 && d & 0xF0 == 0
    ensures Decoded(c) == d <==> var x := c ^ HammingEncode4to7(d); x & (x - 1) == 0
  {
  }

  lemma {:induction false} BlockRanges(c: bv8)
    ensures HammingEncode4to7(c) & 0x80 == 0 && Decoded(c) & 0xF0 == 0
  {
  }

  ghost predicate AtMostOneBit(x: bv8) {
    forall i, j :: 0 <= i < j < 7 ==> !(Bit(x, i) && Bit(x, j))
  }

  lemma {:induction false} TwoBits(x: bv8, i: nat, j: nat)
    requires i < j < 7 && Bit(x, i) && Bit(x, j)
    ensures x & (x - 1) != 0
  {
  }

  /** The lowest and the highest of several set bits. */
  lemma {:induction false} FindTwoBits(x: bv8) returns (i: nat, j: nat)
    requires x & 0x80 == 0 && x & (x - 1) != 0
    ensures i < j < 7 && Bit(x, i) && Bit(x, j)
  {
    i := if Bit(x, 0) then 0 else if Bit(x, 1) then 1 else if Bit(x, 2) then 2
         else if Bit(x, 3) then 3 else if Bit(x, 4) then 4 else 5;
    j := if Bit(x, 6) then 6 else if Bit(x, 5) then 5 else if Bit(x, 4) then 4
         else if Bit(x, 3) then 3 else if Bit(x, 2) then 2 else 1;
  }

  lemma {:induction false} AtMostOneBitMeaning(x: bv8)
    requires x & 0x80 == 0
    ensures AtMostOneBit(x) <==> x & (x - 1) == 0
  {
    if x & (x - 1) == 0 {
      forall i, j | 0 <= i < j < 7 ensures !(Bit(x, i) && Bit(x, j)) {
        if Bit(x, i) && Bit(x, j) {
          TwoBits(x, i, j);
        }
      }
    } else {
      var i, j := FindTwoBits(x);
    }
  }

  /** The low seven bits of code differ from d's codeword in at most one place. */
  ghost predicate NearCodeword(code: bv8, d: bv8) {
    AtMostOneBit((code & 0x7F) ^ HammingEncode4to7(d))
  }

  lemma {:induction false} DecodesNear(code: bv8)
    ensures Decoded(code) & 0xF0 == 0
    ensures forall d: bv8 :: d & 0xF0 == 0 ==> (Decoded(code) == d <==> NearCodeword(code, d))
  {
    hide HammingEncode4to7, Decoded, AtMostOneBit;
    BlockRanges(code);
    forall d: bv8 | d & 0xF0 == 0 ensures Decoded(code) == d <==> NearCodeword(code, d) {
      LowSeven(code);
      PerfectCode(code & 0x7F, d);
      BlockRanges(d);
      XorHighBit(code & 0x7F, HammingEncode4to7(d));
      AtMostOneBitMeaning((code & 0x7F) ^ HammingEncode4to7(d));
    }
  }

  lemma {:induction false} LowSeven(code: bv8)
    ensures code & 0x7F & 0x80 == 0 && Decoded(code) == Decoded(code & 0x7F)
  {
  }

  method HammingDecode7to4(code: bv8) returns (nibble: bv8)
    ensures nibble == Decoded(code) && nibble & 0xF0 == 0
    ensures forall d: bv8 :: d & 0xF0 == 0 ==> (nibble == d <==> NearCodeword(code, d))
  {
    var c := code & 0x7F;
    var b3 := (c >> 2) & 1;
    var b5 := (c >> 4) & 1;
    var b6 := (c >> 5) & 1;
    var b7 := (c >> 6) & 1;
    var syn := Syndrome(c);
    if syn != 0 {
      c := c ^ ((1 as bv8) << (syn - 1));
      b3 := (c >> 2) & 1;
      b5 := (c >> 4) & 1;
      b6 := (c >> 5) & 1;
      b7 := (c >> 6) & 1;
    }
    nibble := b3 | (b5 << 1) | (b6 << 2) | (b7 << 3);
    DecodesNear(code);
  }

  // Streams of blocks

  /** The w bits from position start, as the low bits of a byte. */
  function Gather(buf: seq<bv8>, start: nat, w: nat): bv8
    requires w <= 8
  {
    if w == 0 then 0
    else Gather(buf, start, w - 1) | (if BitOf(buf, start + w - 1) then Mask(w - 1) else 0)
  }

  lemma {:induction false} GatherBit(buf: seq<bv8>, start: nat, w: nat, j: nat)
    requires w <= 8 && j < 8
    ensures Bit(Gather(buf, start, w), j) <==> j < w && BitOf(buf, start + j)
  {
    hide Bit, Mask, BitOf;
    if w == 0 {
      ZeroBit(j);
    } else {
      GatherBit(buf, start, w - 1, j);
      if BitOf(buf, start + w - 1) {
        SetOneBit(Gather(buf, start, w - 1), w - 1, j);
      } else {
        OrZero(Gather(buf, start, w - 1));
      }
    }
  }

  lemma {:induction false} OrZero(x: bv8)
    ensures x | 0 == x
  {
  }

  lemma {:induction false} HighBitsClear(x: bv8)
    ensures x & 0x80 == 0 <==> !Bit(x, 7)
    ensures x & 0xF0 == 0 <==> !Bit(x, 4) && !Bit(x, 5) && !Bit(x, 6) && !Bit(x, 7)
  {
  }

  lemma {:induction false} GatherRange(buf: seq<bv8>, start: nat)
    ensures Gather(buf, start, 4) & 0xF0 == 0 && Gather(buf, start, 7) & 0x80 == 0
  {
    hide Bit, Gather, BitOf;
    GatherBit(buf, start, 4, 4);
    GatherBit(buf, start, 4, 5);
    GatherBit(buf, start, 4, 6);
    GatherBit(buf, start, 4, 7);
    GatherBit(buf, start, 7, 7);
    HighBitsClear(Gather(buf, start, 4));
    HighBitsClear(Gather(buf, start, 7));
  }

  /** Bit i of the encoded stream. */
  function CodeBit(data: seq<bv8>, i: nat): bool {
    Bit(HammingEncode4to7(Gather(data, 4 * (i / 7), 4)), i % 7)
  }

  /** Bit i of the decoded stream. */
  function DataBit(code: seq<bv8>, i: nat): bool {
    Bit(Decoded(Gather(code, 7 * (i / 4), 7)), i % 4)
  }

  function EncodedBits(data: seq<bv8>, n: nat): (bits: seq<bool>)
    ensures |bits| == n
  {
    seq(n, i requires 0 <= i < n => CodeBit(data, i))
  }

  function DecodedBits(code: seq<bv8>, n: nat): (bits: seq<bool>)
    ensures |bits| == n
  {
    seq(n, i requires 0 <= i < n => DataBit(code, i))
  }

  method GatherBits(buf: seq<bv8>, start: nat, w: nat) returns (x: bv8)
    requires w <= 8
    ensures x == Gather(buf, start, w)
  {
    x := 0;
    for i := 0 to w
      invariant x == Gather(buf, start, i)
    {
      OrZero(x);
      if BitOf(buf, start + i) {
        x := x | Mask(i);
      }
    }
  }

  function LowBits(x: bv8, w: nat): (bits: seq<bool>)
    requires w <= 8
    ensures |bits| == w
  {
    seq(w, i requires 0 <= i < w => Bit(x, i))
  }

  method AppendLowBits(b: BitBuilder, x: bv8, w: nat)
    requires b.Valid() && w <= 8
    modifies b
    ensures b.Valid() && b.contents == old(b.contents) + LowBits(x, w)
  {
    hide Bit, Pack;
    for i := 0 to w
      invariant b.Valid() && b.contents == old(b.contents) + LowBits(x, w)[..i]
    {
      b.AppendBit(Bit(x, i));
    }
  }

  lemma {:induction false} EncodedBlock(data: seq<bv8>, blk: nat)
    ensures EncodedBits(data, 7 * blk) + LowBits(HammingEncode4to7(Gather(data, 4 * blk, 4)), 7)
         == EncodedBits(data, 7 * (blk + 1))
  {
    hide Bit, Gather, HammingEncode4to7;
    var cw := HammingEncode4to7(Gather(data, 4 * blk, 4));
    forall i | 0 <= i < 7 ensures EncodedBits(data, 7 * (blk + 1))[7 * blk + i] == LowBits(cw, 7)[i] {
      assert (7 * blk + i) / 7 == blk && (7 * blk + i) % 7 == i;
    }
  }

  lemma {:induction false} DecodedBlock(code: seq<bv8>, blk: nat)
    ensures DecodedBits(code, 4 * blk) + LowBits(Decoded(Gather(code, 7 * blk, 7)), 4)
         == DecodedBits(code, 4 * (blk + 1))
  {
    hide Bit, Gather, Decoded;
    var nibble := Decoded(Gather(code, 7 * blk, 7));
    forall i | 0 <= i < 4 ensures DecodedBits(code, 4 * (blk + 1))[4 * blk + i] == LowBits(nibble, 4)[i] {
      assert (4 * blk + i) / 4 == blk && (4 * blk + i) % 4 == i;
    }
  }

  method EncodeHamming74(data: seq<bv8>, dataBits: nat) returns (code: seq<bv8>, codeBits: nat)
    ensures dataBits % 4 != 0 ==> code == [] && codeBits == 0
    ensures dataBits % 4 == 0 ==> codeBits == 7 * (dataBits / 4) && code == Pack(EncodedBits(data, codeBits))
  {
    if dataBits % 4 != 0 {
      return [], 0;
    }
    hide Bit, Gather, HammingEncode4to7, Pack, EncodedBits, LowBits;
    var blocks := dataBits / 4;
    codeBits := blocks * 7;
    var b := new BitBuilder();
    assert EncodedBits(data, 0) == [];
    for blk := 0 to blocks
      invariant fresh(b) && b.Valid() && b.contents == EncodedBits(data, 7 * blk)
    {
      var nibble := GatherBits(data, blk * 4, 4);
      var cw := HammingEncode4to7(nibble);
      AppendLowBits(b, cw, 7);
      EncodedBlock(data, blk);
    }
    code := b.bytes;
  }

  method DecodeHamming74(code: seq<bv8>, codeBits: nat) returns (data: seq<bv8>, dataBits: nat)
    ensures codeBits % 7 != 0 ==> data == [] && dataBits == 0
    ensures codeBits % 7 == 0 ==> dataBits == 4 * (codeBits / 7) && data == Pack(DecodedBits(code, dataBits))
  {
    if codeBits % 7 != 0 {
      return [], 0;
    }
    hide Bit, Gather, Decoded, Pack, DecodedBits, LowBits;
    var blocks := codeBits / 7;
    dataBits := blocks * 4;
    var b := new BitBuilder();
    assert DecodedBits(code, 0) == [];
    for blk := 0 to blocks
      invariant fresh(b) && b.Valid() && b.contents == DecodedBits(code, 4 * blk)
    {
      var cw := GatherBits(code, blk * 7, 7);
      var nibble := HammingDecode7to4(cw);
      AppendLowBits(b, nibble, 4);
      DecodedBlock(code, blk);
    }
    data := b.bytes;
  }

  // Error correction of the stream

  predicate Flipped(data: seq<bv8>, noisy: seq<bv8>, blk: nat, i: nat) {
    BitOf(noisy, 7 * blk + i) != CodeBit(data, 7 * blk + i)
  }

  /** At most one of the seven stream bits of block blk differs from the encoding of data. */
  ghost predicate BlockCorrectable(data: seq<bv8>, noisy: seq<bv8>, blk: nat) {
    forall i, j :: 0 <= i < j < 7 ==> !(Flipped(data, noisy, blk, i) && Flipped(data, noisy, blk, j))
  }

  predicate SameDataBit(data: seq<bv8>, noisy: seq<bv8>, i: nat) {
    DataBit(noisy, i) == BitOf(data, i)
  }

  ghost predicate SameNibble(data: seq<bv8>, noisy: seq<bv8>, blk: nat) {
    && SameDataBit(data, noisy, 4 * blk) && SameDataBit(data, noisy, 4 * blk + 1)
    && SameDataBit(data, noisy, 4 * blk + 2) && SameDataBit(data, noisy, 4 * blk + 3)
  }

  lemma {:induction false} DataBitOfBlock(data: seq<bv8>, noisy: seq<bv8>, blk: nat, i: nat)
    requires i < 4
    ensures SameDataBit(data, noisy, 4 * blk + i)
       <==> Bit(Decoded(Gather(noisy, 7 * blk, 7)), i) == Bit(Gather(data, 4 * blk, 4), i)
  {
    hide Bit, Gather, Decoded, BitOf;
    assert (4 * blk + i) / 4 == blk && (4 * blk + i) % 4 == i;
    GatherBit(data, 4 * blk, 4, i);
  }

  lemma {:induction false} NibbleEquality(data: seq<bv8>, noisy: seq<bv8>, blk: nat)
    ensures SameNibble(data, noisy, blk) <==> Decoded(Gather(noisy, 7 * blk, 7)) == Gather(data, 4 * blk, 4)
  {
    hide Bit, Gather, Decoded, SameDataBit;
    var x, y := Decoded(Gather(noisy, 7 * blk, 7)), Gather(data, 4 * blk, 4);
    BlockRanges(Gather(noisy, 7 * blk, 7));
    GatherRange(data, 4 * blk);
    HighBitsClear(x);
    HighBitsClear(y);
    DataBitOfBlock(data, noisy, blk, 0);
    DataBitOfBlock(data, noisy, blk, 1);
    DataBitOfBlock(data, noisy, blk, 2);
    DataBitOfBlock(data, noisy, blk, 3);
    if SameNibble(data, noisy, blk) {
      SameByte(x, y);
    }
  }

  /** A block of the stream decodes to its data exactly when at most one of its seven bits was flipped. */
  lemma {:induction false} BlockDecodes(data: seq<bv8>, noisy: seq<bv8>, blk: nat)
    ensures SameNibble(data, noisy, blk) <==> BlockCorrectable(data, noisy, blk)
  {
    hide Bit, Gather, Decoded, BitOf, HammingEncode4to7, SameNibble;
    var c, d := Gather(noisy, 7 * blk, 7), Gather(data, 4 * blk, 4);
    var cw := HammingEncode4to7(d);
    var x := c ^ cw;
    NibbleEquality(data, noisy, blk);
    GatherRange(noisy, 7 * blk);
    GatherRange(data, 4 * blk);
    PerfectCode(c, d);
    BlockRanges(d);
    XorHighBit(c, cw);
    AtMostOneBitMeaning(x);
    forall i | 0 <= i < 7 ensures Bit(x, i) <==> Flipped(data, noisy, blk, i) {
      assert (7 * blk + i) / 7 == blk && (7 * blk + i) % 7 == i;
      XorBit(c, cw, i);
      GatherBit(noisy, 7 * blk, 7, i);
    }
  }

  lemma {:induction false} XorHighBit(x: bv8, y: bv8)
    requires x & 0x80 == 0 && y & 0x80 == 0
    ensures (x ^ y) & 0x80 == 0
  {
  }

  /**
   The decoded stream is the encoded data if and only if no block has two flipped bits. noisy may be any
   buffer at all.
   */
  lemma {:induction false} StreamDecodes(data: seq<bv8>, noisy: seq<bv8>, blocks: nat)
    ensures (forall i :: 0 <= i < 4 * blocks ==> SameDataBit(data, noisy, i))
       <==> (forall blk :: 0 <= blk < blocks ==> BlockCorrectable(data, noisy, blk))
  {
    hide SameDataBit, BlockCorrectable;
    forall blk | 0 <= blk < blocks ensures SameNibble(data, noisy, blk) <==> BlockCorrectable(data, noisy, blk) {
      BlockDecodes(data, noisy, blk);
    }
    if forall i :: 0 <= i < 4 * blocks ==> SameDataBit(data, noisy, i) {
      forall blk | 0 <= blk < blocks ensures BlockCorrectable(data, noisy, blk) {
        assert SameNibble(data, noisy, blk);
      }
    }
    if forall blk :: 0 <= blk < blocks ==> BlockCorrectable(data, noisy, blk) {
      forall i | 0 <= i < 4 * blocks ensures SameDataBit(data, noisy, i) {
        assert SameNibble(data, noisy, i / 4);
        assert i % 4 == 0 || i % 4 == 1 || i % 4 == 2 || i % 4 == 3;
      }
    }
  }

  // The layout of a block

  ghost predicate Even(a: bool, b: bool, c: bool, d: bool) { (a != b) == (c != d) }

  lemma {:induction false} CodewordLayout(x: bv8)
    ensures var c := HammingEncode4to7(x);
            && Bit(c, 2) == Bit(x, 0) && Bit(c, 4) == Bit(x, 1) && Bit(c, 5) == Bit(x, 2) && Bit(c, 6) == Bit(x, 3)
            && Even(Bit(c, 0), Bit(c, 2), Bit(c, 4), Bit(c, 6)) && Even(Bit(c, 1), Bit(c, 2), Bit(c, 5), Bit(c, 6))
            && Even(Bit(c, 3), Bit(c, 4), Bit(c, 5), Bit(c, 6)) && !Bit(c, 7)
  {
  }

  lemma {:induction false} BlockBit(data: seq<bv8>, blk: nat, i: nat)
    requires i < 7
    ensures CodeBit(data, 7 * blk + i) == Bit(HammingEncode4to7(Gather(data, 4 * blk, 4)), i)
  {
    hide Bit, Gather, HammingEncode4to7;
    assert (7 * blk + i) / 7 == blk && (7 * blk + i) % 7 == i;
  }

  /**
   Block blk of the encoded stream, positions counted from one: the data bits stand at 3, 5, 6 and 7, and the parity
   bit at 2^k makes the number of ones even among the positions with binary digit k.
   */
  lemma {:induction false} EncodeLayout(data: seq<bv8>, blk: nat) returns (c: seq<bool>)
    ensures |c| == 8 && forall j :: 1 <= j < 8 ==> c[j] == CodeBit(data, 7 * blk + (j - 1))
    ensures c[3] == BitOf(data, 4 * blk) && c[5] == BitOf(data, 4 * blk + 1)
    ensures c[6] == BitOf(data, 4 * blk + 2) && c[7] == BitOf(data, 4 * blk + 3)
    ensures Even(c[1], c[3], c[5], c[7]) && Even(c[2], c[3], c[6], c[7]) && Even(c[4], c[5], c[6], c[7])
  {
    hide Bit, BitOf, HammingEncode4to7, CodeBit, Gather;
    var x := Gather(data, 4 * blk, 4);
    CodewordLayout(x);
    GatherBit(data, 4 * blk, 4, 0);
    GatherBit(data, 4 * blk, 4, 1);
    GatherBit(data, 4 * blk, 4, 2);
    GatherBit(data, 4 * blk, 4, 3);
    c := [false] + LowBits(HammingEncode4to7(x), 7);
    forall j | 1 <= j < 8 ensures c[j] == CodeBit(data, 7 * blk + (j - 1)) {
      BlockBit(data, blk, j - 1);
    }
  }
}
