/**
 The code-offset fuzzy extractor: Enroll hides a Hamming codeword under PUF bits, Reproduce recovers the
 secret from a fresh measurement; SelectReliableBits chooses the bit positions.

 The commitment (an HKDF) is a parameter about which nothing is assumed.
 */
module FuzzyExtractor {
  import opened Bits
  import opened Hamming
  import opened Wrappers

  const FUZZY_KEY_VERSION := 1
  const SECRET_BITS := 128
  const HELPER_BITS := 224

  datatype Fingerprint = Fingerprint(bits: seq<bv8>, length: nat)

  type Secret = k: seq<bv8> | |k| == 16 witness seq(16, i => 0)
  type Commitment = seq<bv8>

  datatype HelperData = HelperData(
    version: int,
    indices: seq<nat>,
    mask: seq<bv8>,
    maskBits: int,
    secretBits: int,
    commitment: Commitment)

  datatype FuzzyError =
    | TooFewIndices
    | EmptyFingerprint
    | UnsupportedVersion
    | WrongSizes
    | WrongIndexCount
    | EncodedLength
    | DecodedLength
    | CommitmentMismatch

  function SelectedBits(buf: seq<bv8>, indices: seq<nat>): (bits: seq<bool>)
    ensures |bits| == |indices|
  {
    seq(|indices|, i requires 0 <= i < |indices| => BitOf(buf, indices[i]))
  }

  method ExtractBitsAt(buf: seq<bv8>, indices: seq<nat>) returns (out: seq<bv8>)
    ensures out == Pack(SelectedBits(buf, indices))
  {
    hide Bit, Mask, WithBit, Pack;
    out := seq(PackedSize(|indices|), i => 0);
    forall b | 0 <= b < 8 * |out| ensures !BitOf(out, b) {
      ZeroBits(out, b);
    }
    for i := 0 to |indices|
      invariant |out| == PackedSize(|indices|)
      invariant forall b :: 0 <= b < 8 * |out| ==> BitOf(out, b) == (b < i && BitOf(buf, indices[b]))
    {
      if BitOf(buf, indices[i]) {
        WithBitMeaning(out, i);
        out := WithBit(out, i);
      }
    }
    PackMeaning(SelectedBits(buf, indices));
    PackedUnique(out, Pack(SelectedBits(buf, indices)), SelectedBits(buf, indices));
  }

  function Xor(a: seq<bv8>, b: seq<bv8>): (r: seq<bv8>) {
    if |a| != |b| then [] else seq(|a|, i requires 0 <= i < |a| => a[i] ^ b[i])
  }

  method XorBytes(a: seq<bv8>, b: seq<bv8>) returns (out: seq<bv8>)
    ensures out == Xor(a, b)
  {
    if |a| != |b| {
      return [];
    }
    out := [];
    for i := 0 to |a|
      invariant out == Xor(a, b)[..i]
    {
      out := out + [a[i] ^ b[i]];
    }
  }

  lemma {:induction false} XorIsBitwise(a: seq<bv8>, b: seq<bv8>, i: nat)
    requires |a| == |b|
    ensures BitOf(Xor(a, b), i) == (BitOf(a, i) != BitOf(b, i))
  {
    hide Bit;
    if i / 8 < |a| {
      XorBit(a[i / 8], b[i / 8], i % 8);
    }
  }

  function Enrolled(fp: Fingerprint, indices: seq<nat>, secret: Secret, commit: seq<bv8> -> Commitment)
    : Result<HelperData, FuzzyError>
  {
    if |indices| < HELPER_BITS then Err(TooFewIndices)
    else if fp.length == 0 then Err(EmptyFingerprint)
    else
      var used := indices[..HELPER_BITS];
      var mask := Xor(Pack(EncodedBits(secret, HELPER_BITS)), Pack(SelectedBits(fp.bits, used)));
      Ok(HelperData(FUZZY_KEY_VERSION, used, mask, HELPER_BITS, SECRET_BITS, commit(secret)))
  }

  method Enroll(fp: Fingerprint, indices: seq<nat>, secret: Secret, commit: seq<bv8> -> Commitment)
    returns (r: Result<HelperData, FuzzyError>)
    ensures r == Enrolled(fp, indices, secret, commit)
  {
    hide Pack;
    if |indices| < HELPER_BITS {
      return Err(TooFewIndices);
    }
    if fp.length == 0 {
      return Err(EmptyFingerprint);
    }
    var codeword, encBits := EncodeHamming74(secret, SECRET_BITS);
    if encBits != HELPER_BITS {
      return Err(EncodedLength);
    }
    var pufBits := ExtractBitsAt(fp.bits, indices[..HELPER_BITS]);
    var mask := XorBytes(codeword, pufBits);
    r := Ok(HelperData(FUZZY_KEY_VERSION, indices[..HELPER_BITS], mask, HELPER_BITS, SECRET_BITS, commit(secret)));
  }

  /** The word handed to the decoder. */
  function Unmasked(fp: Fingerprint, hd: HelperData): seq<bv8> {
    Xor(hd.mask, Pack(SelectedBits(fp.bits, hd.indices)))
  }

  function Reproduced(fp: Fingerprint, hd: HelperData, commit: seq<bv8> -> Commitment)
    : Result<seq<bv8>, FuzzyError>
  {
    if hd.version != FUZZY_KEY_VERSION then Err(UnsupportedVersion)
    else if hd.maskBits != HELPER_BITS || hd.secretBits != SECRET_BITS then Err(WrongSizes)
    else if |hd.indices| != HELPER_BITS then Err(WrongIndexCount)
    else if fp.length == 0 then Err(EmptyFingerprint)
    else
      var secret := Pack(DecodedBits(Unmasked(fp, hd), SECRET_BITS));
      if commit(secret) != hd.commitment then Err(CommitmentMismatch) else Ok(secret)
  }

  method Reproduce(fp: Fingerprint, hd: HelperData, commit: seq<bv8> -> Commitment)
    returns (r: Result<seq<bv8>, FuzzyError>)
    ensures r == Reproduced(fp, hd, commit)
  {
    hide Pack;
    if hd.version != FUZZY_KEY_VERSION {
      return Err(UnsupportedVersion);
    }
    if hd.maskBits != HELPER_BITS || hd.secretBits != SECRET_BITS {
      return Err(WrongSizes);
    }
    if |hd.indices| != HELPER_BITS {
      return Err(WrongIndexCount);
    }
    if fp.length == 0 {
      return Err(EmptyFingerprint);
    }
    var pufBits := ExtractBitsAt(fp.bits, hd.indices);
    var codewordNoisy := XorBytes(hd.mask, pufBits);
    var secret, decBits := DecodeHamming74(codewordNoisy, HELPER_BITS);
    if decBits != SECRET_BITS {
      return Err(DecodedLength);
    }
    if commit(secret) != hd.commitment {
      return Err(CommitmentMismatch);
    }
    r := Ok(secret);
  }

  // What the two operations guarantee together

  /** The i-th selected bit of group blk reads differently now. */
  predicate Drifted(enrolled: Fingerprint, later: Fingerprint, indices: seq<nat>, blk: nat, i: nat)
    requires 7 * blk + i < |indices|
  {
    BitOf(enrolled.bits, indices[7 * blk + i]) != BitOf(later.bits, indices[7 * blk + i])
  }

  /** In every group of seven consecutive selected indices at most one bit drifted. */
  ghost predicate Tolerable(enrolled: Fingerprint, later: Fingerprint, indices: seq<nat>)
    requires |indices| >= HELPER_BITS
  {
    forall blk, i, j :: 0 <= blk < 32 && 0 <= i < j < 7 ==>
      !(Drifted(enrolled, later, indices, blk, i) && Drifted(enrolled, later, indices, blk, j))
  }

  /** Unmasking with a later measurement leaves the codeword with exactly the drifted bits flipped. */
  lemma {:induction false} UnmaskedBit(enrolled: Fingerprint, later: Fingerprint, indices: seq<nat>, secret: Secret,
                                       commit: seq<bv8> -> Commitment, blk: nat, i: nat)
    requires Enrolled(enrolled, indices, secret, commit).Ok? && blk < 32 && i < 7
    ensures Flipped(secret, Unmasked(later, Enrolled(enrolled, indices, secret, commit).value), blk, i)
       <==> Drifted(enrolled, later, indices, blk, i)
  {
    hide BitOf, Pack, Xor, CodeBit;
    var m := 7 * blk + i;
    var used := indices[..HELPER_BITS];
    var code := EncodedBits(secret, HELPER_BITS);
    var before, now := SelectedBits(enrolled.bits, used), SelectedBits(later.bits, used);
    PackMeaning(code);
    PackMeaning(before);
    PackMeaning(now);
    XorIsBitwise(Pack(code), Pack(before), m);
    XorSize(Pack(code), Pack(before));
    XorIsBitwise(Xor(Pack(code), Pack(before)), Pack(now), m);
    assert BitOf(Pack(code), m) == code[m];
    assert BitOf(Pack(before), m) == before[m];
    assert BitOf(Pack(now), m) == now[m];
  }

  lemma {:induction false} XorSize(a: seq<bv8>, b: seq<bv8>)
    requires |a| == |b|
    ensures |Xor(a, b)| == |a|
  {
  }

  lemma {:induction false} DecodedIsSecret(secret: Secret, noisy: seq<bv8>)
    ensures Pack(DecodedBits(noisy, SECRET_BITS)) == secret
       <==> forall i :: 0 <= i < SECRET_BITS ==> SameDataBit(secret, noisy, i)
  {
    hide Bit, DataBit, Pack;
    var bits := DecodedBits(noisy, SECRET_BITS);
    PackMeaning(bits);
    forall i | 0 <= i < SECRET_BITS ensures BitOf(Pack(bits), i) == DataBit(noisy, i) {
      assert BitOf(Pack(bits), i) == bits[i];
    }
    if forall i :: 0 <= i < SECRET_BITS ==> SameDataBit(secret, noisy, i) {
      forall b | 0 <= b < 8 * |secret| ensures BitOf(secret, b) == bits[b] {
        assert SameDataBit(secret, noisy, b);
      }
      PackedUnique(Pack(bits), secret, bits);
    }
  }

  /**
   Enrol, then reproduce from any later measurement: the secret comes back exactly when every group of seven
   selected bits drifted in at most one place. Otherwise the result is an error, or the decoder has hit on a
   second secret with the same commitment.
   */
  lemma {:induction false} ReproducesIffTolerable(enrolled: Fingerprint, later: Fingerprint, indices: seq<nat>,
                                                  secret: Secret, commit: seq<bv8> -> Commitment)
    requires |indices| >= HELPER_BITS && enrolled.length != 0 && later.length != 0
    ensures Enrolled(enrolled, indices, secret, commit).Ok?
    ensures var r := Reproduced(later, Enrolled(enrolled, indices, secret, commit).value, commit);
            && (r == Ok(secret) <==> Tolerable(enrolled, later, indices))
            && (r != Ok(secret) ==>
                  r == Err(CommitmentMismatch) || (r.Ok? && r.value != secret && commit(r.value) == commit(secret)))
  {
    hide Drifted, Flipped, Pack, Unmasked;
    var hd := Enrolled(enrolled, indices, secret, commit).value;
    var noisy := Unmasked(later, hd);
    forall blk, i | 0 <= blk < 32 && 0 <= i < 7
      ensures Flipped(secret, noisy, blk, i) <==> Drifted(enrolled, later, indices, blk, i)
    {
      UnmaskedBit(enrolled, later, indices, secret, commit, blk, i);
    }
    TolerableByBlock(enrolled, later, indices, secret, noisy);
    StreamDecodes(secret, noisy, 32);
    DecodedIsSecret(secret, noisy);
  }

  lemma {:induction false} TolerableByBlock(enrolled: Fingerprint, later: Fingerprint, indices: seq<nat>,
                                            secret: Secret, noisy: seq<bv8>)
    requires |indices| >= HELPER_BITS
    requires forall blk, i :: 0 <= blk < 32 && 0 <= i < 7 ==>
               (Flipped(secret, noisy, blk, i) <==> Drifted(enrolled, later, indices, blk, i))
    ensures Tolerable(enrolled, later, indices)
       <==> forall blk :: 0 <= blk < 32 ==> BlockCorrectable(secret, noisy, blk)
  {
    hide Drifted, Flipped;
    if forall blk :: 0 <= blk < 32 ==> BlockCorrectable(secret, noisy, blk) {
      forall blk, i, j | 0 <= blk < 32 && 0 <= i < j < 7
        ensures !(Drifted(enrolled, later, indices, blk, i) && Drifted(enrolled, later, indices, blk, j))
      {
        assert BlockCorrectable(secret, noisy, blk);
      }
    }
  }

  // Selecting the bits to enrol

  /** Calibration cycles 1..c-1 in which bit b differs from cycle 0. */
  function Flips(fps: seq<Fingerprint>, c: nat, b: nat): (n: nat)
    requires 1 <= c <= |fps|
    ensures n < c
  {
    if c == 1 then 0
    else Flips(fps, c - 1, b) + (if BitOf(fps[0].bits, b) != BitOf(fps[c - 1].bits, b) then 1 else 0)
  }

  predicate RateAtMost(flips: nat, cycles: nat, maxBER: real)
    requires cycles > 0
  {
    flips as real / cycles as real <= maxBER
  }

  predicate Reliable(fps: seq<Fingerprint>, maxBER: real, b: nat)
    requires |fps| >= 2
  {
    RateAtMost(Flips(fps, |fps|, b), |fps| - 1, maxBER)
  }

  /** The error rate admits no flip at all over this many cycles. */
  predicate AdmitsNoFlip(cycles: nat, maxBER: real) {
    cycles as real * maxBER < 1.0
  }

  function ReliableBelow(fps: seq<Fingerprint>, maxBER: real, n: nat): seq<nat>
    requires |fps| >= 2
  {
    if n == 0 then []
    else ReliableBelow(fps, maxBER, n - 1) + if Reliable(fps, maxBER, n - 1) then [n - 1] else []
  }

  predicate SameLength(fps: seq<Fingerprint>) {
    forall i :: 0 <= i < |fps| ==> fps[i].length == fps[0].length
  }

  function ReliableBits(fps: seq<Fingerprint>, maxBER: real): seq<nat> {
    if |fps| < 2 || !SameLength(fps) then [] else ReliableBelow(fps, maxBER, fps[0].length)
  }

  /** The counting loops of SelectReliableBits. */
  method CountFlips(fps: seq<Fingerprint>, bitLen: nat) returns (flips: array<nat>)
    requires fps != []
    ensures fresh(flips) && flips.Length == bitLen
    ensures forall b :: 0 <= b < bitLen ==> flips[b] == Flips(fps, |fps|, b)
  {
    hide BitOf;
    flips := new nat[bitLen](_ => 0);
    for c := 1 to |fps|
      invariant forall b :: 0 <= b < bitLen ==> flips[b] == Flips(fps, c, b)
    {
      for b := 0 to bitLen
        invariant forall m :: 0 <= m < b ==> flips[m] == Flips(fps, c + 1, m)
        invariant forall m :: b <= m < bitLen ==> flips[m] == Flips(fps, c, m)
      {
        if BitOf(fps[0].bits, b) != BitOf(fps[c].bits, b) {
          flips[b] := flips[b] + 1;
        }
      }
    }
  }

  /** The indices are collected in ascending order, so sorting them at the end changes nothing. */
  method SelectReliableBits(fps: seq<Fingerprint>, maxBER: real) returns (out: seq<nat>)
    ensures out == ReliableBits(fps, maxBER)
  {
    if |fps| < 2 {
      return [];
    }
    var bitLen := fps[0].length;
    for i := 0 to |fps|
      invariant forall j :: 0 <= j < i ==> fps[j].length == bitLen
    {
      if fps[i].length != bitLen {
        return [];
      }
    }
    hide BitOf, Flips, RateAtMost;
    var flips := CountFlips(fps, bitLen);
    var denom := |fps| - 1;
    out := [];
    for b := 0 to bitLen
      invariant out == ReliableBelow(fps, maxBER, b)
    {
      if RateAtMost(flips[b], denom, maxBER) {
        out := out + [b];
      }
    }
  }

  lemma {:induction false} ReliableBelowMembers(fps: seq<Fingerprint>, maxBER: real, n: nat)
    requires |fps| >= 2
    ensures var out := ReliableBelow(fps, maxBER, n);
            && (forall b :: b in out <==> 0 <= b < n && Reliable(fps, maxBER, b))
            && (forall i, j :: 0 <= i < j < |out| ==> out[i] < out[j])
  {
    hide Reliable;
    if n > 0 {
      ReliableBelowMembers(fps, maxBER, n - 1);
      var front := ReliableBelow(fps, maxBER, n - 1);
      assert forall i :: 0 <= i < |front| ==> front[i] in front;
    }
  }

  lemma {:induction false} NoFlips(fps: seq<Fingerprint>, c: nat, b: nat, m: nat)
    requires 1 <= c <= |fps| && Flips(fps, c, b) == 0 && m < c
    ensures BitOf(fps[m].bits, b) == BitOf(fps[0].bits, b)
  {
    hide Bit;
    if c > 1 {
      if m < c - 1 {
        NoFlips(fps, c - 1, b, m);
      }
    }
  }

  lemma {:induction false} BelowOneFlip(flips: nat, cycles: nat, maxBER: real)
    requires cycles > 0 && AdmitsNoFlip(cycles, maxBER) && RateAtMost(flips, cycles, maxBER)
    ensures flips == 0
  {
    QuotientBelowOne(flips as real, cycles as real, maxBER);
  }

  lemma {:induction false} QuotientBelowOne(x: real, c: real, bound: real)
    requires c > 0.0 && c * bound < 1.0 && x / c <= bound
    ensures x < 1.0
  {
    var rate := x / c;
    QuotientTimes(x, c);
    assert x == rate * c;
    TimesPositive(rate, bound, c);
    assert rate * c <= bound * c;
    assert bound * c < 1.0;
    assert x <= bound * c;
  }

  lemma {:induction false} TimesPositive(x: real, y: real, c: real)
    requires x <= y && c > 0.0
    ensures x * c <= y * c && y * c == c * y
  {
  }

  lemma {:induction false} QuotientTimes(x: real, c: real)
    requires c > 0.0
    ensures x / c * c == x
  {
  }

  /**
   When the allowed error rate is below one flip over the calibration cycles, enrolling the first cycle on
   the selected bits makes every calibration cycle reproduce the secret.
   */
  lemma {:induction false} CalibrationReproduces(fps: seq<Fingerprint>, maxBER: real, m: nat, secret: Secret,
                                                 commit: seq<bv8> -> Commitment)
    requires |fps| >= 2 && AdmitsNoFlip(|fps| - 1, maxBER) && m < |fps|
    requires |ReliableBits(fps, maxBER)| >= HELPER_BITS
    ensures var indices := ReliableBits(fps, maxBER);
            && (forall i, j :: 0 <= i < j < |indices| ==> indices[i] < indices[j] < fps[0].length)
            && Enrolled(fps[0], indices, secret, commit).Ok?
            && Reproduced(fps[m], Enrolled(fps[0], indices, secret, commit).value, commit) == Ok(secret)
  {
    hide BitOf, Flips, Reproduced, Enrolled, Tolerable, Reliable;
    var indices := ReliableBits(fps, maxBER);
    ReliableBelowMembers(fps, maxBER, fps[0].length);
    assert indices[0] in indices;
    forall i | 0 <= i < |indices|
      ensures indices[i] < fps[0].length && BitOf(fps[m].bits, indices[i]) == BitOf(fps[0].bits, indices[i])
    {
      assert indices[i] in indices;
      ReliableAgrees(fps, maxBER, m, indices[i]);
    }
    NoDriftTolerable(fps[0], fps[m], indices);
    ReproducesIffTolerable(fps[0], fps[m], indices, secret, commit);
  }

  lemma {:induction false} ReliableAgrees(fps: seq<Fingerprint>, maxBER: real, m: nat, b: nat)
    requires |fps| >= 2 && AdmitsNoFlip(|fps| - 1, maxBER) && m < |fps|
    requires Reliable(fps, maxBER, b)
    ensures BitOf(fps[m].bits, b) == BitOf(fps[0].bits, b)
  {
    hide BitOf, Flips, RateAtMost, AdmitsNoFlip;
    BelowOneFlip(Flips(fps, |fps|, b), |fps| - 1, maxBER);
    NoFlips(fps, |fps|, b, m);
  }

  lemma {:induction false} NoDriftTolerable(enrolled: Fingerprint, later: Fingerprint, indices: seq<nat>)
    requires |indices| >= HELPER_BITS
    requires forall i :: 0 <= i < |indices| ==> BitOf(later.bits, indices[i]) == BitOf(enrolled.bits, indices[i])
    ensures Tolerable(enrolled, later, indices)
  {
    hide BitOf;
  }

  // What the operations return, bit by bit

  /** The helper data: the first 224 indices, and the codeword's bits hidden under the bits measured there. */
  lemma {:induction false} EnrolledMeaning(fp: Fingerprint, indices: seq<nat>, secret: Secret,
                                           commit: seq<bv8> -> Commitment)
    ensures Enrolled(fp, indices, secret, commit).Ok? <==> |indices| >= 224 && fp.length > 0
    ensures Enrolled(fp, indices, secret, commit).Ok? ==>
              var hd := Enrolled(fp, indices, secret, commit).value;
              && hd.version == 1 && hd.maskBits == 224 && hd.secretBits == 128 && hd.commitment == commit(secret)
              && |hd.indices| == 224 && |hd.mask| == 28 && hd.indices <= indices
              && forall b :: 0 <= b < 224 ==>
                   BitOf(hd.mask, b) == (CodeBit(secret, b) != BitOf(fp.bits, indices[b]))
  {
    hide BitOf, Pack, CodeBit;
    if |indices| >= HELPER_BITS && fp.length > 0 {
      var code, read := EncodedBits(secret, HELPER_BITS), SelectedBits(fp.bits, indices[..HELPER_BITS]);
      PackMeaning(code);
      PackMeaning(read);
      XorSize(Pack(code), Pack(read));
      forall b | 0 <= b < 224
        ensures BitOf(Xor(Pack(code), Pack(read)), b) == (CodeBit(secret, b) != BitOf(fp.bits, indices[b]))
      {
        XorIsBitwise(Pack(code), Pack(read), b);
      }
    }
  }

  /** The word to decode: the mask's bits with those measured now taken off. */
  lemma {:induction false} UnmaskedMeaning(fp: Fingerprint, hd: HelperData)
    requires |hd.indices| == 224
    ensures |hd.mask| == 28 ==>
              && |Unmasked(fp, hd)| == 28
              && forall b :: 0 <= b < 224 ==>
                   BitOf(Unmasked(fp, hd), b) == (BitOf(hd.mask, b) != BitOf(fp.bits, hd.indices[b]))
    ensures |hd.mask| != 28 ==> Unmasked(fp, hd) == []
  {
    hide BitOf, Pack;
    var read := SelectedBits(fp.bits, hd.indices);
    PackMeaning(read);
    if |hd.mask| == 28 {
      XorSize(hd.mask, Pack(read));
      forall b | 0 <= b < 224
        ensures BitOf(Unmasked(fp, hd), b) == (BitOf(hd.mask, b) != BitOf(fp.bits, hd.indices[b]))
      {
        XorIsBitwise(hd.mask, Pack(read), b);
      }
    }
  }

  /** Whatever the helper data: exactly when well formed and committed to is the decoded word returned. */
  lemma {:induction false} ReproducedIff(fp: Fingerprint, hd: HelperData, commit: seq<bv8> -> Commitment,
                                         secret: Secret)
    ensures Reproduced(fp, hd, commit) == Ok(secret) <==>
              (&& hd.version == 1 && hd.maskBits == 224 && hd.secretBits == 128 && |hd.indices| == 224
               && fp.length > 0 && commit(secret) == hd.commitment
               && forall i :: 0 <= i < 128 ==> BitOf(secret, i) == DataBit(Unmasked(fp, hd), i))
  {
    hide BitOf, Pack, DecodedBits, DataBit, Unmasked;
    DecodedIsSecret(secret, Unmasked(fp, hd));
    forall i | 0 <= i < 128
      ensures SameDataBit(secret, Unmasked(fp, hd), i) <==> BitOf(secret, i) == DataBit(Unmasked(fp, hd), i)
    {
    }
  }

  /** The cycles after the first in which bit b reads differently from the first. */
  ghost function FlipCycles(fps: seq<Fingerprint>, b: nat): set<int>
    requires fps != []
  {
    set c | 1 <= c < |fps| && BitOf(fps[c].bits, b) != BitOf(fps[0].bits, b)
  }

  lemma {:induction false} FlipsAreCycles(fps: seq<Fingerprint>, c: nat, b: nat)
    requires 1 <= c <= |fps|
    ensures Flips(fps, c, b) == |set m | 1 <= m < c && BitOf(fps[m].bits, b) != BitOf(fps[0].bits, b)|
  {
    hide BitOf;
    if c > 1 {
      FlipsAreCycles(fps, c - 1, b);
      var before := set m | 1 <= m < c - 1 && BitOf(fps[m].bits, b) != BitOf(fps[0].bits, b);
      var all := set m | 1 <= m < c && BitOf(fps[m].bits, b) != BitOf(fps[0].bits, b);
      assert all == before + if BitOf(fps[c - 1].bits, b) != BitOf(fps[0].bits, b) then {c - 1} else {};
    }
  }

  lemma {:induction false} RateMeaning(flips: nat, cycles: nat, maxBER: real)
    requires cycles > 0
    ensures RateAtMost(flips, cycles, maxBER) <==> flips as real <= maxBER * cycles as real
  {
    var rate, c := flips as real / cycles as real, cycles as real;
    QuotientTimes(flips as real, c);
    if rate <= maxBER {
      TimesPositive(rate, maxBER, c);
    } else {
      StrictlyMore(maxBER, rate, c);
    }
  }

  lemma {:induction false} StrictlyMore(x: real, y: real, c: real)
    requires x < y && c > 0.0
    ensures x * c < y * c
  {
  }

  /** Selected are exactly the bits that flipped in at most that share of the later cycles. */
  lemma {:induction false} ReliableBitsMeaning(fps: seq<Fingerprint>, maxBER: real)
    ensures |fps| >= 2 && (forall i :: 0 <= i < |fps| ==> fps[i].length == fps[0].length) ==>
              forall b: nat ::
                b in ReliableBits(fps, maxBER) <==> b < fps[0].length && SelectedRate(fps, maxBER, b)
    ensures !(|fps| >= 2 && forall i :: 0 <= i < |fps| ==> fps[i].length == fps[0].length) ==>
              ReliableBits(fps, maxBER) == []
  {
    hide BitOf, Reliable, FlipCycles, ReliableBelow, SelectedRate;
    if |fps| >= 2 && SameLength(fps) {
      var n := fps[0].length;
      ReliableBelowMembers(fps, maxBER, n);
      forall b: nat ensures b in ReliableBelow(fps, maxBER, n) <==> b < n && SelectedRate(fps, maxBER, b) {
        ReliableMeaning(fps, maxBER, b);
      }
      assert ReliableBits(fps, maxBER) == ReliableBelow(fps, maxBER, n);
    } else {
      assert ReliableBits(fps, maxBER) == [];
    }
  }

  lemma {:induction false} ReliableBitsAscend(fps: seq<Fingerprint>, maxBER: real)
    ensures var out := ReliableBits(fps, maxBER);
            forall i, j :: 0 <= i < j < |out| ==> out[i] < out[j]
  {
    if |fps| >= 2 && SameLength(fps) {
      ReliableBelowMembers(fps, maxBER, fps[0].length);
    }
  }

  /** Bit b flipped in at most that share of the cycles after the first. */
  ghost predicate SelectedRate(fps: seq<Fingerprint>, maxBER: real, b: nat)
    requires fps != []
  {
    |FlipCycles(fps, b)| as real <= maxBER * (|fps| - 1) as real
  }

  lemma {:induction false} ReliableMeaning(fps: seq<Fingerprint>, maxBER: real, b: nat)
    requires |fps| >= 2
    ensures Reliable(fps, maxBER, b) <==> SelectedRate(fps, maxBER, b)
  {
    hide BitOf, RateAtMost, Flips;
    FlipsAreCycles(fps, |fps|, b);
    RateMeaning(Flips(fps, |fps|, b), |fps| - 1, maxBER);
  }
}
