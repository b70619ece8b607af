/** The per-cycle flip vector that links the fuzzy extractor's measurements to the drift detector. */
module DriftPipeline {
  import opened Bits
  import opened Cusum
  import opened FuzzyExtractor
  import opened Wrappers

  datatype DeltaError = NoFingerprint | LengthMismatch | IndexOutOfRange

  predicate Differs(a: Fingerprint, b: Fingerprint, idx: nat) {
    BitOf(a.bits, idx) != BitOf(b.bits, idx)
  }

  function DeltaOf(enrolled: Fingerprint, later: Fingerprint, indices: seq<int>): (r: Result<seq<bool>, DeltaError>)
    ensures r.Ok? ==> |r.value| == |indices|
  {
    if enrolled.length == 0 || later.length == 0 then Err(NoFingerprint)
    else if enrolled.length != later.length then Err(LengthMismatch)
    else if exists i :: 0 <= i < |indices| && !(0 <= indices[i] < enrolled.length) then Err(IndexOutOfRange)
    else Ok(seq(|indices|, i requires 0 <= i < |indices| => Differs(enrolled, later, indices[i])))
  }

  method ComputeBitDelta(enrolled: Fingerprint, later: Fingerprint, indices: seq<int>)
    returns (r: Result<seq<bool>, DeltaError>)
    ensures r == DeltaOf(enrolled, later, indices)
  {
    hide BitOf;
    if enrolled.length == 0 || later.length == 0 {
      return Err(NoFingerprint);
    }
    if enrolled.length != later.length {
      return Err(LengthMismatch);
    }
    var out := seq(|indices|, i => false);
    for i := 0 to |indices|
      invariant |out| == |indices| && forall j :: 0 <= j < i ==> 0 <= indices[j] < enrolled.length
      invariant forall j :: 0 <= j < i ==> out[j] == Differs(enrolled, later, indices[j])
    {
      var idx := indices[i];
      if idx < 0 || idx >= enrolled.length {
        return Err(IndexOutOfRange);
      }
      out := out[i := BitOf(enrolled.bits, idx) != BitOf(later.bits, idx)];
    }
    assert out == DeltaOf(enrolled, later, indices).value;
    r := Ok(out);
  }

  /** Entry i tells whether the bit at the i-th index reads differently now. */
  lemma {:induction false} DeltaMeaning(enrolled: Fingerprint, later: Fingerprint, indices: seq<int>)
    ensures DeltaOf(enrolled, later, indices).Ok? <==>
              (&& enrolled.length == later.length > 0
               && forall i :: 0 <= i < |indices| ==> 0 <= indices[i] < enrolled.length)
    ensures DeltaOf(enrolled, later, indices).Ok? ==>
              forall i :: 0 <= i < |indices| ==>
                DeltaOf(enrolled, later, indices).value[i]
                == (BitOf(later.bits, indices[i]) != BitOf(enrolled.bits, indices[i]))
  {
    hide BitOf;
  }

  // Flip counts

  lemma {:induction false} HammingConcat(a: seq<bool>, b: seq<bool>)
    ensures FlipCount(a + b) == FlipCount(a) + FlipCount(b)
  {
    if b == [] {
      assert a + b == a;
    } else {
      HammingConcat(a, b[..|b| - 1]);
      assert (a + b)[..|a + b| - 1] == a + b[..|b| - 1];
    }
  }

  lemma {:induction false} NoFlip(s: seq<bool>)
    ensures FlipCount(s) == 0 <==> forall i :: 0 <= i < |s| ==> !s[i]
  {
    if s != [] {
      NoFlip(s[..|s| - 1]);
      assert s == s[..|s| - 1] + [s[|s| - 1]];
    }
  }

  lemma {:induction false} AtMostOneFlip(s: seq<bool>)
    ensures FlipCount(s) <= 1 <==> forall i, j :: 0 <= i < j < |s| ==> !(s[i] && s[j])
  {
    if s != [] {
      var front, last := s[..|s| - 1], |s| - 1;
      AtMostOneFlip(front);
      NoFlip(front);
      assert forall i :: 0 <= i < last ==> s[i] == front[i];
      if s[last] && FlipCount(front) > 0 {
        var i :| 0 <= i < |front| && front[i];
        assert s[i] && s[last];
      }
    }
  }

  function Group(delta: seq<bool>, blk: nat): seq<bool>
    requires 7 * blk + 7 <= |delta|
  {
    delta[7 * blk..7 * blk + 7]
  }

  ghost predicate OneFlipPerGroup(delta: seq<bool>, n: nat)
    requires 7 * n <= |delta|
  {
    forall blk :: 0 <= blk < n ==> FlipCount(Group(delta, blk)) <= 1
  }

  /** The groups' flips add up. */
  lemma {:induction false} GroupSum(delta: seq<bool>, n: nat)
    requires 7 * n <= |delta|
    ensures OneFlipPerGroup(delta, n) ==> FlipCount(delta[..7 * n]) <= n
    ensures FlipCount(delta[..7 * n]) <= 1 ==> OneFlipPerGroup(delta, n)
  {
    hide FlipCount;
    if n == 0 {
      assert delta[..0] == [];
      NoFlip([]);
    } else {
      GroupSum(delta, n - 1);
      HammingConcat(delta[..7 * (n - 1)], Group(delta, n - 1));
      assert delta[..7 * n] == delta[..7 * (n - 1)] + Group(delta, n - 1);
    }
  }

  // Key recovery, read off the flip vector

  ghost predicate GroupTolerable(enrolled: Fingerprint, later: Fingerprint, indices: seq<nat>, blk: nat)
    requires 7 * blk + 7 <= |indices|
  {
    forall i, j :: 0 <= i < j < 7 ==>
      !(Drifted(enrolled, later, indices, blk, i) && Drifted(enrolled, later, indices, blk, j))
  }

  lemma {:induction false} GroupTolerableMeaning(enrolled: Fingerprint, later: Fingerprint, indices: seq<nat>, blk: nat)
    requires DeltaOf(enrolled, later, indices).Ok? && 7 * blk + 7 <= |indices|
    ensures GroupTolerable(enrolled, later, indices, blk)
       <==> FlipCount(Group(DeltaOf(enrolled, later, indices).value, blk)) <= 1
  {
    hide BitOf, FlipCount;
    var group := Group(DeltaOf(enrolled, later, indices).value, blk);
    AtMostOneFlip(group);
    forall i | 0 <= i < 7 ensures group[i] == Drifted(enrolled, later, indices, blk, i) {
    }
    if !GroupTolerable(enrolled, later, indices, blk) {
      var i, j :| 0 <= i < j < 7
        && Drifted(enrolled, later, indices, blk, i) && Drifted(enrolled, later, indices, blk, j);
      assert group[i] && group[j];
    }
  }

  lemma {:induction false} TolerableIsOnePerGroup(enrolled: Fingerprint, later: Fingerprint, indices: seq<nat>)
    requires |indices| >= HELPER_BITS && DeltaOf(enrolled, later, indices).Ok?
    ensures Tolerable(enrolled, later, indices) <==> OneFlipPerGroup(DeltaOf(enrolled, later, indices).value, 32)
  {
    hide Drifted, FlipCount, DeltaOf;
    forall blk | 0 <= blk < 32
      ensures GroupTolerable(enrolled, later, indices, blk)
         <==> FlipCount(Group(DeltaOf(enrolled, later, indices).value, blk)) <= 1
    {
      GroupTolerableMeaning(enrolled, later, indices, blk);
    }
    assert Tolerable(enrolled, later, indices) ==>
      forall blk :: 0 <= blk < 32 ==> GroupTolerable(enrolled, later, indices, blk);
    if OneFlipPerGroup(DeltaOf(enrolled, later, indices).value, 32) {
      forall blk, i, j | 0 <= blk < 32 && 0 <= i < j < 7
        ensures !(Drifted(enrolled, later, indices, blk, i) && Drifted(enrolled, later, indices, blk, j))
      {
        assert GroupTolerable(enrolled, later, indices, blk);
      }
    }
  }

  /**
   One cycle's flip vector decides whether the key comes back: it does exactly when no group of seven holds two
   flips. In the detector's own measure: never with more than 32 flips among the 224 bits, always with at most one.
   */
  lemma {:induction false} DeltaDecidesKey(enrolled: Fingerprint, later: Fingerprint, indices: seq<nat>,
                                           secret: Secret, commit: seq<bv8> -> Commitment)
    requires |indices| >= HELPER_BITS && DeltaOf(enrolled, later, indices).Ok?
    requires Enrolled(enrolled, indices, secret, commit).Ok?
    ensures var delta := DeltaOf(enrolled, later, indices).value;
            var recovered := Reproduced(later, Enrolled(enrolled, indices, secret, commit).value, commit) == Ok(secret);
            && (recovered <==> OneFlipPerGroup(delta, 32))
            && (recovered ==> FlipCount(delta[..HELPER_BITS]) <= 32)
            && (FlipCount(delta[..HELPER_BITS]) <= 1 ==> recovered)
  {
    hide Enrolled, Reproduced, Tolerable, FlipCount, Differs;
    ReproducesIffTolerable(enrolled, later, indices, secret, commit);
    TolerableIsOnePerGroup(enrolled, later, indices);
    GroupSum(DeltaOf(enrolled, later, indices).value, 32);
  }
}
