/**
 Participation masks and aggregate signatures. The BDN aggregate itself is a parameter; the mask operations are
 those of the signature library: bit i of byte i / 8, low bit first.
 */
module DaqMask {
  import opened Bits
  import opened Combinatorics
  import opened Encoding
  import opened Wrappers

  const BDN_SIGNATURE_SIZE := 48

  datatype PublicKey = PublicKey(point: nat)

  /** A roster slot may lack a key. */
  type Roster = seq<Option<PublicKey>>

  datatype Bdn = Bdn(
    marshal: PublicKey -> Bytes,
    verify: (PublicKey, Bytes, Bytes) -> bool,
    aggregate: (seq<PublicKey>, seq<bv8>, seq<Bytes>) -> Option<Bytes>,
    verifyAggregate: (seq<PublicKey>, seq<bv8>, Bytes, Bytes) -> bool)

  datatype MaskError =
    | EmptyRoster
    | CountMismatch
    | NilPubkey
    | NilKeyPanic
    | IndexRange
    | AggregateFailed
    | SignatureSize
    | MaskLength
    | TooFewParticipants
    | AggregateInvalid

  /** The positions below n whose bits are set, ascending. */
  function Enabled(mask: seq<bv8>, n: nat): (r: seq<nat>) {
    if n == 0 then [] else Enabled(mask, n - 1) + (if BitOf(mask, n - 1) then [n - 1] else [])
  }

  /** sigs holds, in ascending slot order, one valid signature on msg for each enabled slot. */
  ghost predicate AlignedSignatures(b: Bdn, pubs: seq<PublicKey>, mask: seq<bv8>, sigs: seq<Bytes>, msg: Bytes) {
    var slots := Enabled(mask, |pubs|);
    && |sigs| == |slots| > 0 && |mask| == PackedSize(|pubs|)
    && forall i :: 0 <= i < |sigs| ==> slots[i] < |pubs| && b.verify(pubs[slots[i]], msg, sigs[i])
  }

  /** The aggregation scheme does its job: aligned valid signatures aggregate to one that verifies. */
  ghost predicate BdnSound(b: Bdn) {
    forall pubs, mask, sigs, msg :: AlignedSignatures(b, pubs, mask, sigs, msg) ==>
      && b.aggregate(pubs, mask, sigs).Some?
      && |b.aggregate(pubs, mask, sigs).value| == BDN_SIGNATURE_SIZE
      && b.verifyAggregate(pubs, mask, b.aggregate(pubs, mask, sigs).value, msg)
  }

  predicate NoNil(roster: Roster) {
    forall i :: 0 <= i < |roster| ==> roster[i].Some?
  }

  function Points(roster: Roster): (pubs: seq<PublicKey>)
    requires NoNil(roster)
    ensures |pubs| == |roster|
  {
    seq(|roster|, i requires 0 <= i < |roster| => roster[i].value)
  }

  datatype AggregateResult = AggregateResult(signature: Bytes, mask: seq<bv8>, count: nat)

  // Setting bits

  function EmptyMask(n: nat): (mask: seq<bv8>)
    ensures |mask| == PackedSize(n)
  {
    seq(PackedSize(n), i => 0)
  }

  function MaskOf(indexes: seq<int>, n: nat): (mask: seq<bv8>)
    requires forall i :: 0 <= i < |indexes| ==> 0 <= indexes[i] < n
    ensures |mask| == PackedSize(n)
  {
    if indexes == [] then EmptyMask(n)
    else WithBit(MaskOf(indexes[..|indexes| - 1], n), indexes[|indexes| - 1])
  }

  lemma {:induction false} MaskOfMeaning(indexes: seq<int>, n: nat)
    requires forall i :: 0 <= i < |indexes| ==> 0 <= indexes[i] < n
    ensures forall b :: 0 <= b ==> BitOf(MaskOf(indexes, n), b) == (b in indexes)
  {
    hide BitOf, WithBit;
    if indexes == [] {
      forall b | 0 <= b ensures !BitOf(EmptyMask(n), b) {
        ZeroBits(EmptyMask(n), b);
      }
    } else {
      var front, last := indexes[..|indexes| - 1], indexes[|indexes| - 1];
      MaskOfMeaning(front, n);
      WithBitMeaning(MaskOf(front, n), last);
      assert indexes == front + [last];
    }
  }

  lemma {:induction false} AscendingFits(indexes: seq<nat>, n: nat)
    requires forall i, j :: 0 <= i < j < |indexes| ==> indexes[i] < indexes[j]
    requires forall i :: 0 <= i < |indexes| ==> indexes[i] < n
    ensures |indexes| <= n
  {
    DistinctSize(indexes);
    BoundedSize(Elements(indexes), n);
  }

  /** An ascending list of slots is what the enabled bits of its mask spell out. */
  lemma {:induction false} EnabledOfAscending(mask: seq<bv8>, n: nat, indexes: seq<nat>)
    requires forall i, j :: 0 <= i < j < |indexes| ==> indexes[i] < indexes[j]
    requires forall b :: 0 <= b < n ==> BitOf(mask, b) == (b in indexes)
    requires forall i :: 0 <= i < |indexes| ==> indexes[i] < n
    ensures Enabled(mask, n) == indexes
  {
    hide BitOf;
    if n == 0 {
      AscendingFits(indexes, 0);
    } else if BitOf(mask, n - 1) {
      var k :| 0 <= k < |indexes| && indexes[k] == n - 1;
      assert indexes[k] <= indexes[|indexes| - 1] < n;
      assert k == |indexes| - 1;
      var front := indexes[..k];
      forall b | 0 <= b < n - 1 ensures BitOf(mask, b) == (b in front) {
        assert b in indexes <==> b in front + [n - 1];
      }
      EnabledOfAscending(mask, n - 1, front);
      assert indexes == front + [n - 1];
    } else {
      forall i | 0 <= i < |indexes| ensures indexes[i] < n - 1 {
        assert indexes[i] in indexes;
      }
      EnabledOfAscending(mask, n - 1, indexes);
    }
  }

  lemma {:induction false} EnabledBounds(mask: seq<bv8>, n: nat)
    ensures forall i :: 0 <= i < |Enabled(mask, n)| ==> Enabled(mask, n)[i] < n
    ensures |Enabled(mask, n)| <= n
  {
    hide BitOf;
    if n > 0 {
      EnabledBounds(mask, n - 1);
    }
  }

  lemma {:induction false} EnabledAscending(mask: seq<bv8>, n: nat)
    ensures forall i, j :: 0 <= i < j < |Enabled(mask, n)| ==> Enabled(mask, n)[i] < Enabled(mask, n)[j]
  {
    hide BitOf;
    if n > 0 {
      EnabledAscending(mask, n - 1);
      EnabledBounds(mask, n - 1);
    }
  }

  // The three operations

  predicate InRange(indexes: seq<int>, n: nat) {
    forall i :: 0 <= i < |indexes| ==> 0 <= indexes[i] < n
  }

  function Aggregated(b: Bdn, roster: Roster, indexes: seq<int>, sigs: seq<Bytes>): Result<AggregateResult, MaskError> {
    if |roster| == 0 then Err(EmptyRoster)
    else if |indexes| != |sigs| then Err(CountMismatch)
    else if !NoNil(roster) then Err(NilPubkey)
    else if !InRange(indexes, |roster|) then Err(IndexRange)
    else
      var mask := MaskOf(indexes, |roster|);
      match b.aggregate(Points(roster), mask, sigs)
      case None => Err(AggregateFailed)
      case Some(agg) => Ok(AggregateResult(agg, mask, |Enabled(mask, |roster|)|))
  }

  method AggregateSigs(b: Bdn, roster: Roster, indexes: seq<int>, sigs: seq<Bytes>)
    returns (r: Result<AggregateResult, MaskError>)
    ensures r == Aggregated(b, roster, indexes, sigs)
  {
    if |roster| == 0 {
      return Err(EmptyRoster);
    }
    if |indexes| != |sigs| {
      return Err(CountMismatch);
    }
    var pubs := CollectPoints(roster);
    if pubs.None? {
      return Err(NilPubkey);
    }
    hide WithBit, Enabled;
    var mask := EmptyMask(|roster|);
    for i := 0 to |indexes|
      invariant InRange(indexes[..i], |roster|)
      invariant mask == MaskOf(indexes[..i], |roster|)
    {
      var idx := indexes[i];
      if idx < 0 || idx >= |roster| {
        return Err(IndexRange);
      }
      assert indexes[..i + 1][..i] == indexes[..i];
      mask := WithBit(mask, idx);
    }
    assert indexes[..|indexes|] == indexes;
    var agg := b.aggregate(pubs.value, mask, sigs);
    if agg.None? {
      return Err(AggregateFailed);
    }
    r := Ok(AggregateResult(agg.value, mask, |Enabled(mask, |roster|)|));
  }

  method CollectPoints(roster: Roster) returns (pubs: Option<seq<PublicKey>>)
    ensures pubs == if NoNil(roster) then Some(Points(roster)) else None
  {
    var points: seq<PublicKey> := [];
    for i := 0 to |roster|
      invariant |points| == i && forall j :: 0 <= j < i ==> roster[j] == Some(points[j])
    {
      if roster[i].None? {
        return None;
      }
      points := points + [roster[i].value];
    }
    assert points == Points(roster);
    pubs := Some(points);
  }

  function AggregateError(b: Bdn, roster: Roster, mask: seq<bv8>, sig: Bytes, msg: Bytes, min: int): Option<MaskError> {
    if |roster| == 0 then Some(EmptyRoster)
    else if |sig| != BDN_SIGNATURE_SIZE then Some(SignatureSize)
    else if !NoNil(roster) then Some(NilPubkey)
    else if |mask| != PackedSize(|roster|) then Some(MaskLength)
    else if |Enabled(mask, |roster|)| < min then Some(TooFewParticipants)
    else if !b.verifyAggregate(Points(roster), mask, sig, msg) then Some(AggregateInvalid)
    else None
  }

  method VerifyAggregate(b: Bdn, roster: Roster, mask: seq<bv8>, sig: Bytes, msg: Bytes, min: int)
    returns (e: Option<MaskError>)
    ensures e == AggregateError(b, roster, mask, sig, msg, min)
  {
    if |roster| == 0 {
      return Some(EmptyRoster);
    }
    if |sig| != BDN_SIGNATURE_SIZE {
      return Some(SignatureSize);
    }
    var pubs := CollectPoints(roster);
    if pubs.None? {
      return Some(NilPubkey);
    }
    if |mask| != PackedSize(|roster|) {
      return Some(MaskLength);
    }
    if |Enabled(mask, |roster|)| < min {
      return Some(TooFewParticipants);
    }
    if !b.verifyAggregate(pubs.value, mask, sig, msg) {
      return Some(AggregateInvalid);
    }
    e := None;
  }

  /** NilKeyPanic stands for the panic on a roster with a missing key. */
  method Participants(roster: Roster, mask: seq<bv8>) returns (r: Result<seq<nat>, MaskError>)
    ensures r == ParticipantsOf(roster, mask)
  {
    if |roster| == 0 {
      return Err(EmptyRoster);
    }
    var pubs := CollectPoints(roster);
    if pubs.None? {
      return Err(NilKeyPanic);
    }
    if |mask| != PackedSize(|roster|) {
      return Err(MaskLength);
    }
    hide Bit;
    var out: seq<nat> := [];
    for i := 0 to |roster|
      invariant out == Enabled(mask, i)
    {
      if Bit(mask[i / 8], i % 8) {
        out := out + [i];
      }
    }
    r := Ok(out);
  }

  function ParticipantsOf(roster: Roster, mask: seq<bv8>): Result<seq<nat>, MaskError> {
    if |roster| == 0 then Err(EmptyRoster)
    else if !NoNil(roster) then Err(NilKeyPanic)
    else if |mask| != PackedSize(|roster|) then Err(MaskLength)
    else Ok(Enabled(mask, |roster|))
  }

  // What the operations mean

  ghost function EnabledSet(mask: seq<bv8>, n: nat): (s: set<int>) {
    set i | i in Range(n) && BitOf(mask, i)
  }

  lemma {:induction false} EnabledSize(mask: seq<bv8>, n: nat)
    ensures Elements<int>(Enabled(mask, n)) == EnabledSet(mask, n) && |Enabled(mask, n)| == |EnabledSet(mask, n)|
  {
    hide BitOf;
    EnabledAscending(mask, n);
    EnabledMembers(mask, n);
    DistinctSize<int>(Enabled(mask, n));
  }

  lemma {:induction false} EnabledMembers(mask: seq<bv8>, n: nat)
    ensures forall i: int :: i in Enabled(mask, n) <==> 0 <= i < n && BitOf(mask, i)
  {
    hide BitOf;
    if n > 0 {
      EnabledMembers(mask, n - 1);
    }
  }

  /** An aggregate is accepted exactly when sizes fit, enough bits are set, and it verifies for the masked keys. */
  lemma {:induction false} AggregateErrorMeaning(b: Bdn, roster: Roster, mask: seq<bv8>, sig: Bytes, msg: Bytes,
                                                 min: int)
    ensures AggregateError(b, roster, mask, sig, msg, min).None? <==>
              (&& roster != [] && |sig| == 48 && (forall i :: 0 <= i < |roster| ==> roster[i].Some?)
               && |mask| == (|roster| + 7) / 8 && min <= |EnabledSet(mask, |roster|)|
               && b.verifyAggregate(Points(roster), mask, sig, msg))
  {
    hide BitOf, Enabled;
    EnabledSize(mask, |roster|);
  }

  /** Aggregation succeeds exactly on a full roster and positions within it, if the scheme agrees. */
  lemma {:induction false} AggregatedMeaning(b: Bdn, roster: Roster, indexes: seq<int>, sigs: seq<Bytes>)
    ensures Aggregated(b, roster, indexes, sigs).Ok? <==>
              (&& roster != [] && |indexes| == |sigs| && (forall i :: 0 <= i < |roster| ==> roster[i].Some?)
               && InRange(indexes, |roster|)
               && b.aggregate(Points(roster), MaskOf(indexes, |roster|), sigs).Some?)
    ensures Aggregated(b, roster, indexes, sigs).Ok? ==>
              var r := Aggregated(b, roster, indexes, sigs).value;
              && b.aggregate(Points(roster), r.mask, sigs) == Some(r.signature)
              && |r.mask| == (|roster| + 7) / 8 && (forall i :: 0 <= i ==> BitOf(r.mask, i) == (i in indexes))
              && r.count == |Elements(indexes)|
  {
    hide BitOf, Enabled, MaskOf;
    if Aggregated(b, roster, indexes, sigs).Ok? {
      var mask := MaskOf(indexes, |roster|);
      MaskOfMeaning(indexes, |roster|);
      EnabledSize(mask, |roster|);
      assert EnabledSet(mask, |roster|) == Elements(indexes);
    }
  }

  /** The participants are the positions of the set bits, ascending. */
  lemma {:induction false} ParticipantsMeaning(roster: Roster, mask: seq<bv8>)
    ensures roster == [] ==> ParticipantsOf(roster, mask) == Err(EmptyRoster)
    ensures roster != [] && None in roster ==> ParticipantsOf(roster, mask) == Err(NilKeyPanic)
    ensures ParticipantsOf(roster, mask).Ok? <==>
              roster != [] && None !in roster && |mask| == (|roster| + 7) / 8
    ensures ParticipantsOf(roster, mask).Ok? ==>
              var out := ParticipantsOf(roster, mask).value;
              && (forall i: int :: i in out <==> 0 <= i < |roster| && BitOf(mask, i))
              && forall i, j :: 0 <= i < j < |out| ==> out[i] < out[j]
  {
    hide BitOf;
    EnabledMembers(mask, |roster|);
    EnabledAscending(mask, |roster|);
  }
}
