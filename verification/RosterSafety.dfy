/** What an accepted chain guarantees: its last hash fixes the whole history, and a fork needs double signers. */
module RosterSafety {
  import opened Combinatorics
  import opened Crypto
  import opened Encoding
  import opened Epochs
  import opened RosterChain
  import opened Wrappers

  /** Two different canonical encodings, one in each chain, with the same hash. */
  ghost predicate Collision(c: Primitives, es: seq<Epoch>, fs: seq<Epoch>) {
    exists i, j :: 0 <= i < |es| && 0 <= j < |fs|
      && Canonical(es[i]) != Canonical(fs[j]) && c.sha3(Canonical(es[i])) == c.sha3(Canonical(fs[j]))
  }

  ghost predicate AllEncodable(es: seq<Epoch>) {
    forall i :: 0 <= i < |es| ==> Encodable(es[i])
  }

  ghost predicate AllOk(c: Primitives, es: seq<Epoch>, pinned: Option<seq<Bytes>>) {
    forall i :: 0 <= i < |es| ==> EpochOk(c, es, i, pinned)
  }

  /** Agreement propagates backwards along the hash links. */
  lemma {:induction false} AgreeDownwards(c: Primitives, es: seq<Epoch>, fs: seq<Epoch>, pe: Option<seq<Bytes>>,
                                          pf: Option<seq<Bytes>>, i: nat)
    requires i < |es| && i < |fs|
    requires AllOk(c, es, pe) && AllOk(c, fs, pf) && AllEncodable(es) && AllEncodable(fs)
    requires Canonical(es[i]) == Canonical(fs[i]) && !Collision(c, es, fs)
    ensures forall m :: 0 <= m <= i ==> Agree(es[m], fs[m])
  {
    hide Canonical, Encodable;
    CanonicalInjective(es[i], fs[i]);
    if i > 0 {
      assert EpochOk(c, es, i, pe) && EpochOk(c, fs, i, pf);
      assert HashOf(c, es[i - 1]) == HashOf(c, fs[i - 1]);
      AgreeDownwards(c, es, fs, pe, pf, i - 1);
    }
  }

  /**
   Binding: two accepted chains whose last epochs hash alike have the same length and agree, epoch by epoch, on
   every encoded field, unless a pair of their epochs collides under the hash.
   */
  lemma {:induction false} LastHashFixesHistory(c: Primitives, es: seq<Epoch>, fs: seq<Epoch>, pe: Option<seq<Bytes>>,
                                                pf: Option<seq<Bytes>>)
    requires Accepted(c, es, pe) && Accepted(c, fs, pf) && AllEncodable(es) && AllEncodable(fs)
    requires c.sha3(Canonical(es[|es| - 1])) == c.sha3(Canonical(fs[|fs| - 1]))
    ensures Collision(c, es, fs) || (|es| == |fs| && forall i :: 0 <= i < |es| ==> Agree(es[i], fs[i]))
  {
    hide Accepted, Canonical, Encodable;
    AcceptedIff(c, es, pe);
    AcceptedIff(c, fs, pf);
    if !Collision(c, es, fs) {
      var i, j := |es| - 1, |fs| - 1;
      assert Canonical(es[i]) == Canonical(fs[j]);
      CanonicalInjective(es[i], fs[j]);
      assert EpochOk(c, es, i, pe) && EpochOk(c, fs, j, pf);
      AgreeDownwards(c, es, fs, pe, pf, i);
    }
  }

  /** The slots of the previous roster that endorsed e. */
  ghost function Endorsers(e: Epoch): set<int> { set p | p in e.transitionSigners }

  /** Among the signatures e carries there is a valid one by slot p of prev. */
  ghost predicate Endorsed(c: Primitives, prev: Epoch, e: Epoch, p: int) {
    && |e.transitionSig| == |e.transitionSigners| * SIGNATURE_SIZE
    && exists j :: 0 <= j < |e.transitionSigners| && e.transitionSigners[j] == p && SignedBySlot(c, prev, e, j)
  }

  lemma {:induction false} EndorsersSize(c: Primitives, prev: Epoch, e: Epoch)
    requires TransitionOk(c, prev, e)
    ensures |Endorsers(e)| >= RequiredSigners(prev, e) && Endorsers(e) <= Range(|prev.witnesses|)
    ensures forall p :: p in Endorsers(e) ==> Endorsed(c, prev, e, p)
  {
    hide TransitionMessage, HashOf, SignatureAt;
    DistinctSize(e.transitionSigners);
    assert Endorsers(e) == Elements(e.transitionSigners);
    forall p | p in Endorsers(e) ensures Endorsed(c, prev, e, p) {
      var j :| 0 <= j < |e.transitionSigners| && e.transitionSigners[j] == p;
      assert SignedBySlot(c, prev, e, j);
    }
  }

  lemma {:induction false} MessageFixesHash(c: Primitives, e: Epoch, f: Epoch)
    requires TransitionMessage(c, e) == TransitionMessage(c, f)
    ensures c.sha3(Canonical(e)) == c.sha3(Canonical(f))
  {
    hide Canonical, TransitionMessage;
    MessagesCommit(c, e, f);
  }

  /**
   Quorum intersection: of two successors of the same epoch, both acceptable and with different canonical
   bytes, at least r + r' - n slots of its n witnesses endorsed both, r and r' being the signer counts the two
   transitions require. Each of those slots has its signature in both, on two messages that differ, or the hash
   collides.
   */
  lemma {:induction false} ForkNeedsDoubleSigners(c: Primitives, prev: Epoch, e: Epoch, f: Epoch)
    returns (both: set<int>)
    requires TransitionOk(c, prev, e) && TransitionOk(c, prev, f) && Canonical(e) != Canonical(f)
    ensures both == Endorsers(e) * Endorsers(f)
    ensures |both| >= RequiredSigners(prev, e) + RequiredSigners(prev, f) - |prev.witnesses|
    ensures forall p :: p in both ==> Endorsed(c, prev, e, p) && Endorsed(c, prev, f, p)
    ensures TransitionMessage(c, e) != TransitionMessage(c, f) || c.sha3(Canonical(e)) == c.sha3(Canonical(f))
  {
    hide TransitionOk, Endorsers, Endorsed, TransitionMessage, HashOf, Canonical;
    EndorsersSize(c, prev, e);
    EndorsersSize(c, prev, f);
    both := Endorsers(e) * Endorsers(f);
    Overlap(Endorsers(e), Endorsers(f), |prev.witnesses|);
    if TransitionMessage(c, e) == TransitionMessage(c, f) {
      MessageFixesHash(c, e, f);
    }
  }

  // Forks of whole chains, where the common epoch is known only by its canonical bytes

  /** The roster entries behind the endorsements, each position counted once. */
  ghost function EndorsingEntries(prev: Epoch, e: Epoch): multiset<EpochWitness>
    requires SignersInRange(prev, e)
  {
    multiset(Picked(prev.witnesses, e.transitionSigners))
  }

  ghost predicate SignersInRange(prev: Epoch, e: Epoch) {
    forall j :: 0 <= j < |e.transitionSigners| ==> 0 <= e.transitionSigners[j] < |prev.witnesses|
  }

  ghost function Picked<T>(s: seq<T>, positions: seq<int>): (r: seq<T>)
    requires forall j :: 0 <= j < |positions| ==> 0 <= positions[j] < |s|
    ensures |r| == |positions|
  {
    seq(|positions|, j requires 0 <= j < |positions| => s[positions[j]])
  }

  lemma {:induction false} PickedWithout<T>(s: seq<T>, positions: seq<int>, j: nat)
    requires forall i :: 0 <= i < |positions| ==> 0 <= positions[i] < |s|
    requires j < |positions|
    ensures multiset(Picked(s, positions)) == multiset(Picked(s, Without(positions, j))) + multiset{s[positions[j]]}
  {
    var all := Picked(s, positions);
    assert all == all[..j] + [all[j]] + all[j + 1..];
    assert Picked(s, Without(positions, j)) == all[..j] + all[j + 1..];
  }

  ghost function Without(positions: seq<int>, j: nat): seq<int>
    requires j < |positions|
  {
    positions[..j] + positions[j + 1..]
  }

  lemma {:induction false} PickedFront<T>(s: seq<T>, positions: seq<int>)
    requires s != [] && forall i :: 0 <= i < |positions| ==> 0 <= positions[i] < |s| - 1
    ensures Picked(s, positions) == Picked(s[..|s| - 1], positions)
    ensures multiset(s) == multiset(s[..|s| - 1]) + multiset{s[|s| - 1]}
  {
    assert s == s[..|s| - 1] + [s[|s| - 1]];
  }

  /** Elements picked at different positions are part of the list, repetitions included. */
  lemma {:induction false} PickedWithin<T>(s: seq<T>, positions: seq<int>)
    requires Distinct(positions) && forall j :: 0 <= j < |positions| ==> 0 <= positions[j] < |s|
    ensures multiset(Picked(s, positions)) <= multiset(s)
    decreases |s|
  {
    hide Picked;
    if positions != [] {
      assert 0 <= positions[0] < |s|;
      var front, n := s[..|s| - 1], |s| - 1;
      if n in positions {
        var j :| 0 <= j < |positions| && positions[j] == n;
        PickedWithout(s, positions, j);
        PickedFront(s, Without(positions, j));
        PickedWithin(front, Without(positions, j));
      } else {
        forall j | 0 <= j < |positions| ensures positions[j] < n {
          assert positions[j] in positions;
        }
        PickedFront(s, positions);
        PickedWithin(front, positions);
      }
    }
  }

  /** Among the signatures e carries there is a valid one by a slot of prev that holds the entry w. */
  ghost predicate EntryEndorsed(c: Primitives, prev: Epoch, e: Epoch, w: EpochWitness) {
    && |e.transitionSig| == |e.transitionSigners| * SIGNATURE_SIZE
    && exists j :: 0 <= j < |e.transitionSigners| && SignedBySlot(c, prev, e, j) && EntryAt(prev, e, j) == w
  }

  ghost function EntryAt(prev: Epoch, e: Epoch, j: nat): EpochWitness
    requires j < |e.transitionSigners| && 0 <= e.transitionSigners[j] < |prev.witnesses|
  {
    prev.witnesses[e.transitionSigners[j]]
  }

  lemma {:induction false} EndorsingEntriesSize(c: Primitives, prev: Epoch, e: Epoch)
    requires TransitionOk(c, prev, e)
    ensures SignersInRange(prev, e) && |EndorsingEntries(prev, e)| >= RequiredSigners(prev, e)
    ensures EndorsingEntries(prev, e) <= multiset(prev.witnesses)
    ensures forall w :: w in EndorsingEntries(prev, e) ==> EntryEndorsed(c, prev, e, w)
  {
    hide TransitionMessage, HashOf, SignatureAt, EmergencyError;
    forall j | 0 <= j < |e.transitionSigners| ensures 0 <= e.transitionSigners[j] < |prev.witnesses| {
      assert SignedBySlot(c, prev, e, j);
    }
    var entries := Picked(prev.witnesses, e.transitionSigners);
    PickedWithin(prev.witnesses, e.transitionSigners);
    forall w | w in EndorsingEntries(prev, e) ensures EntryEndorsed(c, prev, e, w) {
      assert w in entries;
      var j :| 0 <= j < |entries| && entries[j] == w;
      assert SignedBySlot(c, prev, e, j) && EntryAt(prev, e, j) == w;
    }
  }

  /** Two parts of a multiset overlap in at least as many elements as they exceed it together. */
  lemma {:induction false} MultisetOverlap<T>(a: multiset<T>, b: multiset<T>, universe: multiset<T>)
    requires a <= universe && b <= universe
    ensures |a * b| >= |a| + |b| - |universe|
  {
    var rest := b - (a * b);
    assert b == rest + (a * b);
    assert a + rest <= universe;
    assert universe == (a + rest) + (universe - (a + rest));
  }

  /**
   On whole chains: where two accepted chains continue differently from epochs with the same n witnesses, listed in
   any order, and the same threshold t, at least 2t - n entries of that roster signed both ways, and at least
   t + ceil(4n/5) - n if exactly one of the two successors is an emergency. The two messages differ, or the hash
   collides.
   */
  lemma {:induction false} ForkedChains(c: Primitives, es: seq<Epoch>, fs: seq<Epoch>, pe: Option<seq<Bytes>>,
                                        pf: Option<seq<Bytes>>, i: nat)
    returns (both: multiset<EpochWitness>)
    requires Accepted(c, es, pe) && Accepted(c, fs, pf)
    requires 0 < i < |es| && i < |fs| && SameRosterInForce(es[i - 1], fs[i - 1])
    requires Canonical(es[i]) != Canonical(fs[i])
    ensures SignersInRange(es[i - 1], es[i]) && SignersInRange(fs[i - 1], fs[i])
    ensures both == EndorsingEntries(es[i - 1], es[i]) * EndorsingEntries(fs[i - 1], fs[i])
    ensures both <= multiset(es[i - 1].witnesses)
    ensures var n, t := |es[i - 1].witnesses|, es[i - 1].threshold;
            && (es[i].emergency.None? && fs[i].emergency.None? ==> |both| >= 2 * t - n)
            && (es[i].emergency.Some? != fs[i].emergency.Some? ==> |both| >= t + SuperMajority(n) - n)
            && (es[i].emergency.Some? && fs[i].emergency.Some? ==> |both| >= 2 * SuperMajority(n) - n)
    ensures forall w :: w in both ==> EntryEndorsed(c, es[i - 1], es[i], w) && EntryEndorsed(c, fs[i - 1], fs[i], w)
    ensures TransitionMessage(c, es[i]) != TransitionMessage(c, fs[i])
      || c.sha3(Canonical(es[i])) == c.sha3(Canonical(fs[i]))
  {
    hide Accepted, TransitionOk, EndorsingEntries, EntryEndorsed, Canonical, TransitionMessage, HashOf;
    AcceptedIff(c, es, pe);
    AcceptedIff(c, fs, pf);
    assert EpochOk(c, es, i, pe) && EpochOk(c, fs, i, pf);
    SameSize(es[i - 1].witnesses, fs[i - 1].witnesses);
    EndorsingEntriesSize(c, es[i - 1], es[i]);
    EndorsingEntriesSize(c, fs[i - 1], fs[i]);
    var ours, theirs := EndorsingEntries(es[i - 1], es[i]), EndorsingEntries(fs[i - 1], fs[i]);
    both := ours * theirs;
    MultisetOverlap(ours, theirs, multiset(es[i - 1].witnesses));
    if TransitionMessage(c, es[i]) == TransitionMessage(c, fs[i]) {
      MessageFixesHash(c, es[i], fs[i]);
    }
  }

  /** The same witnesses, in any order, under the same threshold. */
  ghost predicate SameRosterInForce(a: Epoch, b: Epoch) {
    multiset(a.witnesses) == multiset(b.witnesses) && a.threshold == b.threshold
  }

  lemma {:induction false} SameSize<T>(s: seq<T>, t: seq<T>)
    requires multiset(s) == multiset(t)
    ensures |s| == |t|
  {
    assert |multiset(s)| == |s| && |multiset(t)| == |t|;
  }

  /**
   Two accepted chains from the same genesis bytes that differ anywhere agree up to a first parting, and there at
   least r + r' - n entries of the last common roster signed both ways, r and r' being the required signer counts.
   What they signed differs, or the hash collides.
   */
  lemma {:induction false} DivergingChains(c: Primitives, es: seq<Epoch>, fs: seq<Epoch>, pe: Option<seq<Bytes>>,
                                           pf: Option<seq<Bytes>>, m: nat)
    returns (i: nat, both: multiset<EpochWitness>)
    requires Accepted(c, es, pe) && Accepted(c, fs, pf) && AllEncodable(es) && AllEncodable(fs)
    requires m < |es| && m < |fs| && Canonical(es[0]) == Canonical(fs[0]) && Canonical(es[m]) != Canonical(fs[m])
    ensures 0 < i <= m && Canonical(es[i]) != Canonical(fs[i]) && forall l :: 0 <= l < i ==> Agree(es[l], fs[l])
    ensures TransitionMessage(c, es[i]) != TransitionMessage(c, fs[i])
      || c.sha3(Canonical(es[i])) == c.sha3(Canonical(fs[i]))
    ensures SignersInRange(es[i - 1], es[i]) && SignersInRange(fs[i - 1], fs[i])
    ensures both == EndorsingEntries(es[i - 1], es[i]) * EndorsingEntries(fs[i - 1], fs[i])
    ensures both <= multiset(es[i - 1].witnesses)
    ensures |both| >= RequiredSigners(es[i - 1], es[i]) + RequiredSigners(es[i - 1], fs[i]) - |es[i - 1].witnesses|
    ensures forall w :: w in both ==> EntryEndorsed(c, es[i - 1], es[i], w) && EntryEndorsed(c, fs[i - 1], fs[i], w)
  {
    hide Accepted, Canonical, EntryEndorsed, Encodable, SameEmergency, TransitionMessage, HashOf, SignersInRange,
         EndorsingEntries;
    i := 1;
    CanonicalInjective(es[0], fs[0]);
    while Canonical(es[i]) == Canonical(fs[i])
      invariant 0 < i <= m && Canonical(es[i - 1]) == Canonical(fs[i - 1])
      invariant forall l :: 0 <= l < i ==> Agree(es[l], fs[l])
      decreases m - i
    {
      CanonicalInjective(es[i], fs[i]);
      i := i + 1;
    }
    both := ForkedChains(c, es, fs, pe, pf, i);
  }
}
