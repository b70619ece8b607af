/** How far the sealers alone can go: forks without double signers, unsigned transitions, untimely emergencies. */
module RosterForks {
  import opened Combinatorics
  import opened Crypto
  import opened Encoding
  import opened Epochs
  import opened RosterChain
  import opened RosterSafety
  import opened RosterSealing
  import opened Wrappers

  /** keys are the private keys behind the roster of e. */
  ghost predicate HoldsKeys(c: Primitives, e: Epoch, keys: seq<Bytes>) {
    && |keys| == |e.witnesses| < 0x8000_0000_0000_0000
    && forall i :: 0 <= i < |keys| ==> c.publicOf(keys[i]) == e.witnesses[i].pubkey
  }

  /** Signers a successor of e needs, for an emergency or otherwise. */
  function Required(e: Epoch, emergency: bool): int {
    if emergency then SuperMajority(|e.witnesses|) else e.threshold
  }

  function Slots(first: nat, count: nat): (r: seq<Int64>)
    requires first + count <= 0x8000_0000_0000_0000
    ensures |r| == count
  {
    seq(count, i requires 0 <= i < count => first + i)
  }

  /** A move to a one-witness roster, signed by the slots from first on. */
  function PlainMove(keys: seq<Bytes>, emergency: bool, at: Int64, first: nat, count: nat): Move
    requires first + count <= |keys| < 0x8000_0000_0000_0000
  {
    var ws, signers, privs := [EpochWitness(0, [], [], [])], Slots(first, count), keys[first..first + count];
    if emergency then Emergency(ws, 1, at, signers, privs, EmergencyParams([0], 0, MIN_WAITING_MS, [], []), [])
    else Regular(ws, 1, at, signers, privs)
  }

  lemma {:induction false} PlainKeysMatch(c: Primitives, prev: Epoch, keys: seq<Bytes>, first: nat, count: nat, i: nat)
    requires HoldsKeys(c, prev, keys) && first + count <= |keys| && i <= count
    ensures SlotKeyError(c, prev, Slots(first, count), keys[first..first + count], i).None?
    decreases count - i
  {
    if i < count {
      PlainKeysMatch(c, prev, keys, first, count, i + 1);
      var signers := Slots(first, count);
      assert forall j :: 0 <= j < i ==> signers[..i][j] == first + j;
    }
  }

  lemma {:induction false} PlainMoveSeals(c: Primitives, prev: Epoch, keys: seq<Bytes>, emergency: bool, at: Int64,
                                          first: nat, count: nat)
    requires Sound(c) && prev.hash == HashOf(c, prev) && HoldsKeys(c, prev, keys)
    requires first + count <= |keys| && count >= Required(prev, emergency)
    ensures var sealed := Sealed(c, prev, PlainMove(keys, emergency, at, first, count));
            && sealed.Ok? && sealed.value.transitionSigners == Slots(first, count)
            && sealed.value.activatedAtMs == at && sealed.value.emergency.Some? == emergency
            && Encodable(sealed.value)
  {
    hide Canonical, TransitionMessage, AnnouncementMessage;
    PlainKeysMatch(c, prev, keys, first, count, 0);
  }

  lemma {:induction false} PlainMoveAccepted(c: Primitives, prev: Epoch, keys: seq<Bytes>, emergency: bool, at: Int64,
                                             first: nat, count: nat)
    requires Sound(c) && prev.hash == HashOf(c, prev) && HoldsKeys(c, prev, keys)
    requires first + count <= |keys| && count >= Required(prev, emergency) && at >= MIN_WAITING_MS
    ensures Sealed(c, prev, PlainMove(keys, emergency, at, first, count)).Ok?
    ensures TransitionOk(c, prev, Sealed(c, prev, PlainMove(keys, emergency, at, first, count)).value)
  {
    hide HashOf, TransitionOk, Sealed;
    var move := PlainMove(keys, emergency, at, first, count);
    PlainMoveSeals(c, prev, keys, emergency, at, first, count);
    if emergency {
      EmergencyAccepted(c, prev, move);
    } else {
      RegularAccepted(c, prev, move);
    }
  }

  // Forks

  /** Every two different successors of prev of these kinds share an endorser. */
  ghost predicate DoubleSignerForced(c: Primitives, prev: Epoch, x: bool, y: bool) {
    forall e, f ::
      (&& TransitionOk(c, prev, e) && TransitionOk(c, prev, f) && e.emergency.Some? == x && f.emergency.Some? == y
       && Canonical(e) != Canonical(f)) ==> Endorsers(e) * Endorsers(f) != {}
  }

  function AtLeastZero(x: int): nat { if x < 0 then 0 else x }

  lemma {:induction false} SlotRange(first: nat, count: nat)
    requires first + count <= 0x8000_0000_0000_0000
    ensures forall p :: p in Slots(first, count) ==> first <= p < first + count
  {
  }

  lemma {:induction false} DisjointSlots(c: Primitives, e: Epoch, f: Epoch, k: nat, l: nat)
    requires k + l <= 0x8000_0000_0000_0000
    requires e.transitionSigners == Slots(0, k) && f.transitionSigners == Slots(k, l)
    ensures Endorsers(e) * Endorsers(f) == {}
  {
    SlotRange(0, k);
    SlotRange(k, l);
  }

  /** Two successors by disjoint sets of signers, wherever the required counts leave room for them. */
  lemma {:induction false} DisjointFork(c: Primitives, prev: Epoch, keys: seq<Bytes>, x: bool, y: bool)
    returns (e: Epoch, f: Epoch)
    requires Sound(c) && prev.hash == HashOf(c, prev) && HoldsKeys(c, prev, keys)
    requires Required(prev, x) + Required(prev, y) <= |prev.witnesses|
    ensures TransitionOk(c, prev, e) && TransitionOk(c, prev, f) && e.emergency.Some? == x && f.emergency.Some? == y
    ensures Canonical(e) != Canonical(f) && Endorsers(e) * Endorsers(f) == {}
  {
    hide HashOf, TransitionOk, Sealed, Canonical, Encodable, Endorsers;
    var k, l := AtLeastZero(Required(prev, x)), AtLeastZero(Required(prev, y));
    PlainMoveSeals(c, prev, keys, x, MIN_WAITING_MS, 0, k);
    PlainMoveAccepted(c, prev, keys, x, MIN_WAITING_MS, 0, k);
    PlainMoveSeals(c, prev, keys, y, MIN_WAITING_MS + 1, k, l);
    PlainMoveAccepted(c, prev, keys, y, MIN_WAITING_MS + 1, k, l);
    e := Sealed(c, prev, PlainMove(keys, x, MIN_WAITING_MS, 0, k)).value;
    f := Sealed(c, prev, PlainMove(keys, y, MIN_WAITING_MS + 1, k, l)).value;
    DisjointSlots(c, e, f, k, l);
    if Canonical(e) == Canonical(f) {
      CanonicalInjective(e, f);
    }
  }

  /**
   A fork costs a double signer exactly when the two required counts exceed the roster: r + r' > n. For a threshold
   of at most half the roster it need not cost one.
   */
  lemma {:induction false} DoubleSignerIff(c: Primitives, prev: Epoch, keys: seq<Bytes>, x: bool, y: bool)
    requires Sound(c) && prev.hash == HashOf(c, prev) && HoldsKeys(c, prev, keys)
    ensures DoubleSignerForced(c, prev, x, y) <==> Required(prev, x) + Required(prev, y) > |prev.witnesses|
  {
    hide HashOf, TransitionOk, Canonical, Endorsers;
    if Required(prev, x) + Required(prev, y) > |prev.witnesses| {
      forall e, f |
        && TransitionOk(c, prev, e) && TransitionOk(c, prev, f) && e.emergency.Some? == x && f.emergency.Some? == y
        && Canonical(e) != Canonical(f)
        ensures Endorsers(e) * Endorsers(f) != {}
      {
        var both := ForkNeedsDoubleSigners(c, prev, e, f);
        assert |both| > 0;
      }
    } else {
      var e, f := DisjointFork(c, prev, keys, x, y);
    }
  }

  // Unsigned transitions

  /**
   The verifier looks at no epoch's own threshold. Every successor of prev carries a signature exactly when prev's
   threshold is positive and its roster not empty.
   */
  lemma {:induction false} SignatureDemandedIff(c: Primitives, prev: Epoch, keys: seq<Bytes>)
    requires Sound(c) && prev.hash == HashOf(c, prev) && HoldsKeys(c, prev, keys)
    ensures (forall e :: TransitionOk(c, prev, e) ==> e.transitionSigners != [])
       <==> prev.threshold >= 1 && prev.witnesses != []
  {
    hide HashOf, Canonical, SignedBySlot, EmergencyError;
    if prev.threshold < 1 {
      PlainMoveSeals(c, prev, keys, false, MIN_WAITING_MS, 0, 0);
      PlainMoveAccepted(c, prev, keys, false, MIN_WAITING_MS, 0, 0);
    } else if prev.witnesses == [] {
      PlainMoveSeals(c, prev, keys, true, MIN_WAITING_MS, 0, 0);
      PlainMoveAccepted(c, prev, keys, true, MIN_WAITING_MS, 0, 0);
    }
  }

  ghost predicate ThresholdInRange(e: Epoch) {
    1 <= e.threshold <= |e.witnesses|
  }

  /** The sealers keep every epoch's threshold in range, so on chains they grow every transition is signed. */
  lemma {:induction false} GrownThresholds(c: Primitives, genesis: Epoch, moves: seq<Move>)
    requires ThresholdInRange(genesis) && Grow(c, genesis, moves).Ok?
    ensures forall i :: 0 <= i <= |moves| ==> ThresholdInRange(Grow(c, genesis, moves).value[i])
  {
    hide Canonical, HashOf, TransitionMessage, AnnouncementMessage;
    if moves != [] {
      GrownThresholds(c, genesis, moves[..|moves| - 1]);
    }
  }

  lemma {:induction false} GenesisThreshold(c: Primitives, witnesses: seq<EpochWitness>, threshold: Int64,
                                            activatedAtMs: Int64, signers: seq<CeremonySig>, privs: seq<Bytes>)
    requires SealedGenesis(c, witnesses, threshold, activatedAtMs, signers, privs).Ok?
    ensures ThresholdInRange(SealedGenesis(c, witnesses, threshold, activatedAtMs, signers, privs).value)
  {
    hide HashOf, GenesisMessage;
  }

  // Untimely emergencies

  /** Sealing an emergency goes through whatever its activation time. */
  lemma {:induction false} ActivationNotSealed(c: Primitives, current: Epoch, move: Move, at: Int64)
    requires move.Emergency? && Sealed(c, current, move).Ok?
    ensures Sealed(c, current, move.(activatedAtMs := at)).Ok?
  {
    hide Canonical, HashOf, TransitionMessage, AnnouncementMessage;
  }

  /** Any grown chain that ends in an emergency can be grown with an earlier activation, and is then refused. */
  lemma {:induction false} UntimelyRefused(c: Primitives, witnesses: seq<EpochWitness>, threshold: Int64,
                                           activatedAtMs: Int64, signers: seq<CeremonySig>, privs: seq<Bytes>,
                                           moves: seq<Move>, at: Int64, pinned: Option<seq<Bytes>>)
    requires Sound(c) && |moves| + 1 < TWO_64 && moves != [] && moves[|moves| - 1].Emergency?
    requires SealedGenesis(c, witnesses, threshold, activatedAtMs, signers, privs).Ok?
    requires Grow(c, SealedGenesis(c, witnesses, threshold, activatedAtMs, signers, privs).value, moves).Ok?
    requires !Timely(moves[|moves| - 1].(activatedAtMs := at))
    ensures var genesis := SealedGenesis(c, witnesses, threshold, activatedAtMs, signers, privs).value;
            var early := moves[|moves| - 1 := moves[|moves| - 1].(activatedAtMs := at)];
            Grow(c, genesis, early).Ok? && !Accepted(c, Grow(c, genesis, early).value, pinned)
  {
    hide Sealed, Accepted, Sound, Timely, SealedGenesis, CeremonyAcceptable;
    var genesis := SealedGenesis(c, witnesses, threshold, activatedAtMs, signers, privs).value;
    var n := |moves| - 1;
    var early := moves[n := moves[n].(activatedAtMs := at)];
    assert early[..n] == moves[..n];
    var before := Grow(c, genesis, moves[..n]).value;
    ActivationNotSealed(c, before[n], moves[n], at);
    GrownChainAcceptedIff(c, witnesses, threshold, activatedAtMs, signers, privs, early, pinned);
    assert !Timely(early[n]);
  }

  /** A genesis with one witness, by a ceremony of two keys. */
  function PlainGenesis(c: Primitives, k: Bytes, l: Bytes): Result<Epoch, SealError> {
    SealedGenesis(c, [EpochWitness(0, [], [], c.publicOf(k))], 1, 0, PlainCeremony(c, k, l), [k, l])
  }

  function PlainCeremony(c: Primitives, k: Bytes, l: Bytes): seq<CeremonySig> {
    [CeremonySig(c.publicOf(k), [], []), CeremonySig(c.publicOf(l), [], [])]
  }

  lemma {:induction false} PlainGenesisSeals(c: Primitives, k: Bytes, l: Bytes)
    requires Sound(c) && c.publicOf(k) != c.publicOf(l)
    ensures PlainGenesis(c, k, l).Ok? && HoldsKeys(c, PlainGenesis(c, k, l).value, [k])
    ensures PlainGenesis(c, k, l).value.hash == HashOf(c, PlainGenesis(c, k, l).value)
    ensures CeremonyAcceptable(PlainCeremony(c, k, l), None)
  {
    hide HashOf, GenesisMessage;
    var signers := PlainCeremony(c, k, l);
    assert CeremonyKeyError(c, signers, [k, l], 2).None?;
    assert CeremonyKeyError(c, signers, [k, l], 1).None?;
    GenesisAccepted(c, [EpochWitness(0, [], [], c.publicOf(k))], 1, 0, signers, [k, l], None);
  }

  /**
   A concrete case: one witness declares an emergency at time 0 with the shortest waiting period. Activated when the
   period is over the chain is accepted; activated a millisecond earlier it is sealed all the same, and refused.
   */
  lemma {:induction false} MillisecondTooEarly(c: Primitives, k: Bytes, l: Bytes)
    requires Sound(c) && c.publicOf(k) != c.publicOf(l)
    ensures var due := [PlainMove([k], true, MIN_WAITING_MS, 0, 1)];
            var early := [PlainMove([k], true, MIN_WAITING_MS - 1, 0, 1)];
            && PlainGenesis(c, k, l).Ok?
            && Grow(c, PlainGenesis(c, k, l).value, due).Ok? && Grow(c, PlainGenesis(c, k, l).value, early).Ok?
            && Accepted(c, Grow(c, PlainGenesis(c, k, l).value, due).value, None)
            && !Accepted(c, Grow(c, PlainGenesis(c, k, l).value, early).value, None)
  {
    hide Sealed, Accepted, Sound, SealedGenesis, CeremonyAcceptable, HashOf;
    PlainGenesisSeals(c, k, l);
    var genesis := PlainGenesis(c, k, l).value;
    var due := [PlainMove([k], true, MIN_WAITING_MS, 0, 1)];
    var early := [PlainMove([k], true, MIN_WAITING_MS - 1, 0, 1)];
    PlainMoveSeals(c, genesis, [k], true, MIN_WAITING_MS, 0, 1);
    PlainMoveSeals(c, genesis, [k], true, MIN_WAITING_MS - 1, 0, 1);
    assert due[..0] == [] && early[..0] == [];
    assert Grow(c, genesis, []) == Ok([genesis]);
    var ws := [EpochWitness(0, [], [], c.publicOf(k))];
    GrownChainAcceptedIff(c, ws, 1, 0, PlainCeremony(c, k, l), [k, l], due, None);
    GrownChainAcceptedIff(c, ws, 1, 0, PlainCeremony(c, k, l), [k, l], early, None);
    assert !Timely(early[0]);
  }
}
