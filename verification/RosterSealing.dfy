/** The three sealers, and the proof that what they build is what the verifier accepts. */
module RosterSealing {
  import opened Combinatorics
  import opened Crypto
  import opened Encoding
  import opened Epochs
  import opened RosterChain
  import opened Wrappers

  datatype SealError =
    | EmptyWitnesses
    | ThresholdOutOfRange
    | CeremonyCount
    | FewCeremonySigners
    | CeremonyKeyMismatch
    | NotHashed
    | NotEnoughSigners
    | KeyCount
    | SignerRange
    | SignerRepeated
    | SignerKeyMismatch
    | NoDeclaration
    | WaitingBelowMinimum
    | AnnouncementMismatch

  // Signing

  /** The 64-byte signatures of all keys on msg, end to end. */
  function Signatures(c: Primitives, privs: seq<Bytes>, msg: Bytes): Bytes {
    if privs == [] then [] else Signatures(c, privs[..|privs| - 1], msg) + c.sign(privs[|privs| - 1], msg)
  }

  method SignAll(c: Primitives, privs: seq<Bytes>, msg: Bytes) returns (concat: Bytes)
    ensures concat == Signatures(c, privs, msg)
  {
    concat := [];
    for i := 0 to |privs|
      invariant concat == Signatures(c, privs[..i], msg)
    {
      assert privs[..i + 1][..i] == privs[..i];
      concat := concat + c.sign(privs[i], msg);
    }
    assert privs[..|privs|] == privs;
  }

  /** Slicing the concatenation returns each signature. */
  lemma {:induction false} SignatureSlices(c: Primitives, privs: seq<Bytes>, msg: Bytes, j: nat)
    requires Sound(c) && j < |privs|
    ensures |Signatures(c, privs, msg)| == |privs| * SIGNATURE_SIZE
    ensures Signatures(c, privs, msg)[j * SIGNATURE_SIZE..(j + 1) * SIGNATURE_SIZE] == c.sign(privs[j], msg)
  {
    var front := privs[..|privs| - 1];
    var blob := Signatures(c, front, msg);
    if j < |front| {
      SignatureSlices(c, front, msg, j);
      assert (blob + c.sign(privs[|front|], msg))[j * SIGNATURE_SIZE..(j + 1) * SIGNATURE_SIZE]
          == blob[j * SIGNATURE_SIZE..(j + 1) * SIGNATURE_SIZE];
    } else {
      if |front| > 0 {
        SignatureSlices(c, front, msg, 0);
      }
      assert |blob| == |front| * SIGNATURE_SIZE;
    }
  }

  // Genesis

  function CeremonyKeyError(c: Primitives, signers: seq<CeremonySig>, privs: seq<Bytes>, i: nat): Option<SealError>
    requires i <= |signers| == |privs|
    decreases |signers| - i
  {
    if i == |signers| then None
    else if c.publicOf(privs[i]) != signers[i].signerPubkey then Some(CeremonyKeyMismatch)
    else CeremonyKeyError(c, signers, privs, i + 1)
  }

  function UnsignedGenesis(witnesses: seq<EpochWitness>, threshold: Int64, activatedAtMs: Int64): Epoch {
    Epoch(0, [], witnesses, threshold, activatedAtMs, [], [], [], None, [])
  }

  function CeremonySigned(c: Primitives, signers: seq<CeremonySig>, privs: seq<Bytes>, msg: Bytes)
    : (r: seq<CeremonySig>)
    requires |signers| == |privs|
    ensures |r| == |signers|
  {
    seq(|signers|, i requires 0 <= i < |signers| =>
      CeremonySig(signers[i].signerPubkey, signers[i].signerLabel, c.sign(privs[i], msg)))
  }

  function SealedGenesis(c: Primitives, witnesses: seq<EpochWitness>, threshold: Int64, activatedAtMs: Int64,
                         signers: seq<CeremonySig>, privs: seq<Bytes>): Result<Epoch, SealError>
  {
    if witnesses == [] then Err(EmptyWitnesses)
    else if threshold < 1 || threshold > |witnesses| then Err(ThresholdOutOfRange)
    else if |signers| != |privs| then Err(CeremonyCount)
    else if |signers| < 2 then Err(FewCeremonySigners)
    else match CeremonyKeyError(c, signers, privs, 0)
         case Some(e) => Err(e)
         case None =>
           var e := UnsignedGenesis(witnesses, threshold, activatedAtMs);
           Ok(e.(genesisCeremony := CeremonySigned(c, signers, privs, GenesisMessage(c, e)), hash := HashOf(c, e)))
  }

  method SealGenesis(c: Primitives, witnesses: seq<EpochWitness>, threshold: Int64, activatedAtMs: Int64,
                     signers: seq<CeremonySig>, privs: seq<Bytes>) returns (r: Result<Epoch, SealError>)
    ensures r == SealedGenesis(c, witnesses, threshold, activatedAtMs, signers, privs)
  {
    if |witnesses| == 0 {
      return Err(EmptyWitnesses);
    }
    if threshold < 1 || threshold > |witnesses| {
      return Err(ThresholdOutOfRange);
    }
    if |signers| != |privs| {
      return Err(CeremonyCount);
    }
    if |signers| < 2 {
      return Err(FewCeremonySigners);
    }
    hide GenesisMessage, HashOf;
    for i := 0 to |signers|
      invariant CeremonyKeyError(c, signers, privs, 0) == CeremonyKeyError(c, signers, privs, i)
    {
      if c.publicOf(privs[i]) != signers[i].signerPubkey {
        return Err(CeremonyKeyMismatch);
      }
    }
    var e := UnsignedGenesis(witnesses, threshold, activatedAtMs);
    var msg := GenesisMessage(c, e);
    var signed: seq<CeremonySig> := [];
    for i := 0 to |signers|
      invariant signed == CeremonySigned(c, signers, privs, msg)[..i]
    {
      signed := signed + [CeremonySig(signers[i].signerPubkey, signers[i].signerLabel, c.sign(privs[i], msg))];
    }
    assert signed == CeremonySigned(c, signers, privs, msg);
    r := Ok(e.(genesisCeremony := signed, hash := HashOf(c, e)));
  }

  // Transitions

  /** First mismatch between the named slots, the keys and the roster in force. */
  function SlotKeyError(c: Primitives, current: Epoch, signers: seq<Int64>, privs: seq<Bytes>, i: nat)
    : Option<SealError>
    requires i <= |signers| == |privs|
    decreases |signers| - i
  {
    if i == |signers| then None
    else
      var idx := signers[i];
      if idx < 0 || idx >= |current.witnesses| then Some(SignerRange)
      else if idx in signers[..i] then Some(SignerRepeated)
      else if c.publicOf(privs[i]) != current.witnesses[idx].pubkey then Some(SignerKeyMismatch)
      else SlotKeyError(c, current, signers, privs, i + 1)
  }

  method CheckSlotKeys(c: Primitives, current: Epoch, signers: seq<Int64>, privs: seq<Bytes>)
    returns (bad: Option<SealError>)
    requires |signers| == |privs|
    ensures bad == SlotKeyError(c, current, signers, privs, 0)
  {
    var seen: set<int> := {};
    for i := 0 to |signers|
      invariant SlotKeyError(c, current, signers, privs, 0) == SlotKeyError(c, current, signers, privs, i)
      invariant forall k :: k in seen <==> k in signers[..i]
    {
      var idx := signers[i];
      if idx < 0 || idx >= |current.witnesses| {
        return Some(SignerRange);
      }
      if idx in seen {
        return Some(SignerRepeated);
      }
      seen := seen + {idx};
      assert signers[..i + 1] == signers[..i] + [idx];
      if c.publicOf(privs[i]) != current.witnesses[idx].pubkey {
        return Some(SignerKeyMismatch);
      }
    }
    bad := None;
  }

  function NextNum(n: Uint64): Uint64 { (n + 1) % TWO_64 }

  function UnsignedSuccessor(current: Epoch, witnesses: seq<EpochWitness>, threshold: Int64, activatedAtMs: Int64,
                             signers: seq<Int64>, emergency: Option<EmergencyParams>): Epoch
  {
    Epoch(NextNum(current.epochNum), current.hash, witnesses, threshold, activatedAtMs, [], signers, [], emergency, [])
  }

  function WithTransitionSigs(c: Primitives, e: Epoch, privs: seq<Bytes>): Epoch {
    e.(transitionSig := Signatures(c, privs, TransitionMessage(c, e)), hash := HashOf(c, e))
  }

  function SealedTransition(c: Primitives, current: Epoch, witnesses: seq<EpochWitness>, threshold: Int64,
                            activatedAtMs: Int64, signers: seq<Int64>, privs: seq<Bytes>): Result<Epoch, SealError>
  {
    if current.hash == [] then Err(NotHashed)
    else if threshold < 1 || threshold > |witnesses| then Err(ThresholdOutOfRange)
    else if |signers| < current.threshold then Err(NotEnoughSigners)
    else if |signers| != |privs| then Err(KeyCount)
    else match SlotKeyError(c, current, signers, privs, 0)
         case Some(e) => Err(e)
         case None =>
           var e := UnsignedSuccessor(current, witnesses, threshold, activatedAtMs, signers, None);
           Ok(WithTransitionSigs(c, e, privs))
  }

  method SealTransition(c: Primitives, current: Epoch, witnesses: seq<EpochWitness>, threshold: Int64,
                        activatedAtMs: Int64, signers: seq<Int64>, privs: seq<Bytes>)
    returns (r: Result<Epoch, SealError>)
    ensures r == SealedTransition(c, current, witnesses, threshold, activatedAtMs, signers, privs)
  {
    if |current.hash| == 0 {
      return Err(NotHashed);
    }
    if threshold < 1 || threshold > |witnesses| {
      return Err(ThresholdOutOfRange);
    }
    if |signers| < current.threshold {
      return Err(NotEnoughSigners);
    }
    if |signers| != |privs| {
      return Err(KeyCount);
    }
    var bad := CheckSlotKeys(c, current, signers, privs);
    if bad.Some? {
      return Err(bad.value);
    }
    hide TransitionMessage, HashOf;
    var e := UnsignedSuccessor(current, witnesses, threshold, activatedAtMs, signers, None);
    var concat := SignAll(c, privs, TransitionMessage(c, e));
    r := Ok(e.(transitionSig := concat, hash := HashOf(c, e)));
  }

  /** The announcement key defaults to the one that signs. */
  function AnnouncedParams(c: Primitives, em: EmergencyParams, annPriv: Bytes): EmergencyParams {
    em.(announcementPubkey := c.publicOf(annPriv), announcementSig := [])
  }

  function WithAnnouncement(c: Primitives, e: Epoch, annPriv: Bytes): Epoch
    requires e.emergency.Some?
  {
    e.(emergency := Some(e.emergency.value.(announcementSig := c.sign(annPriv, AnnouncementMessage(c, e)))))
  }

  function SealedEmergency(c: Primitives, current: Epoch, witnesses: seq<EpochWitness>, threshold: Int64,
                           activatedAtMs: Int64, signers: seq<Int64>, privs: seq<Bytes>, em: EmergencyParams,
                           annPriv: Bytes): Result<Epoch, SealError>
  {
    if current.hash == [] then Err(NotHashed)
    else if threshold < 1 || threshold > |witnesses| then Err(ThresholdOutOfRange)
    else if |signers| < SuperMajority(|current.witnesses|) then Err(NotEnoughSigners)
    else if |signers| != |privs| then Err(KeyCount)
    else if em.declaration == [] then Err(NoDeclaration)
    else if em.waitingPeriodMs < MIN_WAITING_MS then Err(WaitingBelowMinimum)
    else if em.announcementPubkey != [] && em.announcementPubkey != c.publicOf(annPriv) then Err(AnnouncementMismatch)
    else match SlotKeyError(c, current, signers, privs, 0)
         case Some(e) => Err(e)
         case None =>
           var params := AnnouncedParams(c, em, annPriv);
           var e := UnsignedSuccessor(current, witnesses, threshold, activatedAtMs, signers, Some(params));
           Ok(WithAnnouncement(c, WithTransitionSigs(c, e, privs), annPriv))
  }

  method SealEmergencyTransition(c: Primitives, current: Epoch, witnesses: seq<EpochWitness>, threshold: Int64,
                                 activatedAtMs: Int64, signers: seq<Int64>, privs: seq<Bytes>, em: EmergencyParams,
                                 annPriv: Bytes)
    returns (r: Result<Epoch, SealError>)
    ensures r == SealedEmergency(c, current, witnesses, threshold, activatedAtMs, signers, privs, em, annPriv)
  {
    if |current.hash| == 0 {
      return Err(NotHashed);
    }
    if threshold < 1 || threshold > |witnesses| {
      return Err(ThresholdOutOfRange);
    }
    var required := SuperMajority(|current.witnesses|);
    if |signers| < required {
      return Err(NotEnoughSigners);
    }
    if |signers| != |privs| {
      return Err(KeyCount);
    }
    if em.declaration == [] {
      return Err(NoDeclaration);
    }
    if em.waitingPeriodMs < MIN_WAITING_MS {
      return Err(WaitingBelowMinimum);
    }
    var derived := c.publicOf(annPriv);
    var pubkey := em.announcementPubkey;
    if |pubkey| == 0 {
      pubkey := derived;
    } else if pubkey != derived {
      return Err(AnnouncementMismatch);
    }
    var bad := CheckSlotKeys(c, current, signers, privs);
    if bad.Some? {
      return Err(bad.value);
    }
    hide TransitionMessage, HashOf, AnnouncementMessage;
    var params := EmergencyParams(em.declaration, em.declaredAtMs, em.waitingPeriodMs, pubkey, []);
    var e := UnsignedSuccessor(current, witnesses, threshold, activatedAtMs, signers, Some(params));
    var concat := SignAll(c, privs, TransitionMessage(c, e));
    e := e.(transitionSig := concat, hash := HashOf(c, e));
    var sig := c.sign(annPriv, AnnouncementMessage(c, e));
    r := Ok(e.(emergency := Some(params.(announcementSig := sig))));
  }

  // Building a chain

  datatype Move =
    | Regular(witnesses: seq<EpochWitness>, threshold: Int64, activatedAtMs: Int64, signers: seq<Int64>,
              privs: seq<Bytes>)
    | Emergency(witnesses: seq<EpochWitness>, threshold: Int64, activatedAtMs: Int64, signers: seq<Int64>,
                privs: seq<Bytes>, params: EmergencyParams, annPriv: Bytes)

  function Sealed(c: Primitives, current: Epoch, move: Move): Result<Epoch, SealError> {
    match move
    case Regular(ws, k, at, signers, privs) => SealedTransition(c, current, ws, k, at, signers, privs)
    case Emergency(ws, k, at, signers, privs, params, annPriv) =>
      SealedEmergency(c, current, ws, k, at, signers, privs, params, annPriv)
  }

  /** Start from genesis and seal each move from the latest epoch. */
  function Grow(c: Primitives, genesis: Epoch, moves: seq<Move>): (r: Result<seq<Epoch>, SealError>)
    ensures r.Ok? ==> |r.value| == |moves| + 1
  {
    if moves == [] then Ok([genesis])
    else match Grow(c, genesis, moves[..|moves| - 1])
         case Err(e) => Err(e)
         case Ok(epochs) =>
           match Sealed(c, epochs[|epochs| - 1], moves[|moves| - 1])
           case Err(e) => Err(e)
           case Ok(e) => Ok(epochs + [e])
  }

  /** The one thing the verifier checks that the sealer does not: activation waits out the declared period. */
  predicate Timely(move: Move) {
    move.Emergency? ==> move.activatedAtMs >= WrapInt64(move.params.declaredAtMs + move.params.waitingPeriodMs)
  }

  function SignerKeys(signers: seq<CeremonySig>): (keys: seq<Bytes>)
    ensures |keys| == |signers|
  {
    seq(|signers|, i requires 0 <= i < |signers| => signers[i].signerPubkey)
  }

  ghost predicate CeremonyAcceptable(signers: seq<CeremonySig>, pinned: Option<seq<Bytes>>) {
    && Distinct(SignerKeys(signers))
    && (pinned.Some? ==> forall i :: 0 <= i < |signers| ==> signers[i].signerPubkey in pinned.value)
  }

  // Completeness

  /** The signatures and the cached hash are outside the encoding. */
  lemma {:induction false} SignaturesOutsideEncoding(e: Epoch, sig: Bytes, h: Bytes, ceremony: seq<CeremonySig>,
                                                     annSig: Bytes)
    ensures Canonical(e.(transitionSig := sig, hash := h, genesisCeremony := ceremony)) == Canonical(e)
    ensures e.emergency.Some? ==>
              Canonical(e.(emergency := Some(e.emergency.value.(announcementSig := annSig)))) == Canonical(e)
  {
    hide BigEndian, Ascii, ByIndex;
  }

  lemma {:induction false} CeremonyKeysMatch(c: Primitives, signers: seq<CeremonySig>, privs: seq<Bytes>, i: nat)
    requires i <= |signers| == |privs| && CeremonyKeyError(c, signers, privs, i).None?
    ensures forall j :: i <= j < |signers| ==> signers[j].signerPubkey == c.publicOf(privs[j])
    decreases |signers| - i
  {
    if i < |signers| {
      CeremonyKeysMatch(c, signers, privs, i + 1);
    }
  }

  lemma {:induction false} SlotKeysMatch(c: Primitives, current: Epoch, signers: seq<Int64>, privs: seq<Bytes>, i: nat)
    requires i <= |signers| == |privs| && SlotKeyError(c, current, signers, privs, i).None?
    requires Distinct(signers[..i])
    ensures Distinct(signers)
    ensures forall j :: i <= j < |signers| ==>
              0 <= signers[j] < |current.witnesses| && current.witnesses[signers[j]].pubkey == c.publicOf(privs[j])
    decreases |signers| - i
  {
    if i == |signers| {
      assert signers[..i] == signers;
    } else {
      assert signers[..i + 1] == signers[..i] + [signers[i]];
      SlotKeysMatch(c, current, signers, privs, i + 1);
    }
  }

  lemma {:induction false} GenesisAccepted(c: Primitives, witnesses: seq<EpochWitness>, threshold: Int64,
                                           activatedAtMs: Int64, signers: seq<CeremonySig>, privs: seq<Bytes>,
                                           pinned: Option<seq<Bytes>>)
    requires Sound(c) && SealedGenesis(c, witnesses, threshold, activatedAtMs, signers, privs).Ok?
    ensures var g := SealedGenesis(c, witnesses, threshold, activatedAtMs, signers, privs).value;
            && g.epochNum == 0 && g.hash == HashOf(c, g)
            && (GenesisOk(c, g, pinned) <==> CeremonyAcceptable(signers, pinned))
  {
    hide Canonical;
    var e := UnsignedGenesis(witnesses, threshold, activatedAtMs);
    var g := SealedGenesis(c, witnesses, threshold, activatedAtMs, signers, privs).value;
    SignaturesOutsideEncoding(e, [], g.hash, g.genesisCeremony, []);
    CeremonyKeysMatch(c, signers, privs, 0);
    assert CeremonyKeys(g) == SignerKeys(signers);
    forall j | 0 <= j < |signers|
      ensures CeremonySigOk(c, g, pinned, g.genesisCeremony[j])
         <==> (pinned.Some? ==> signers[j].signerPubkey in pinned.value)
    {
      assert c.verify(c.publicOf(privs[j]), GenesisMessage(c, e), c.sign(privs[j], GenesisMessage(c, e)));
    }
  }

  /** Properly sealed transition signatures satisfy the verifier's signer check. */
  lemma {:induction false} SealedSignersOk(c: Primitives, current: Epoch, e: Epoch, privs: seq<Bytes>)
    requires Sound(c) && |e.transitionSigners| == |privs|
    requires SlotKeyError(c, current, e.transitionSigners, privs, 0).None?
    requires e.transitionSig == Signatures(c, privs, TransitionMessage(c, e))
    ensures |e.transitionSig| == |e.transitionSigners| * SIGNATURE_SIZE && Distinct(e.transitionSigners)
    ensures forall j :: 0 <= j < |e.transitionSigners| ==> SignedBySlot(c, current, e, j)
  {
    hide TransitionMessage;
    var msg := TransitionMessage(c, e);
    SlotKeysMatch(c, current, e.transitionSigners, privs, 0);
    if privs != [] {
      SignatureSlices(c, privs, msg, 0);
    }
    forall j | 0 <= j < |e.transitionSigners| ensures SignedBySlot(c, current, e, j) {
      SignatureSlices(c, privs, msg, j);
      assert c.verify(c.publicOf(privs[j]), msg, c.sign(privs[j], msg));
    }
  }

  lemma {:induction false} RegularAccepted(c: Primitives, current: Epoch, move: Move)
    requires Sound(c) && current.hash == HashOf(c, current) && move.Regular? && Sealed(c, current, move).Ok?
    ensures var e := Sealed(c, current, move).value;
            && e.epochNum == NextNum(current.epochNum) && e.hash == HashOf(c, e) && TransitionOk(c, current, e)
  {
    hide Canonical;
    var u := UnsignedSuccessor(current, move.witnesses, move.threshold, move.activatedAtMs, move.signers, None);
    var e := Sealed(c, current, move).value;
    SignaturesOutsideEncoding(u, e.transitionSig, e.hash, [], []);
    SealedSignersOk(c, current, e, move.privs);
  }

  lemma {:induction false} EmergencyAccepted(c: Primitives, current: Epoch, move: Move)
    requires Sound(c) && current.hash == HashOf(c, current) && move.Emergency? && Sealed(c, current, move).Ok?
    ensures var e := Sealed(c, current, move).value;
            && e.epochNum == NextNum(current.epochNum) && e.hash == HashOf(c, e)
            && (TransitionOk(c, current, e) <==> Timely(move))
  {
    hide Canonical;
    var params := AnnouncedParams(c, move.params, move.annPriv);
    var u := UnsignedSuccessor(current, move.witnesses, move.threshold, move.activatedAtMs, move.signers, Some(params));
    var s := WithTransitionSigs(c, u, move.privs);
    var e := Sealed(c, current, move).value;
    SignaturesOutsideEncoding(u, s.transitionSig, s.hash, [], []);
    SignaturesOutsideEncoding(s, [], [], [], e.emergency.value.announcementSig);
    SealedSignersOk(c, current, e, move.privs);
    var msg := AnnouncementMessage(c, s);
    assert c.verify(c.publicOf(move.annPriv), msg, c.sign(move.annPriv, msg));
    assert EmergencyError(c, e).None? <==> Timely(move);
  }

  lemma {:induction false} GrownEpochs(c: Primitives, genesis: Epoch, moves: seq<Move>)
    requires Sound(c) && Grow(c, genesis, moves).Ok? && |moves| + 1 < TWO_64
    requires genesis.epochNum == 0 && genesis.hash == HashOf(c, genesis)
    ensures var epochs := Grow(c, genesis, moves).value;
            && epochs[0] == genesis
            && (forall i :: 0 <= i < |epochs| ==> epochs[i].epochNum == i && epochs[i].hash == HashOf(c, epochs[i]))
            && (forall i :: 0 < i < |epochs| ==> (TransitionOk(c, epochs[i - 1], epochs[i]) <==> Timely(moves[i - 1])))
  {
    hide HashOf, TransitionOk, Timely, Sealed;
    if moves != [] {
      var front, move := moves[..|moves| - 1], moves[|moves| - 1];
      var before := Grow(c, genesis, front).value;
      GrownEpochs(c, genesis, front);
      var last := before[|before| - 1];
      if move.Emergency? {
        EmergencyAccepted(c, last, move);
      } else {
        RegularAccepted(c, last, move);
        RegularIsTimely(move);
      }
    }
  }

  lemma {:induction false} RegularIsTimely(move: Move)
    requires move.Regular?
    ensures Timely(move)
  {
  }

  /**
   Completeness: a chain grown by the sealers from the latest epoch each time is accepted if and only if the
   ceremony keys are distinct and pinned and every emergency activates no earlier than declared plus waiting.
   */
  lemma {:induction false} GrownChainAcceptedIff(c: Primitives, witnesses: seq<EpochWitness>, threshold: Int64,
                                                 activatedAtMs: Int64, signers: seq<CeremonySig>, privs: seq<Bytes>,
                                                 moves: seq<Move>, pinned: Option<seq<Bytes>>)
    requires Sound(c) && |moves| + 1 < TWO_64
    requires SealedGenesis(c, witnesses, threshold, activatedAtMs, signers, privs).Ok?
    requires Grow(c, SealedGenesis(c, witnesses, threshold, activatedAtMs, signers, privs).value, moves).Ok?
    ensures var genesis := SealedGenesis(c, witnesses, threshold, activatedAtMs, signers, privs).value;
            Accepted(c, Grow(c, genesis, moves).value, pinned) <==>
              CeremonyAcceptable(signers, pinned) && forall i :: 0 <= i < |moves| ==> Timely(moves[i])
  {
    hide HashOf, GenesisOk, TransitionOk, Timely, CeremonyAcceptable, Accepted, Sound, Grow, SealedGenesis;
    var g := SealedGenesis(c, witnesses, threshold, activatedAtMs, signers, privs).value;
    var epochs := Grow(c, g, moves).value;
    GenesisAccepted(c, witnesses, threshold, activatedAtMs, signers, privs, pinned);
    GrownEpochs(c, g, moves);
    AcceptedIff(c, epochs, pinned);
    if Accepted(c, epochs, pinned) {
      assert EpochOk(c, epochs, 0, pinned);
      forall i | 0 <= i < |moves| ensures Timely(moves[i]) {
        assert EpochOk(c, epochs, i + 1, pinned);
      }
    }
  }

  // Exactly when the sealers succeed, and what they write

  /** Named slots exist, differ, and hold the keys that sign. */
  ghost predicate SlotKeysOk(c: Primitives, current: Epoch, signers: seq<Int64>, privs: seq<Bytes>) {
    && |signers| == |privs| && Distinct(signers)
    && forall j :: 0 <= j < |signers| ==>
         0 <= signers[j] < |current.witnesses| && current.witnesses[signers[j]].pubkey == c.publicOf(privs[j])
  }

  lemma {:induction false} SlotKeyErrorMeaning(c: Primitives, current: Epoch, signers: seq<Int64>, privs: seq<Bytes>,
                                               i: nat)
    requires i <= |signers| && SlotKeysOk(c, current, signers, privs)
    ensures SlotKeyError(c, current, signers, privs, i).None?
    decreases |signers| - i
  {
    if i < |signers| {
      assert forall j :: 0 <= j < i ==> signers[..i][j] != signers[i];
      SlotKeyErrorMeaning(c, current, signers, privs, i + 1);
    }
  }

  lemma {:induction false} CeremonyKeyErrorMeaning(c: Primitives, signers: seq<CeremonySig>, privs: seq<Bytes>, i: nat)
    requires i <= |signers| == |privs|
    requires forall j :: 0 <= j < |signers| ==> c.publicOf(privs[j]) == signers[j].signerPubkey
    ensures CeremonyKeyError(c, signers, privs, i).None?
    decreases |signers| - i
  {
    if i < |signers| {
      CeremonyKeyErrorMeaning(c, signers, privs, i + 1);
    }
  }

  /** Genesis seals exactly with a threshold in range and two or more ceremony signers who hold their keys. */
  lemma {:induction false} GenesisSealsIff(c: Primitives, witnesses: seq<EpochWitness>, threshold: Int64,
                                           activatedAtMs: Int64, signers: seq<CeremonySig>, privs: seq<Bytes>)
    ensures var r := SealedGenesis(c, witnesses, threshold, activatedAtMs, signers, privs);
            && (r.Ok? <==>
                  && 1 <= threshold <= |witnesses| && 2 <= |signers| == |privs|
                  && forall j :: 0 <= j < |signers| ==> c.publicOf(privs[j]) == signers[j].signerPubkey)
            && (r.Ok? ==>
                  && r.value.epochNum == 0 && r.value.prevHash == [] && r.value.witnesses == witnesses
                  && r.value.threshold == threshold && r.value.activatedAtMs == activatedAtMs
                  && r.value.transitionSigners == [] && r.value.emergency.None?
                  && |r.value.genesisCeremony| == |signers|
                  && forall j :: 0 <= j < |signers| ==>
                       && r.value.genesisCeremony[j].signerPubkey == signers[j].signerPubkey
                       && r.value.genesisCeremony[j].signerLabel == signers[j].signerLabel)
  {
    hide GenesisMessage, HashOf;
    if |signers| == |privs| {
      if CeremonyKeyError(c, signers, privs, 0).None? {
        CeremonyKeysMatch(c, signers, privs, 0);
      } else if forall j :: 0 <= j < |signers| ==> c.publicOf(privs[j]) == signers[j].signerPubkey {
        CeremonyKeyErrorMeaning(c, signers, privs, 0);
      }
    }
  }

  /** What a move must bring along to be sealed on top of current. */
  ghost predicate SealsOn(c: Primitives, current: Epoch, move: Move) {
    && current.hash != [] && 1 <= move.threshold <= |move.witnesses|
    && SlotKeysOk(c, current, move.signers, move.privs)
    && (move.Regular? ==> |move.signers| >= current.threshold)
    && (move.Emergency? ==>
          && 5 * |move.signers| >= 4 * |current.witnesses| && move.params.declaration != []
          && move.params.waitingPeriodMs >= 86_400_000
          && (move.params.announcementPubkey == [] || move.params.announcementPubkey == c.publicOf(move.annPriv)))
  }

  /** The part of an epoch a move decides. */
  ghost predicate Carries(c: Primitives, current: Epoch, move: Move, e: Epoch) {
    && e.epochNum == (current.epochNum + 1) % TWO_64 && e.prevHash == current.hash && e.witnesses == move.witnesses
    && e.threshold == move.threshold && e.activatedAtMs == move.activatedAtMs && e.transitionSigners == move.signers
    && e.genesisCeremony == [] && e.emergency.Some? == move.Emergency?
    && (move.Emergency? ==>
          && e.emergency.value.declaration == move.params.declaration
          && e.emergency.value.declaredAtMs == move.params.declaredAtMs
          && e.emergency.value.waitingPeriodMs == move.params.waitingPeriodMs
          && e.emergency.value.announcementPubkey == c.publicOf(move.annPriv))
  }

  /** A move seals exactly when it brings all that, and the new epoch carries what the move says. */
  lemma {:induction false} SealsIff(c: Primitives, current: Epoch, move: Move)
    ensures Sealed(c, current, move).Ok? <==> SealsOn(c, current, move)
    ensures Sealed(c, current, move).Ok? ==> Carries(c, current, move, Sealed(c, current, move).value)
  {
    hide TransitionMessage, AnnouncementMessage, HashOf, SuperMajority, Distinct;
    SuperMajorityMeaning(|current.witnesses|);
    if |move.signers| == |move.privs| {
      if SlotKeyError(c, current, move.signers, move.privs, 0).None? {
        NoneRepeated<Int64>();
        SlotKeysMatch(c, current, move.signers, move.privs, 0);
      } else if SlotKeysOk(c, current, move.signers, move.privs) {
        SlotKeyErrorMeaning(c, current, move.signers, move.privs, 0);
      }
    }
  }

  lemma {:induction false} NoneRepeated<T>()
    ensures forall s: seq<T> :: Distinct(s[..0])
  {
  }
}
