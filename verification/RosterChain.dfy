/** The hash-linked chain of rosters: the verifier that replays it from genesis. */
module RosterChain {
  import opened Combinatorics
  import opened Crypto
  import opened Encoding
  import opened Epochs
  import opened Wrappers

  datatype ChainError =
    | EmptyChain
    | EpochNumMismatch
    | GenesisPrevHash
    | FewCeremonySigs
    | CeremonySize
    | CeremonyDuplicate
    | CeremonyNotPinned
    | CeremonySigInvalid
    | PrevHashMismatch
    | WaitingTooShort
    | ActivatedTooEarly
    | AnnouncementSize
    | AnnouncementSigInvalid
    | TooFewSigners
    | SigBlobSize
    | SignerOutOfRange
    | DuplicateSigner
    | KeySizePanic
    | TransitionSigInvalid

  /** At least 80 percent, rounded up. */
  function SuperMajority(n: nat): nat { (n * 4 + 5 - 1) / 5 }

  function RequiredSigners(prev: Epoch, e: Epoch): int {
    if e.emergency.Some? then SuperMajority(|prev.witnesses|) else prev.threshold
  }

  function SignatureAt(e: Epoch, j: nat): (sig: Bytes)
    requires (j + 1) * SIGNATURE_SIZE <= |e.transitionSig|
    ensures |sig| == SIGNATURE_SIZE
  {
    e.transitionSig[j * SIGNATURE_SIZE..(j + 1) * SIGNATURE_SIZE]
  }

  function CeremonyKeys(e: Epoch): (keys: seq<Bytes>)
    ensures |keys| == |e.genesisCeremony|
  {
    seq(|e.genesisCeremony|, j requires 0 <= j < |e.genesisCeremony| => e.genesisCeremony[j].signerPubkey)
  }

  // What the verifier computes

  /** First problem among the ceremony signatures from position j on. */
  function CeremonyError(c: Primitives, e: Epoch, pinned: Option<seq<Bytes>>, j: nat): Option<ChainError>
    requires j <= |e.genesisCeremony|
    decreases |e.genesisCeremony| - j
  {
    if j == |e.genesisCeremony| then None
    else
      var cs := e.genesisCeremony[j];
      if |cs.signerPubkey| != PUBLIC_KEY_SIZE || |cs.signature| != SIGNATURE_SIZE then Some(CeremonySize)
      else if cs.signerPubkey in CeremonyKeys(e)[..j] then Some(CeremonyDuplicate)
      else if pinned.Some? && cs.signerPubkey !in pinned.value then Some(CeremonyNotPinned)
      else if !c.verify(cs.signerPubkey, GenesisMessage(c, e), cs.signature) then Some(CeremonySigInvalid)
      else CeremonyError(c, e, pinned, j + 1)
  }

  function GenesisError(c: Primitives, e: Epoch, pinned: Option<seq<Bytes>>): Option<ChainError> {
    if e.prevHash != [] then Some(GenesisPrevHash)
    else if |e.genesisCeremony| < 2 then Some(FewCeremonySigs)
    else CeremonyError(c, e, pinned, 0)
  }

  function EmergencyError(c: Primitives, e: Epoch): Option<ChainError> {
    match e.emergency
    case None => None
    case Some(em) =>
      if em.waitingPeriodMs < MIN_WAITING_MS then Some(WaitingTooShort)
      else if e.activatedAtMs < WrapInt64(em.declaredAtMs + em.waitingPeriodMs) then Some(ActivatedTooEarly)
      else if |em.announcementPubkey| != PUBLIC_KEY_SIZE || |em.announcementSig| != SIGNATURE_SIZE then
        Some(AnnouncementSize)
      else if !c.verify(em.announcementPubkey, AnnouncementMessage(c, e), em.announcementSig) then
        Some(AnnouncementSigInvalid)
      else None
  }

  /** First problem among the transition signatures from position j on. */
  function SignerError(c: Primitives, prev: Epoch, e: Epoch, j: nat): Option<ChainError>
    requires j <= |e.transitionSigners| && |e.transitionSig| == |e.transitionSigners| * SIGNATURE_SIZE
    decreases |e.transitionSigners| - j
  {
    if j == |e.transitionSigners| then None
    else
      var idx := e.transitionSigners[j];
      if idx < 0 || idx >= |prev.witnesses| then Some(SignerOutOfRange)
      else if idx in e.transitionSigners[..j] then Some(DuplicateSigner)
      else if |prev.witnesses[idx].pubkey| != PUBLIC_KEY_SIZE then Some(KeySizePanic)
      else if !c.verify(prev.witnesses[idx].pubkey, TransitionMessage(c, e), SignatureAt(e, j)) then
        Some(TransitionSigInvalid)
      else SignerError(c, prev, e, j + 1)
  }

  function TransitionError(c: Primitives, prev: Epoch, e: Epoch): Option<ChainError> {
    if e.prevHash != HashOf(c, prev) then Some(PrevHashMismatch)
    else if EmergencyError(c, e).Some? then EmergencyError(c, e)
    else if |e.transitionSigners| < RequiredSigners(prev, e) then Some(TooFewSigners)
    else if |e.transitionSig| != |e.transitionSigners| * SIGNATURE_SIZE then Some(SigBlobSize)
    else SignerError(c, prev, e, 0)
  }

  function EpochError(c: Primitives, epochs: seq<Epoch>, i: nat, pinned: Option<seq<Bytes>>): Option<ChainError>
    requires i < |epochs|
  {
    if epochs[i].epochNum != i then Some(EpochNumMismatch)
    else if i == 0 then GenesisError(c, epochs[0], pinned)
    else TransitionError(c, epochs[i - 1], epochs[i])
  }

  /** First problem from epoch i on, and how many epochs were looked at to find it. */
  function Replay(c: Primitives, epochs: seq<Epoch>, i: nat, pinned: Option<seq<Bytes>>): (r: (Option<ChainError>, nat))
    requires i <= |epochs|
    ensures i <= r.1 <= |epochs|
    decreases |epochs| - i
  {
    if i == |epochs| then (None, i)
    else match EpochError(c, epochs, i, pinned)
         case Some(err) => (Some(err), i + 1)
         case None => Replay(c, epochs, i + 1, pinned)
  }

  function Cached(c: Primitives, epochs: seq<Epoch>, n: nat): (r: seq<Epoch>)
    requires n <= |epochs|
    ensures |r| == |epochs|
  {
    seq(|epochs|, i requires 0 <= i < |epochs| =>
      if i < n then epochs[i].(hash := HashOf(c, epochs[i])) else epochs[i])
  }

  /** Looking stops behind the first bad epoch, and every epoch looked at gets its hash cached, the others do not. */
  lemma {:induction false} CachesMeaning(c: Primitives, epochs: seq<Epoch>, i: nat, pinned: Option<seq<Bytes>>)
    requires i <= |epochs|
    ensures var (bad, n) := Replay(c, epochs, i, pinned);
            && (bad.None? ==> n == |epochs|)
            && (bad.Some? ==> i < n && EpochError(c, epochs, n - 1, pinned) == bad)
            && (forall j :: i <= j < n ==> (j == n - 1 && bad.Some?) || EpochError(c, epochs, j, pinned).None?)
            && (forall j :: 0 <= j < n ==>
                  Cached(c, epochs, n)[j] == epochs[j].(hash := c.sha3(Canonical(epochs[j]))))
            && (forall j :: n <= j < |epochs| ==> Cached(c, epochs, n)[j] == epochs[j])
    decreases |epochs| - i
  {
    hide EpochError, Canonical;
    if i < |epochs| && EpochError(c, epochs, i, pinned).None? {
      CachesMeaning(c, epochs, i + 1, pinned);
    }
  }

  // The verifier

  class Chain {
    var epochs: seq<Epoch>

    constructor (es: seq<Epoch>)
      ensures epochs == es
    {
      epochs := es;
    }
  }

  method VerifyCeremony(c: Primitives, e: Epoch, pinned: Option<seq<Bytes>>) returns (bad: Option<ChainError>)
    ensures bad == CeremonyError(c, e, pinned, 0)
  {
    hide GenesisMessage;
    var msg := GenesisMessage(c, e);
    var seenPubs: set<Bytes> := {};
    for j := 0 to |e.genesisCeremony|
      invariant CeremonyError(c, e, pinned, 0) == CeremonyError(c, e, pinned, j)
      invariant forall k :: k in seenPubs <==> k in CeremonyKeys(e)[..j]
    {
      var cs := e.genesisCeremony[j];
      if |cs.signerPubkey| != PUBLIC_KEY_SIZE || |cs.signature| != SIGNATURE_SIZE {
        return Some(CeremonySize);
      }
      if cs.signerPubkey in seenPubs {
        return Some(CeremonyDuplicate);
      }
      seenPubs := seenPubs + {cs.signerPubkey};
      assert CeremonyKeys(e)[..j + 1] == CeremonyKeys(e)[..j] + [cs.signerPubkey];
      if pinned.Some? && cs.signerPubkey !in pinned.value {
        return Some(CeremonyNotPinned);
      }
      if !c.verify(cs.signerPubkey, msg, cs.signature) {
        return Some(CeremonySigInvalid);
      }
    }
    bad := None;
  }

  method VerifySigners(c: Primitives, prev: Epoch, e: Epoch) returns (bad: Option<ChainError>)
    requires |e.transitionSig| == |e.transitionSigners| * SIGNATURE_SIZE
    ensures bad == SignerError(c, prev, e, 0)
  {
    hide TransitionMessage;
    var msg := TransitionMessage(c, e);
    var seenIdx: set<int> := {};
    for j := 0 to |e.transitionSigners|
      invariant SignerError(c, prev, e, 0) == SignerError(c, prev, e, j)
      invariant forall k :: k in seenIdx <==> k in e.transitionSigners[..j]
    {
      var idx := e.transitionSigners[j];
      if idx < 0 || idx >= |prev.witnesses| {
        return Some(SignerOutOfRange);
      }
      if idx in seenIdx {
        return Some(DuplicateSigner);
      }
      seenIdx := seenIdx + {idx};
      assert e.transitionSigners[..j + 1] == e.transitionSigners[..j] + [idx];
      if |prev.witnesses[idx].pubkey| != PUBLIC_KEY_SIZE {
        return Some(KeySizePanic);
      }
      var sigStart := j * SIGNATURE_SIZE;
      var sig := e.transitionSig[sigStart..sigStart + SIGNATURE_SIZE];
      if !c.verify(prev.witnesses[idx].pubkey, msg, sig) {
        return Some(TransitionSigInvalid);
      }
    }
    bad := None;
  }

  /** The cached hash is not part of what is verified. */
  lemma {:induction false} HashFieldIrrelevant(c: Primitives, prev: Epoch, h: Bytes, e: Epoch, g: Bytes,
                                               pinned: Option<seq<Bytes>>)
    ensures HashOf(c, e.(hash := g)) == HashOf(c, e)
    ensures GenesisError(c, e.(hash := g), pinned) == GenesisError(c, e, pinned)
    ensures TransitionError(c, prev.(hash := h), e.(hash := g)) == TransitionError(c, prev, e)
  {
    hide BigEndian, Ascii;
    CeremonyHashIrrelevant(c, e, g, pinned, 0);
    if |e.transitionSig| == |e.transitionSigners| * SIGNATURE_SIZE {
      SignerHashIrrelevant(c, prev, h, e, g, 0);
    }
  }

  lemma {:induction false} CeremonyHashIrrelevant(c: Primitives, e: Epoch, g: Bytes, pinned: Option<seq<Bytes>>, j: nat)
    requires j <= |e.genesisCeremony|
    ensures CeremonyError(c, e.(hash := g), pinned, j) == CeremonyError(c, e, pinned, j)
    decreases |e.genesisCeremony| - j
  {
    hide BigEndian, Ascii;
    if j < |e.genesisCeremony| {
      assert CeremonyKeys(e.(hash := g)) == CeremonyKeys(e);
      CeremonyHashIrrelevant(c, e, g, pinned, j + 1);
    }
  }

  lemma {:induction false} SignerHashIrrelevant(c: Primitives, prev: Epoch, h: Bytes, e: Epoch, g: Bytes, j: nat)
    requires j <= |e.transitionSigners| && |e.transitionSig| == |e.transitionSigners| * SIGNATURE_SIZE
    ensures SignerError(c, prev.(hash := h), e.(hash := g), j) == SignerError(c, prev, e, j)
    decreases |e.transitionSigners| - j
  {
    hide BigEndian, Ascii;
    if j < |e.transitionSigners| {
      SignerHashIrrelevant(c, prev, h, e, g, j + 1);
    }
  }

  method VerifyTransition(c: Primitives, prev: Epoch, e: Epoch) returns (bad: Option<ChainError>)
    requires prev.hash == HashOf(c, prev)
    ensures bad == TransitionError(c, prev, e)
  {
    hide HashOf, TransitionMessage, AnnouncementMessage;
    if e.prevHash != prev.hash {
      return Some(PrevHashMismatch);
    }
    var requiredSigners := prev.threshold as int;
    if e.emergency.Some? {
      requiredSigners := SuperMajority(|prev.witnesses|);
      var err := EmergencyError(c, e);
      if err.Some? {
        return err;
      }
    }
    if |e.transitionSigners| < requiredSigners {
      return Some(TooFewSigners);
    }
    if |e.transitionSig| != |e.transitionSigners| * SIGNATURE_SIZE {
      return Some(SigBlobSize);
    }
    bad := VerifySigners(c, prev, e);
  }

  /** pinned is None for an unpinned replay. Every epoch looked at gets its hash cached, also on failure. */
  method VerifyChain(c: Primitives, chain: Chain, pinned: Option<seq<Bytes>>) returns (r: Result<Epoch, ChainError>)
    modifies chain
    ensures chain.epochs == Cached(c, old(chain.epochs), Replay(c, old(chain.epochs), 0, pinned).1)
    ensures old(chain.epochs) == [] ==> r == Err(EmptyChain)
    ensures old(chain.epochs) != [] ==>
              r == match Replay(c, old(chain.epochs), 0, pinned).0
                   case Some(err) => Err(err)
                   case None => Ok(chain.epochs[|chain.epochs| - 1])
  {
    hide HashOf, GenesisError, TransitionError, GenesisMessage;
    if |chain.epochs| == 0 {
      return Err(EmptyChain);
    }
    ghost var epochs := chain.epochs;
    for i := 0 to |chain.epochs|
      invariant chain.epochs == Cached(c, epochs, i)
      invariant Replay(c, epochs, 0, pinned) == Replay(c, epochs, i, pinned)
    {
      var h := HashOf(c, chain.epochs[i]);
      chain.epochs := chain.epochs[i := chain.epochs[i].(hash := h)];
      assert chain.epochs == Cached(c, epochs, i + 1);
      var e := chain.epochs[i];
      if e.epochNum != i {
        return Err(EpochNumMismatch);
      }
      var bad: Option<ChainError>;
      if i == 0 {
        HashFieldIrrelevant(c, epochs[0], [], epochs[0], h, pinned);
        bad := VerifyGenesis(c, e, pinned);
      } else {
        var prev := chain.epochs[i - 1];
        HashFieldIrrelevant(c, epochs[i - 1], prev.hash, epochs[i], h, pinned);
        HashFieldIrrelevant(c, epochs[i - 1], [], epochs[i - 1], prev.hash, pinned);
        bad := VerifyTransition(c, prev, e);
      }
      if bad.Some? {
        return Err(bad.value);
      }
    }
    r := Ok(chain.epochs[|chain.epochs| - 1]);
  }

  method VerifyGenesis(c: Primitives, e: Epoch, pinned: Option<seq<Bytes>>) returns (bad: Option<ChainError>)
    ensures bad == GenesisError(c, e, pinned)
  {
    if |e.prevHash| != 0 {
      return Some(GenesisPrevHash);
    }
    if |e.genesisCeremony| < 2 {
      return Some(FewCeremonySigs);
    }
    bad := VerifyCeremony(c, e, pinned);
  }

  // What acceptance means

  ghost predicate CeremonyOk(c: Primitives, e: Epoch, pinned: Option<seq<Bytes>>) {
    && Distinct(CeremonyKeys(e))
    && forall j :: 0 <= j < |e.genesisCeremony| ==> CeremonySigOk(c, e, pinned, e.genesisCeremony[j])
  }

  predicate CeremonySigOk(c: Primitives, e: Epoch, pinned: Option<seq<Bytes>>, cs: CeremonySig) {
    && |cs.signerPubkey| == PUBLIC_KEY_SIZE && |cs.signature| == SIGNATURE_SIZE
    && (pinned.Some? ==> cs.signerPubkey in pinned.value)
    && c.verify(cs.signerPubkey, GenesisMessage(c, e), cs.signature)
  }

  ghost predicate GenesisOk(c: Primitives, e: Epoch, pinned: Option<seq<Bytes>>) {
    e.prevHash == [] && |e.genesisCeremony| >= 2 && CeremonyOk(c, e, pinned)
  }

  /** The j-th signature on e is by the slot of prev it names. */
  predicate SignedBySlot(c: Primitives, prev: Epoch, e: Epoch, j: nat)
    requires j < |e.transitionSigners| && |e.transitionSig| == |e.transitionSigners| * SIGNATURE_SIZE
  {
    var idx := e.transitionSigners[j];
    && 0 <= idx < |prev.witnesses|
    && |prev.witnesses[idx].pubkey| == PUBLIC_KEY_SIZE
    && c.verify(prev.witnesses[idx].pubkey, TransitionMessage(c, e), SignatureAt(e, j))
  }

  /**
   An emergency waits at least a day, activates no earlier than declared plus waiting, and carries the announcement
   key's signature of its canonical bytes.
   */
  ghost predicate EmergencyOk(c: Primitives, e: Epoch) {
    e.emergency.Some? ==>
      var em := e.emergency.value;
      && em.waitingPeriodMs >= 86_400_000
      && e.activatedAtMs >= WrapInt64(em.declaredAtMs + em.waitingPeriodMs)
      && |em.announcementPubkey| == 32 && |em.announcementSig| == 64
      && c.verify(em.announcementPubkey, c.sha3(Ascii("963causal-ROSTER-EMERGENCY-V1\0") + Canonical(e)),
                  em.announcementSig)
  }

  lemma {:induction false} EmergencyErrorMeaning(c: Primitives, e: Epoch)
    ensures EmergencyError(c, e).None? <==> EmergencyOk(c, e)
  {
    hide Canonical, Ascii;
  }

  /** The least number of signers that is at least four fifths of the roster. */
  lemma {:induction false} SuperMajorityMeaning(n: nat)
    ensures 5 * SuperMajority(n) >= 4 * n
    ensures forall m: int :: 5 * m >= 4 * n ==> m >= SuperMajority(n)
  {
  }

  ghost predicate TransitionOk(c: Primitives, prev: Epoch, e: Epoch) {
    && e.prevHash == HashOf(c, prev)
    && EmergencyOk(c, e)
    && |e.transitionSigners| >= RequiredSigners(prev, e)
    && |e.transitionSig| == |e.transitionSigners| * SIGNATURE_SIZE
    && Distinct(e.transitionSigners)
    && forall j :: 0 <= j < |e.transitionSigners| ==> SignedBySlot(c, prev, e, j)
  }

  ghost predicate EpochOk(c: Primitives, epochs: seq<Epoch>, i: nat, pinned: Option<seq<Bytes>>)
    requires i < |epochs|
  {
    && epochs[i].epochNum == i
    && if i == 0 then GenesisOk(c, epochs[0], pinned) else TransitionOk(c, epochs[i - 1], epochs[i])
  }

  /** VerifyChain succeeds on this chain. */
  predicate Accepted(c: Primitives, epochs: seq<Epoch>, pinned: Option<seq<Bytes>>) {
    epochs != [] && Replay(c, epochs, 0, pinned).0.None?
  }

  lemma {:induction false} CeremonyErrorMeaning(c: Primitives, e: Epoch, pinned: Option<seq<Bytes>>, j: nat)
    requires j <= |e.genesisCeremony| && Distinct(CeremonyKeys(e)[..j])
    ensures CeremonyError(c, e, pinned, j).None?
       <==> Distinct(CeremonyKeys(e))
            && forall k :: j <= k < |e.genesisCeremony| ==> CeremonySigOk(c, e, pinned, e.genesisCeremony[k])
    decreases |e.genesisCeremony| - j
  {
    hide GenesisMessage;
    var keys := CeremonyKeys(e);
    if j == |keys| {
      assert keys[..j] == keys;
    } else if keys[j] in keys[..j] {
      var k :| 0 <= k < j && keys[..j][k] == keys[j];
      assert !Distinct(keys);
    } else {
      assert keys[..j + 1] == keys[..j] + [keys[j]];
      CeremonyErrorMeaning(c, e, pinned, j + 1);
      if CeremonySigOk(c, e, pinned, e.genesisCeremony[j]) {
        assert CeremonyError(c, e, pinned, j) == CeremonyError(c, e, pinned, j + 1);
      } else {
        assert CeremonyError(c, e, pinned, j).Some?;
      }
    }
  }

  lemma {:induction false} SignerErrorMeaning(c: Primitives, prev: Epoch, e: Epoch, j: nat)
    requires j <= |e.transitionSigners| && |e.transitionSig| == |e.transitionSigners| * SIGNATURE_SIZE
    requires Distinct(e.transitionSigners[..j])
    ensures SignerError(c, prev, e, j).None?
       <==> Distinct(e.transitionSigners) && forall k :: j <= k < |e.transitionSigners| ==> SignedBySlot(c, prev, e, k)
    decreases |e.transitionSigners| - j
  {
    hide TransitionMessage, SignatureAt;
    var s := e.transitionSigners;
    if j == |s| {
      assert s[..j] == s;
    } else if s[j] in s[..j] {
      var k :| 0 <= k < j && s[..j][k] == s[j];
      assert !Distinct(s);
    } else {
      assert s[..j + 1] == s[..j] + [s[j]];
      SignerErrorMeaning(c, prev, e, j + 1);
      if SignedBySlot(c, prev, e, j) {
        assert SignerError(c, prev, e, j) == SignerError(c, prev, e, j + 1);
      } else {
        assert SignerError(c, prev, e, j).Some?;
      }
    }
  }

  lemma {:induction false} EpochErrorMeaning(c: Primitives, epochs: seq<Epoch>, i: nat, pinned: Option<seq<Bytes>>)
    requires i < |epochs|
    ensures EpochError(c, epochs, i, pinned).None? <==> EpochOk(c, epochs, i, pinned)
  {
    hide GenesisMessage, TransitionMessage, HashOf, EmergencyError, EmergencyOk, SignedBySlot, CeremonySigOk;
    if i == 0 {
      CeremonyErrorMeaning(c, epochs[0], pinned, 0);
    } else {
      EmergencyErrorMeaning(c, epochs[i]);
      if |epochs[i].transitionSig| == |epochs[i].transitionSigners| * SIGNATURE_SIZE {
        SignerErrorMeaning(c, epochs[i - 1], epochs[i], 0);
      }
    }
  }

  lemma {:induction false} ReplayMeaning(c: Primitives, epochs: seq<Epoch>, i: nat, pinned: Option<seq<Bytes>>)
    requires i <= |epochs|
    ensures Replay(c, epochs, i, pinned).0.None? <==> forall m :: i <= m < |epochs| ==> EpochOk(c, epochs, m, pinned)
    decreases |epochs| - i
  {
    hide EpochError, EpochOk;
    if i < |epochs| {
      EpochErrorMeaning(c, epochs, i, pinned);
      ReplayMeaning(c, epochs, i + 1, pinned);
    }
  }

  /** The replay accepts exactly the chains all of whose epochs are properly linked and endorsed. */
  lemma {:induction false} AcceptedIff(c: Primitives, epochs: seq<Epoch>, pinned: Option<seq<Bytes>>)
    ensures Accepted(c, epochs, pinned)
       <==> epochs != [] && forall i :: 0 <= i < |epochs| ==> EpochOk(c, epochs, i, pinned)
  {
    hide EpochOk;
    ReplayMeaning(c, epochs, 0, pinned);
  }
}
