/**
 Quorum envelope encryption: a data key sealed to the host's silicon key and, by Shamir shares, to a roster
 of witnesses; recovery and re-sealing to a new host and roster.

 NaCl box and the AEAD are ideal: a ciphertext is the record of how it was made, and opens for exactly that.
 All random values are inputs.
 */
module Envelope {
  import opened Combinatorics
  import opened Encoding
  import opened Gf256
  import opened Polynomials
  import opened Shamir
  import opened Wrappers

  const DATA_KEY_BYTES := 32

  type Dek = k: seq<bv8> | |k| == 32 witness seq(32, i => 0)

  datatype PrivateKey = PrivateKey(seed: nat)
  datatype PublicKey = PublicKey(owner: PrivateKey)

  function Public(priv: PrivateKey): PublicKey { PublicKey(priv) }

  /** NaCl box output together with the ephemeral key and nonce that travel beside it. */
  datatype Box = Box(ephemeralPub: PublicKey, nonce: nat, ciphertext: BoxCiphertext)
  datatype BoxCiphertext = BoxCiphertext(recipient: PublicKey, sender: PublicKey, nonce: nat, payload: seq<bv8>)

  function BoxSeal(payload: seq<bv8>, recipient: PublicKey, ephemeral: PrivateKey, nonce: nat): Box {
    Box(Public(ephemeral), nonce, BoxCiphertext(recipient, Public(ephemeral), nonce, payload))
  }

  function BoxOpen(box: Box, priv: PrivateKey): Option<seq<bv8>> {
    var ct := box.ciphertext;
    if ct.recipient == Public(priv) && ct.sender == box.ephemeralPub && ct.nonce == box.nonce then Some(ct.payload)
    else None
  }

  datatype Sealed = Sealed(key: Dek, nonce: nat, ad: Bytes, plaintext: Bytes)

  function AeadOpen(key: Dek, nonce: nat, ct: Sealed, ad: Bytes): Option<Bytes> {
    if ct.key == key && ct.nonce == nonce && ct.ad == ad then Some(ct.plaintext) else None
  }

  datatype WitnessPubkey = WitnessPubkey(index: int, pubkey: PublicKey)
  datatype WitnessShare = WitnessShare(witnessIndex: int, box: Box)

  datatype SealedEnvelope = SealedEnvelope(
    dataNonce: nat,
    data: Sealed,
    siliconWrap: Option<Box>,
    witnessShares: seq<WitnessShare>,
    threshold: int,
    rosterSize: int)

  datatype EnvelopeError =
    | ThresholdOutOfRange
    | SplitFailed(cause: ShamirError)
    | NilSiliconWrap
    | UnwrapSilicon
    | AeadFailed
    | NotEnoughShares
    | CombineFailed(cause: ShamirError)
    | DekSize
    | WitnessUnbox
    | ShareTooShort

  /** Everything random in one sealing: polynomial coefficients, ephemeral keys and nonces. */
  datatype WrapRandomness = WrapRandomness(
    draw: (nat, nat) -> bv8,
    siliconEphemeral: PrivateKey,
    siliconNonce: nat,
    shareEphemeral: nat -> PrivateKey,
    shareNonce: nat -> nat)

  /** The authenticated data: roster size and threshold. */
  function EnvelopeAD(rosterSize: int, threshold: int): Bytes {
    U64(rosterSize) + U64(threshold)
  }

  lemma {:induction false} EnvelopeADInjective(n: int, k: int, n': int, k': int)
    requires 0 <= n < TWO_64 && 0 <= k < TWO_64 && 0 <= n' < TWO_64 && 0 <= k' < TWO_64
    requires EnvelopeAD(n, k) == EnvelopeAD(n', k')
    ensures n == n' && k == k'
  {
    hide BigEndian;
    SplitEqual(U64(n), U64(k), U64(n'), U64(k'));
    FixedWidthInjective(n, n');
    FixedWidthInjective(k, k');
  }

  // Wrapping a data key: the part Seal and ReSeal have in common

  function ShareBody(share: Share): seq<bv8> { [share.index] + share.bytes }

  function WrapShares(shares: seq<Share>, witnesses: seq<WitnessPubkey>, rnd: WrapRandomness): (r: seq<WitnessShare>)
    requires |shares| == |witnesses|
    ensures |r| == |witnesses|
  {
    seq(|witnesses|, i requires 0 <= i < |witnesses| =>
      WitnessShare(witnesses[i].index,
                   BoxSeal(ShareBody(shares[i]), witnesses[i].pubkey, rnd.shareEphemeral(i), rnd.shareNonce(i))))
  }

  function Wrapped(dek: Dek, dataNonce: nat, data: Sealed, siliconPub: PublicKey, witnesses: seq<WitnessPubkey>,
                   threshold: int, rnd: WrapRandomness)
    : Result<SealedEnvelope, EnvelopeError>
  {
    var n := |witnesses|;
    if threshold < 1 || threshold > n then Err(ThresholdOutOfRange)
    else match SplitError(dek, n, threshold)
         case Some(e) => Err(SplitFailed(e))
         case None =>
           var shares := SharesOf(DrawnPolys(dek, threshold, rnd.draw), n);
           Ok(SealedEnvelope(dataNonce, data,
                             Some(BoxSeal(dek, siliconPub, rnd.siliconEphemeral, rnd.siliconNonce)),
                             WrapShares(shares, witnesses, rnd), threshold, n))
  }

  method BoxShares(shares: seq<Share>, witnesses: seq<WitnessPubkey>, rnd: WrapRandomness)
    returns (wShares: seq<WitnessShare>)
    requires |shares| == |witnesses|
    ensures wShares == WrapShares(shares, witnesses, rnd)
  {
    wShares := [];
    for i := 0 to |witnesses|
      invariant wShares == WrapShares(shares, witnesses, rnd)[..i]
    {
      var body := [shares[i].index] + shares[i].bytes;
      var wrap := BoxSeal(body, witnesses[i].pubkey, rnd.shareEphemeral(i), rnd.shareNonce(i));
      wShares := wShares + [WitnessShare(witnesses[i].index, wrap)];
    }
  }

  method Seal(t: Tables, plaintext: Bytes, siliconPub: PublicKey, witnesses: seq<WitnessPubkey>, threshold: int,
              dek: Dek, nonce: nat, rnd: WrapRandomness)
    returns (r: Result<SealedEnvelope, EnvelopeError>)
    requires t.Valid()
    ensures r == Wrapped(dek, nonce, Sealed(dek, nonce, EnvelopeAD(|witnesses|, threshold), plaintext),
                         siliconPub, witnesses, threshold, rnd)
  {
    if threshold < 1 || threshold > |witnesses| {
      return Err(ThresholdOutOfRange);
    }
    var dataCT := Sealed(dek, nonce, EnvelopeAD(|witnesses|, threshold), plaintext);
    var siliconWrap := BoxSeal(dek, siliconPub, rnd.siliconEphemeral, rnd.siliconNonce);
    var split := Split(t, dek, |witnesses|, threshold, rnd.draw);
    if split.Err? {
      return Err(SplitFailed(split.error));
    }
    var wShares := BoxShares(split.value, witnesses, rnd);
    r := Ok(SealedEnvelope(nonce, dataCT, Some(siliconWrap), wShares, threshold, |witnesses|));
  }

  method ReSeal(t: Tables, prior: SealedEnvelope, recoveredDEK: seq<bv8>, newSiliconPub: PublicKey,
                newWitnesses: seq<WitnessPubkey>, newThreshold: int, rnd: WrapRandomness)
    returns (r: Result<SealedEnvelope, EnvelopeError>)
    requires t.Valid()
    ensures r == ReSealed(prior, recoveredDEK, newSiliconPub, newWitnesses, newThreshold, rnd)
  {
    if |recoveredDEK| != DATA_KEY_BYTES {
      return Err(DekSize);
    }
    if newThreshold < 1 || newThreshold > |newWitnesses| {
      return Err(ThresholdOutOfRange);
    }
    var siliconWrap := BoxSeal(recoveredDEK, newSiliconPub, rnd.siliconEphemeral, rnd.siliconNonce);
    var split := Split(t, recoveredDEK, |newWitnesses|, newThreshold, rnd.draw);
    if split.Err? {
      return Err(SplitFailed(split.error));
    }
    var wShares := BoxShares(split.value, newWitnesses, rnd);
    r := Ok(SealedEnvelope(prior.dataNonce, prior.data, Some(siliconWrap), wShares, newThreshold, |newWitnesses|));
  }

  function ReSealed(prior: SealedEnvelope, recoveredDEK: seq<bv8>, newSiliconPub: PublicKey,
                    newWitnesses: seq<WitnessPubkey>, newThreshold: int, rnd: WrapRandomness)
    : Result<SealedEnvelope, EnvelopeError>
  {
    if |recoveredDEK| != DATA_KEY_BYTES then Err(DekSize)
    else Wrapped(recoveredDEK, prior.dataNonce, prior.data, newSiliconPub, newWitnesses, newThreshold, rnd)
  }

  // Opening

  function OpenSilicon(env: SealedEnvelope, siliconPriv: PrivateKey): Result<Bytes, EnvelopeError> {
    if env.siliconWrap.None? then Err(NilSiliconWrap)
    else match BoxOpen(env.siliconWrap.value, siliconPriv)
         case None => Err(UnwrapSilicon)
         case Some(dek) =>
           if |dek| != DATA_KEY_BYTES then Err(AeadFailed)
           else match AeadOpen(dek, env.dataNonce, env.data, EnvelopeAD(env.rosterSize, env.threshold))
                case None => Err(AeadFailed)
                case Some(plaintext) => Ok(plaintext)
  }

  function WitnessUnboxShare(ws: WitnessShare, witnessPriv: PrivateKey): Result<Share, EnvelopeError> {
    match BoxOpen(ws.box, witnessPriv)
    case None => Err(WitnessUnbox)
    case Some(inner) => if |inner| < 2 then Err(ShareTooShort) else Ok(Share(inner[0], inner[1..]))
  }

  ghost function RecoveredDEK(env: SealedEnvelope, shares: seq<Share>): Result<seq<bv8>, EnvelopeError> {
    if |shares| < env.threshold then Err(NotEnoughShares)
    else match Combined(shares, env.threshold)
         case Err(e) => Err(CombineFailed(e))
         case Ok(dek) => if |dek| != DATA_KEY_BYTES then Err(DekSize) else Ok(dek)
  }

  method RecoverDEK(t: Tables, env: SealedEnvelope, decryptedShares: seq<Share>)
    returns (r: Result<seq<bv8>, EnvelopeError>)
    requires t.Valid()
    ensures r == RecoveredDEK(env, decryptedShares)
  {
    if |decryptedShares| < env.threshold {
      return Err(NotEnoughShares);
    }
    var dek := Combine(t, decryptedShares, env.threshold);
    if dek.Err? {
      return Err(CombineFailed(dek.error));
    }
    if |dek.value| != DATA_KEY_BYTES {
      return Err(DekSize);
    }
    r := Ok(dek.value);
  }

  // Recovery across generations of hosts and rosters

  /** A sealed envelope with the private keys of the host and the witnesses it was wrapped for. */
  datatype Generation = Generation(env: SealedEnvelope, host: PrivateKey, witnesses: seq<PrivateKey>)

  /** One recovery: which witness slots answer, in which order, and whom the key is re-sealed to. */
  datatype Round = Round(
    answering: seq<nat>,
    newHost: PrivateKey,
    newWitnesses: seq<PrivateKey>,
    newThreshold: int,
    rnd: WrapRandomness)

  function Roster(privs: seq<PrivateKey>): (r: seq<WitnessPubkey>)
    ensures |r| == |privs|
  {
    seq(|privs|, i requires 0 <= i < |privs| => WitnessPubkey(i, Public(privs[i])))
  }

  /** Each answering witness opens its own share; the first failure ends the round. */
  function Unbox(g: Generation, answering: seq<nat>): Result<seq<Share>, EnvelopeError> {
    if answering == [] then Ok([])
    else
      var i := answering[|answering| - 1];
      match Unbox(g, answering[..|answering| - 1])
      case Err(e) => Err(e)
      case Ok(shares) =>
        if i < |g.env.witnessShares| && i < |g.witnesses| then
          match WitnessUnboxShare(g.env.witnessShares[i], g.witnesses[i])
          case Err(e) => Err(e)
          case Ok(share) => Ok(shares + [share])
        else Err(WitnessUnbox)
  }

  ghost function Recover(g: Generation, round: Round): Result<Generation, EnvelopeError> {
    match Unbox(g, round.answering)
    case Err(e) => Err(e)
    case Ok(shares) =>
      match RecoveredDEK(g.env, shares)
      case Err(e) => Err(e)
      case Ok(dek) =>
        match ReSealed(g.env, dek, Public(round.newHost), Roster(round.newWitnesses), round.newThreshold, round.rnd)
        case Err(e) => Err(e)
        case Ok(env) => Ok(Generation(env, round.newHost, round.newWitnesses))
  }

  ghost function RecoverAll(g: Generation, rounds: seq<Round>): Result<Generation, EnvelopeError> {
    if rounds == [] then Ok(g)
    else match RecoverAll(g, rounds[..|rounds| - 1])
         case Err(e) => Err(e)
         case Ok(last) => Recover(last, rounds[|rounds| - 1])
  }

  predicate SizesAllowed(n: int, k: int) { 1 <= k <= n <= 255 }

  /** At least k slots of a roster of n answer, the first k of them different. */
  predicate Quorate(answering: seq<nat>, n: int, k: int) {
    && 0 <= k <= |answering|
    && Distinct(answering[..k])
    && forall i :: 0 <= i < |answering| ==> answering[i] < n
  }

  /** Every round is answered by a quorum of the roster in force and names admissible new sizes. */
  predicate RoundsPossible(rounds: seq<Round>, n: int, k: int)
    decreases |rounds|
  {
    rounds == [] ||
    var round := rounds[0];
    && Quorate(round.answering, n, k)
    && SizesAllowed(|round.newWitnesses|, round.newThreshold)
    && RoundsPossible(rounds[1..], |round.newWitnesses|, round.newThreshold)
  }

  /** The generation wraps dek for its host and roster, around the given ciphertext. */
  ghost predicate Holds(g: Generation, dek: Dek, nonce: nat, data: Sealed, rnd: WrapRandomness) {
    && Wrapped(dek, nonce, data, Public(g.host), Roster(g.witnesses), g.env.threshold, rnd) == Ok(g.env)
    && SizesAllowed(|g.witnesses|, g.env.threshold)
  }

  /** Each witness opens its own box to its own share. */
  lemma {:induction false} UnboxSlot(g: Generation, dek: Dek, nonce: nat, data: Sealed, rnd: WrapRandomness, i: nat)
    requires Holds(g, dek, nonce, data, rnd) && i < |g.witnesses|
    ensures i < |g.env.witnessShares|
    ensures WitnessUnboxShare(g.env.witnessShares[i], g.witnesses[i])
         == Ok(SharesOf(DrawnPolys(dek, g.env.threshold, rnd.draw), |g.witnesses|)[i])
  {
    hide Eval, FromIndex, Index;
    var share := SharesOf(DrawnPolys(dek, g.env.threshold, rnd.draw), |g.witnesses|)[i];
    var body := ShareBody(share);
    assert body[1..] == share.bytes && |share.bytes| == |dek|;
    assert g.env.witnessShares[i].box
        == BoxSeal(body, Public(g.witnesses[i]), rnd.shareEphemeral(i), rnd.shareNonce(i));
    assert BoxOpen(g.env.witnessShares[i].box, g.witnesses[i]) == Some(body);
  }

  lemma {:induction false} UnboxYieldsPick(g: Generation, dek: Dek, nonce: nat, data: Sealed, rnd: WrapRandomness,
                                           answering: seq<nat>)
    requires Holds(g, dek, nonce, data, rnd)
    requires forall i :: 0 <= i < |answering| ==> answering[i] < |g.witnesses|
    ensures Unbox(g, answering)
         == Ok(Pick(SharesOf(DrawnPolys(dek, g.env.threshold, rnd.draw), |g.witnesses|), answering))
  {
    hide Holds, SharesOf, DrawnPolys, WitnessUnboxShare;
    HoldsSizes(g, dek, nonce, data, rnd);
    if answering != [] {
      var shares := SharesOf(DrawnPolys(dek, g.env.threshold, rnd.draw), |g.witnesses|);
      var front, i := answering[..|answering| - 1], answering[|answering| - 1];
      UnboxYieldsPick(g, dek, nonce, data, rnd, front);
      UnboxSlot(g, dek, nonce, data, rnd, i);
      assert Pick(shares, answering) == Pick(shares, front) + [shares[i]];
    }
  }

  lemma {:induction false} HoldsSizes(g: Generation, dek: Dek, nonce: nat, data: Sealed, rnd: WrapRandomness)
    requires Holds(g, dek, nonce, data, rnd)
    ensures SizesAllowed(|g.witnesses|, g.env.threshold)
  {
  }

  lemma {:induction false} RecoverKeepsKey(g: Generation, dek: Dek, nonce: nat, data: Sealed, rnd: WrapRandomness,
                                           round: Round)
    requires Holds(g, dek, nonce, data, rnd)
    requires Quorate(round.answering, |g.witnesses|, g.env.threshold)
    requires SizesAllowed(|round.newWitnesses|, round.newThreshold)
    ensures Recover(g, round).Ok?
    ensures var next := Recover(g, round).value;
            Holds(next, dek, nonce, data, round.rnd)
            && next.witnesses == round.newWitnesses && next.env.threshold == round.newThreshold
  {
    hide SharesOf, DrawnPolys, Combined;
    UnboxYieldsPick(g, dek, nonce, data, rnd, round.answering);
    SplitThenCombine(dek, |g.witnesses|, g.env.threshold, rnd.draw, round.answering);
  }

  lemma {:induction false} UnboxNeedsSlots(g: Generation, answering: seq<nat>)
    requires Unbox(g, answering).Ok?
    ensures forall i :: 0 <= i < |answering| ==> answering[i] < |g.witnesses|
  {
    hide WitnessUnboxShare;
    if answering != [] {
      UnboxNeedsSlots(g, answering[..|answering| - 1]);
    }
  }

  lemma {:induction false} WrappedNeedsSizes(dek: Dek, nonce: nat, data: Sealed, host: PublicKey,
                                             witnesses: seq<WitnessPubkey>, threshold: int, rnd: WrapRandomness)
    requires Wrapped(dek, nonce, data, host, witnesses, threshold, rnd).Ok?
    ensures SizesAllowed(|witnesses|, threshold)
  {
    hide SharesOf, DrawnPolys;
  }

  lemma {:induction false} RecoverNeedsQuorum(g: Generation, dek: Dek, nonce: nat, data: Sealed, rnd: WrapRandomness,
                                              round: Round)
    requires Holds(g, dek, nonce, data, rnd) && Recover(g, round).Ok?
    ensures Quorate(round.answering, |g.witnesses|, g.env.threshold)
    ensures SizesAllowed(|round.newWitnesses|, round.newThreshold)
  {
    hide Holds, SharesOf, DrawnPolys, Combined, Wrapped;
    HoldsSizes(g, dek, nonce, data, rnd);
    UnboxNeedsSlots(g, round.answering);
    UnboxYieldsPick(g, dek, nonce, data, rnd, round.answering);
    var k := g.env.threshold;
    var shares := SharesOf(DrawnPolys(dek, k, rnd.draw), |g.witnesses|);
    CombinedNeedsDistinct(shares, round.answering, k);
    var recovered := Combined(Pick(shares, round.answering), k).value;
    WrappedNeedsSizes(recovered, g.env.dataNonce, g.env.data, Public(round.newHost), Roster(round.newWitnesses),
                      round.newThreshold, round.rnd);
  }

  /** A round goes through exactly when a quorum answers and the new sizes are admissible. */
  lemma {:induction false} RecoverIff(g: Generation, dek: Dek, nonce: nat, data: Sealed, rnd: WrapRandomness,
                                      round: Round)
    requires Holds(g, dek, nonce, data, rnd)
    ensures Recover(g, round).Ok? <==>
              (&& Quorate(round.answering, |g.witnesses|, g.env.threshold)
               && SizesAllowed(|round.newWitnesses|, round.newThreshold))
  {
    hide Holds, Recover, Quorate, SizesAllowed;
    if && Quorate(round.answering, |g.witnesses|, g.env.threshold)
       && SizesAllowed(|round.newWitnesses|, round.newThreshold)
    {
      RecoverKeepsKey(g, dek, nonce, data, rnd, round);
    } else if Recover(g, round).Ok? {
      RecoverNeedsQuorum(g, dek, nonce, data, rnd, round);
    }
  }

  /** Combining refuses a share presented twice among the first k. */
  lemma {:induction false} CombinedNeedsDistinct(shares: seq<Share>, positions: seq<nat>, k: nat)
    requires forall i :: 0 <= i < |positions| ==> positions[i] < |shares|
    requires Combined(Pick(shares, positions), k).Ok?
    ensures 1 <= k <= |positions| && Distinct(positions[..k])
  {
    hide InterpolatedSecret;
    var xs := Indices(Pick(shares, positions)[..k]);
    IndexErrorMeaning(xs, 0);
    forall i, j | 0 <= i < j < k ensures positions[..k][i] != positions[..k][j] {
      assert xs[i] != xs[j];
    }
  }

  lemma {:induction false} RecoverAllKeepsKey(g: Generation, dek: Dek, nonce: nat, data: Sealed, rnd: WrapRandomness,
                                              rounds: seq<Round>)
    returns (last: Generation, lastRnd: WrapRandomness)
    requires Holds(g, dek, nonce, data, rnd)
    requires RoundsPossible(rounds, |g.witnesses|, g.env.threshold)
    ensures RecoverAll(g, rounds) == Ok(last)
    ensures Holds(last, dek, nonce, data, lastRnd)
    decreases |rounds|
  {
    hide Holds, Recover, SizesAllowed, Quorate;
    if rounds == [] {
      last, lastRnd := g, rnd;
    } else {
      RecoverKeepsKey(g, dek, nonce, data, rnd, rounds[0]);
      last, lastRnd := RecoverAllKeepsKey(Recover(g, rounds[0]).value, dek, nonce, data, rounds[0].rnd, rounds[1..]);
      RecoverAllFirst(g, rounds);
    }
  }

  lemma {:induction false} RecoverAllFirst(g: Generation, rounds: seq<Round>)
    requires rounds != [] && Recover(g, rounds[0]).Ok?
    ensures RecoverAll(g, rounds) == RecoverAll(Recover(g, rounds[0]).value, rounds[1..])
    decreases |rounds|
  {
    hide Recover;
    if |rounds| == 1 {
      assert rounds[..0] == [];
      assert RecoverAll(g, rounds[..0]) == Ok(g);
    } else {
      RecoverAllFirst(g, rounds[..|rounds| - 1]);
      assert rounds[..|rounds| - 1][1..] == rounds[1..][..|rounds| - 2];
    }
  }

  /** Exactly the possible sequences of rounds go through. */
  lemma {:induction false} RecoverAllIff(g: Generation, dek: Dek, nonce: nat, data: Sealed, rnd: WrapRandomness,
                                         rounds: seq<Round>)
    requires Holds(g, dek, nonce, data, rnd)
    ensures RecoverAll(g, rounds).Ok? <==> RoundsPossible(rounds, |g.witnesses|, g.env.threshold)
    decreases |rounds|
  {
    hide Holds, Recover, SizesAllowed, Quorate;
    if rounds != [] {
      RecoverIff(g, dek, nonce, data, rnd, rounds[0]);
      if Recover(g, rounds[0]).Ok? {
        RecoverKeepsKey(g, dek, nonce, data, rnd, rounds[0]);
        RecoverAllIff(Recover(g, rounds[0]).value, dek, nonce, data, rounds[0].rnd, rounds[1..]);
        RecoverAllFirst(g, rounds);
      } else {
        FirstRoundFails(g, rounds);
      }
    }
  }

  lemma {:induction false} FirstRoundFails(g: Generation, rounds: seq<Round>)
    requires rounds != [] && Recover(g, rounds[0]).Err?
    ensures RecoverAll(g, rounds).Err?
  {
    hide Recover;
    if |rounds| == 1 {
      assert RecoverAll(g, rounds[..0]) == Ok(g);
    } else {
      FirstRoundFails(g, rounds[..|rounds| - 1]);
    }
  }

  /**
   Recovery never loses the data key, whatever the roster sizes on the way. The newest host reads the
   plaintext if and only if its roster size and threshold are those of the original sealing: the copied
   ciphertext stays bound to them.
   */
  lemma {:induction false} NewestHostOpens(plaintext: Bytes, dek: Dek, nonce: nat, host: PrivateKey,
                                           witnesses: seq<PrivateKey>, threshold: int, rnd: WrapRandomness,
                                           rounds: seq<Round>)
    returns (first: SealedEnvelope, last: Generation)
    requires SizesAllowed(|witnesses|, threshold)
    requires RoundsPossible(rounds, |witnesses|, threshold)
    ensures Wrapped(dek, nonce, Sealed(dek, nonce, EnvelopeAD(|witnesses|, threshold), plaintext),
                    Public(host), Roster(witnesses), threshold, rnd) == Ok(first)
    ensures RecoverAll(Generation(first, host, witnesses), rounds) == Ok(last)
    ensures OpenSilicon(last.env, last.host)
         == if last.env.rosterSize == |witnesses| && last.env.threshold == threshold then Ok(plaintext)
            else Err(AeadFailed)
  {
    hide SharesOf, DrawnPolys, EnvelopeAD;
    var data := Sealed(dek, nonce, EnvelopeAD(|witnesses|, threshold), plaintext);
    first := Wrapped(dek, nonce, data, Public(host), Roster(witnesses), threshold, rnd).value;
    var lastRnd;
    last, lastRnd := RecoverAllKeepsKey(Generation(first, host, witnesses), dek, nonce, data, rnd, rounds);
    if EnvelopeAD(last.env.rosterSize, last.env.threshold) == EnvelopeAD(|witnesses|, threshold) {
      EnvelopeADInjective(last.env.rosterSize, last.env.threshold, |witnesses|, threshold);
    }
  }

  // Who can open what

  /** What an envelope records of its wrapping. */
  lemma {:induction false} WrappedContents(dek: Dek, nonce: nat, data: Sealed, host: PublicKey,
                                           witnesses: seq<WitnessPubkey>, threshold: int, rnd: WrapRandomness)
    ensures var r := Wrapped(dek, nonce, data, host, witnesses, threshold, rnd);
            && (r.Ok? <==> SizesAllowed(|witnesses|, threshold))
            && (!(1 <= threshold <= |witnesses|) ==> r == Err(ThresholdOutOfRange))
            && (r.Ok? ==>
                  && r.value.dataNonce == nonce && r.value.data == data
                  && r.value.threshold == threshold && r.value.rosterSize == |witnesses| == |r.value.witnessShares|
                  && forall i :: 0 <= i < |witnesses| ==>
                       && r.value.witnessShares[i].witnessIndex == witnesses[i].index
                       && r.value.witnessShares[i].box.ciphertext.recipient == witnesses[i].pubkey)
  {
    hide SharesOf, DrawnPolys, SplitError, WrapShares;
    SplitErrorMeaning(dek, |witnesses|, threshold);
    if SizesAllowed(|witnesses|, threshold) {
      WrappedShareContents(SharesOf(DrawnPolys(dek, threshold, rnd.draw), |witnesses|), witnesses, rnd);
    }
  }

  lemma {:induction false} WrappedShareContents(shares: seq<Share>, witnesses: seq<WitnessPubkey>, rnd: WrapRandomness)
    requires |shares| == |witnesses|
    ensures forall i :: 0 <= i < |witnesses| ==>
              && WrapShares(shares, witnesses, rnd)[i].witnessIndex == witnesses[i].index
              && WrapShares(shares, witnesses, rnd)[i].box.ciphertext.recipient == witnesses[i].pubkey
  {
    hide ShareBody;
    forall i | 0 <= i < |witnesses|
      ensures WrapShares(shares, witnesses, rnd)[i].witnessIndex == witnesses[i].index
      ensures WrapShares(shares, witnesses, rnd)[i].box.ciphertext.recipient == witnesses[i].pubkey
    {
      assert WrapShares(shares, witnesses, rnd)[i].box
          == BoxSeal(ShareBody(shares[i]), witnesses[i].pubkey, rnd.shareEphemeral(i), rnd.shareNonce(i));
    }
  }

  /** A host reads the plaintext exactly when key wrap, sizes and ciphertext all fit together. */
  lemma {:induction false} OpenSiliconIff(env: SealedEnvelope, priv: PrivateKey, plaintext: Bytes)
    ensures OpenSilicon(env, priv) == Ok(plaintext) <==>
              (&& env.siliconWrap.Some?
               && var box := env.siliconWrap.value;
               && box.ciphertext.recipient == PublicKey(priv)
               && box.ciphertext.sender == box.ephemeralPub && box.ciphertext.nonce == box.nonce
               && env.data.key == box.ciphertext.payload && env.data.nonce == env.dataNonce
               && env.data.ad == U64(env.rosterSize) + U64(env.threshold) && env.data.plaintext == plaintext)
  {
    hide U64;
  }

  /** Only the host an envelope was wrapped for gets past the key wrap. */
  lemma {:induction false} OtherHostRefused(g: Generation, dek: Dek, nonce: nat, data: Sealed, rnd: WrapRandomness,
                                            other: PrivateKey)
    requires Holds(g, dek, nonce, data, rnd) && other != g.host
    ensures OpenSilicon(g.env, other) == Err(UnwrapSilicon)
  {
    hide SharesOf, DrawnPolys, WrapShares, EnvelopeAD;
  }

  /** Only the witness a share was boxed for opens it. */
  lemma {:induction false} OtherWitnessRefused(g: Generation, dek: Dek, nonce: nat, data: Sealed, rnd: WrapRandomness,
                                               i: nat, other: PrivateKey)
    requires Holds(g, dek, nonce, data, rnd) && i < |g.witnesses| && other != g.witnesses[i]
    ensures i < |g.env.witnessShares| && WitnessUnboxShare(g.env.witnessShares[i], other) == Err(WitnessUnbox)
  {
    hide Wrapped;
    WrappedContents(dek, nonce, data, Public(g.host), Roster(g.witnesses), g.env.threshold, rnd);
    assert g.env.witnessShares[i].box.ciphertext.recipient == Public(g.witnesses[i]);
  }

  lemma {:induction false} UnboxShareIff(ws: WitnessShare, priv: PrivateKey, share: Share)
    ensures WitnessUnboxShare(ws, priv) == Ok(share) <==>
              (&& ws.box.ciphertext.recipient == PublicKey(priv)
               && ws.box.ciphertext.sender == ws.box.ephemeralPub && ws.box.ciphertext.nonce == ws.box.nonce
               && share.bytes != [] && ws.box.ciphertext.payload == [share.index] + share.bytes)
  {
    var inner := ws.box.ciphertext.payload;
    if |inner| >= 2 {
      assert inner == [inner[0]] + inner[1..];
    }
    assert ([share.index] + share.bytes)[1..] == share.bytes;
  }

  /** Recovery yields a key exactly from a quorum of well-formed shares of 32 bytes. */
  lemma {:induction false} RecoveredIff(env: SealedEnvelope, shares: seq<Share>)
    ensures RecoveredDEK(env, shares).Ok? <==>
              (&& 1 <= env.threshold <= |shares| && SameLengths(shares[..env.threshold])
               && |shares[0].bytes| == 32
               && Distinct(Indices(shares[..env.threshold])) && 0 !in Indices(shares[..env.threshold]))
  {
    hide LagrangeSum;
    CombinedIff(shares, env.threshold);
  }

  /**
   One witness short of a quorum nothing is learnt: an envelope around any other data key, for the same host and
   roster, would have shown the same witnesses the same shares, under some drawing of the coefficients.
   */
  lemma {:induction false} QuorumMinusOneLearnsNothing(g: Generation, dek: Dek, nonce: nat, data: Sealed,
                                                       rnd: WrapRandomness, answering: seq<nat>, other: Dek)
    returns (twin: Generation, twinRnd: WrapRandomness)
    requires Holds(g, dek, nonce, data, rnd)
    requires |answering| == g.env.threshold - 1 && Distinct(answering)
    requires forall i :: 0 <= i < |answering| ==> answering[i] < |g.witnesses|
    ensures Holds(twin, other, nonce, data, twinRnd)
    ensures twin.host == g.host && twin.witnesses == g.witnesses && twin.env.threshold == g.env.threshold
    ensures Unbox(g, answering).Ok? && Unbox(twin, answering) == Unbox(g, answering)
  {
    hide SharesOf, DrawnPolys, Unbox, WrapShares;
    HoldsSizes(g, dek, nonce, data, rnd);
    var n, k := |g.witnesses|, g.env.threshold;
    var fake := DrawHidesSecret(dek, n, k, rnd.draw, answering, other);
    twinRnd := rnd.(draw := fake);
    twin := Generation(Wrapped(other, nonce, data, Public(g.host), Roster(g.witnesses), k, twinRnd).value, g.host,
                       g.witnesses);
    UnboxYieldsPick(g, dek, nonce, data, rnd, answering);
    UnboxYieldsPick(twin, other, nonce, data, twinRnd, answering);
  }
}
