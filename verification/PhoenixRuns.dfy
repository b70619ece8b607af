/** Completeness: what operators seal and witnesses attest can be executed, and every such ledger is accepted. */
module PhoenixRuns {
  import opened Combinatorics
  import opened Crypto
  import opened Encoding
  import opened Phoenix
  import opened PhoenixLineage
  import opened Wrappers

  // Operators

  function Publics(c: Primitives, privs: seq<Bytes>): (r: seq<Bytes>)
    ensures |r| == |privs|
  {
    seq(|privs|, i requires 0 <= i < |privs| => c.publicOf(privs[i]))
  }

  /** Enough operators, no two with the same public key, all of them pinned. */
  ghost predicate OperatorsSuffice(c: Primitives, privs: seq<Bytes>, pinned: seq<Bytes>, opThreshold: int) {
    && 1 <= opThreshold <= |privs| && Distinct(Publics(c, privs))
    && forall i :: 0 <= i < |privs| ==> c.publicOf(privs[i]) in pinned
  }

  /** A sealed request verifies exactly when enough different pinned operators sealed it. */
  lemma {:induction false} SealedVerifies(c: Primitives, serviceID: Bytes, newHost: Bytes, oldHost: Bytes,
                                          privs: seq<Bytes>, coolDown: Int64, now: Int64, pinned: seq<Bytes>,
                                          opThreshold: int)
    requires Sound(c) && SealedRequest(c, serviceID, newHost, oldHost, privs, coolDown, now).Ok?
    ensures var r := SealedRequest(c, serviceID, newHost, oldHost, privs, coolDown, now).value;
            OperatorError(c, r, pinned, opThreshold).None? <==> OperatorsSuffice(c, privs, pinned, opThreshold)
  {
    hide U64, Prefixed32, Ascii, REQUEST_HEADER, Milliseconds;
    var r := SealedRequest(c, serviceID, newHost, oldHost, privs, coolDown, now).value;
    var sigs := EffectiveSignatures(r);
    assert sigs == SignaturesBy(c, privs, Canonical(r));
    assert Pubkeys(sigs) == Publics(c, privs);
    OperatorsMeaning(c, r, pinned, opThreshold);
    forall i | 0 <= i < |privs|
      ensures SignerOk(c, sigs[i], Canonical(r), pinned) <==> c.publicOf(privs[i]) in pinned
    {
      assert sigs[i] == OperatorSignature(c.publicOf(privs[i]), c.sign(privs[i], Canonical(r)));
    }
  }

  /** A verifier that only sees the legacy pair of a singly sealed request reaches the same verdict. */
  lemma {:induction false} LegacyPairSuffices(c: Primitives, serviceID: Bytes, newHost: Bytes, oldHost: Bytes,
                                              priv: Bytes, coolDown: Int64, now: Int64, pinned: seq<Bytes>,
                                              opThreshold: int)
    requires Sound(c) && SealedRequest(c, serviceID, newHost, oldHost, [priv], coolDown, now).Ok?
    ensures var r := SealedRequest(c, serviceID, newHost, oldHost, [priv], coolDown, now).value;
            OperatorError(c, r.(operatorSignatures := []), pinned, opThreshold)
            == OperatorError(c, r, pinned, opThreshold)
  {
    hide U64, Prefixed32, Ascii, REQUEST_HEADER, Milliseconds, SignerError;
    var r := SealedRequest(c, serviceID, newHost, oldHost, [priv], coolDown, now).value;
    var legacy := r.(operatorSignatures := []);
    assert Canonical(legacy) == Canonical(r);
    assert EffectiveSignatures(legacy) == EffectiveSignatures(r);
  }

  // Witnesses

  datatype Witness = Witness(index: int, priv: Bytes, now: Int64, minCoolDown: Int64)

  function AttestationsBy(c: Primitives, r: Request, ws: seq<Witness>): (atts: seq<Attestation>)
    ensures |atts| == |ws|
  {
    seq(|ws|, i requires 0 <= i < |ws| => SignedAttestation(c, r, ws[i].index, ws[i].priv, ws[i].now))
  }

  function WitnessIndices(ws: seq<Witness>): (r: seq<int>)
    ensures |r| == |ws|
  {
    seq(|ws|, i requires 0 <= i < |ws| => ws[i].index)
  }

  /** Signed attestations execute exactly when enough different witnesses observed the cool-down, and it is over. */
  lemma {:induction false} AttestedExecutes(c: Primitives, r: Request, ws: seq<Witness>, threshold: int, now: Int64)
    requires Sound(c)
    ensures ExecuteError(c, r, AttestationsBy(c, r, ws), threshold, now).None? <==>
              (&& 1 <= threshold <= |ws| && now >= EarliestExecute(r) && Distinct(WitnessIndices(ws))
               && forall i :: 0 <= i < |ws| ==> ws[i].now >= EarliestExecute(r))
  {
    hide AttestationPreimage, EarliestExecute;
    var atts := AttestationsBy(c, r, ws);
    ExecuteMeaning(c, r, atts, threshold, now);
    assert Indices(atts) == WitnessIndices(ws);
    forall i | 0 <= i < |ws| ensures AttestationOk(c, r, atts[i]) <==> ws[i].now >= EarliestExecute(r) {
      assert atts[i] == SignedAttestation(c, r, ws[i].index, ws[i].priv, ws[i].now);
    }
  }

  /** Attestations made for one rebirth execute no other. */
  lemma {:induction false} AttestedForOneRebirth(c: Primitives, r: Request, ws: seq<Witness>, s: Request,
                                                 threshold: int, now: Int64)
    requires Sound(c) && OneDigest(c) && Encodable(r) && Encodable(s)
    requires ExecuteError(c, s, AttestationsBy(c, r, ws), threshold, now).None?
    ensures |ws| >= 1 && (SameRebirth(r, s) || Collide(c, r, ws[0].now, s, ws[0].now))
  {
    hide AttestationPreimage, EarliestExecute, ExecuteError, SameRebirth, Collide;
    var atts := AttestationsBy(c, r, ws);
    ExecuteMeaning(c, s, atts, threshold, now);
    assert AttestationOk(c, s, atts[0]);
    var a := SignedAttestation(c, r, ws[0].index, ws[0].priv, ws[0].now);
    assert atts[0] == a && a.observedAtMs == ws[0].now;
    assert c.sha3(AttestationPreimage(r, a.observedAtMs)) == c.sha3(AttestationPreimage(s, a.observedAtMs));
    AttestationBinds(c, r, ws[0].now, s, ws[0].now);
  }

  /** A witness attests exactly from the request on until five cool-downs later, given operators and floor. */
  lemma {:induction false} AttestIff(c: Primitives, r: Request, pinned: seq<Bytes>, opThreshold: int, now: Int64,
                                     minCoolDown: Int64)
    ensures AttestError(c, r, pinned, opThreshold, now, minCoolDown).None? <==>
              (&& OperatorError(c, r, pinned, opThreshold).None? && Milliseconds(minCoolDown) <= r.coolDownMs
               && r.requestedAtMs <= now <= WrapInt64(r.requestedAtMs + 5 * r.coolDownMs))
    ensures EarliestExecute(r) == WrapInt64(r.requestedAtMs + r.coolDownMs)
  {
    hide OperatorError, Milliseconds, WrapInt64;
    WrapTwice(r.requestedAtMs, 5 * r.coolDownMs);
  }

  /** Whole milliseconds of the same sign, and less than one of them lost. */
  lemma {:induction false} MillisecondsMeaning(nanos: Int64)
    ensures var ms := Milliseconds(nanos);
            && (nanos >= 0 ==> 1_000_000 * ms <= nanos < 1_000_000 * (ms + 1))
            && (nanos <= 0 ==> 1_000_000 * (ms - 1) < nanos <= 1_000_000 * ms)
  {
  }

  predicate FitsInt64(x: int) { -0x8000_0000_0000_0000 <= x < 0x8000_0000_0000_0000 }

  /**
   The observation times a witness endorses and the control plane can use: from one to five cool-downs after the
   request. A window that would end past the 64-bit range is empty, and so is that of a negative cool-down, except
   where only the fivefold sum wraps around, at requests close to the earliest representable time. A cool-down whose
   fivefold itself leaves 64 bits, which no sealed request has, gets whatever the wrapped sums leave.
   */
  predicate InWindow(requestedAtMs: Int64, coolDownMs: Int64, now: Int64) {
    var first, last := requestedAtMs + coolDownMs, requestedAtMs + 5 * coolDownMs;
    if !FitsInt64(5 * coolDownMs) then requestedAtMs <= now && WrapInt64(first) <= now <= WrapInt64(last)
    else if coolDownMs >= 0 then first <= now <= last < 0x8000_0000_0000_0000
    else last < -0x8000_0000_0000_0000 <= first && requestedAtMs <= now <= last + TWO_64
  }

  /** Exactly that window, whatever the request. */
  lemma {:induction false} UsableWindow(c: Primitives, r: Request, pinned: seq<Bytes>, opThreshold: int, now: Int64,
                                        minCoolDown: Int64)
    ensures AttestError(c, r, pinned, opThreshold, now, minCoolDown).None? && now >= EarliestExecute(r) <==>
              (&& OperatorError(c, r, pinned, opThreshold).None?
               && Milliseconds(minCoolDown) <= r.coolDownMs && InWindow(r.requestedAtMs, r.coolDownMs, now))
    ensures FitsInt64(5 * r.coolDownMs) && InWindow(r.requestedAtMs, r.coolDownMs, now) ==>
              EarliestExecute(r) == r.requestedAtMs + r.coolDownMs
  {
    hide OperatorError, Milliseconds, WrapInt64;
    WrapMeaning(r.requestedAtMs + r.coolDownMs);
    WrapTwice(r.requestedAtMs, 5 * r.coolDownMs);
    if FitsInt64(5 * r.coolDownMs) {
      WrapMeaning(r.requestedAtMs + 5 * r.coolDownMs);
    }
  }

  /** A sum of two 64-bit numbers wraps around at most once. */
  lemma {:induction false} WrapMeaning(x: int)
    requires -TWO_64 <= x < TWO_64
    ensures WrapInt64(x) == if x >= 0x8000_0000_0000_0000 then x - TWO_64
                            else if x < -0x8000_0000_0000_0000 then x + TWO_64 else x
  {
  }

  /** Wrapping a summand first changes nothing. */
  lemma {:induction false} WrapTwice(a: int, x: int)
    ensures WrapInt64(a + WrapInt64(x)) == WrapInt64(a + x)
  {
    assert (a + x % TWO_64) % TWO_64 == (a + x) % TWO_64;
    assert (a + (x % TWO_64 - TWO_64)) % TWO_64 == (a + x) % TWO_64;
  }

  // Whole runs

  /** One rebirth: who seals it, for which host, who attests when, and when it is executed. */
  datatype Rebirth = Rebirth(
    serviceID: Bytes,
    newHost: Bytes,
    operatorPrivs: seq<Bytes>,
    coolDown: Int64,
    requestedAtMs: Int64,
    witnesses: seq<Witness>,
    executedAtMs: Int64)

  /** First refusal among the witnesses from position i on. */
  function AttestationRefused(c: Primitives, r: Request, p: Policy, ws: seq<Witness>, i: nat): Option<RebirthError>
    requires i <= |ws|
    decreases |ws| - i
  {
    if i == |ws| then None
    else
      var refused := AttestError(c, r, p.pinned, p.opThreshold, ws[i].now, ws[i].minCoolDown);
      if refused.Some? then refused else AttestationRefused(c, r, p, ws, i + 1)
  }

  function SealedFor(c: Primitives, s: Rebirth, oldHost: Bytes): Result<Request, RebirthError> {
    SealedRequest(c, s.serviceID, s.newHost, oldHost, s.operatorPrivs, s.coolDown, s.requestedAtMs)
  }

  /** The ledger after one rebirth away from its last host. */
  function Performed(c: Primitives, records: seq<LineageRecord>, p: Policy, s: Rebirth)
    : Result<seq<LineageRecord>, RebirthError>
  {
    match SealedFor(c, s, LastHost(records))
    case Err(e) => Err(e)
    case Ok(r) =>
      match AttestationRefused(c, r, p, s.witnesses, 0)
      case Some(e) => Err(e)
      case None =>
        match ExecuteError(c, r, AttestationsBy(c, r, s.witnesses), p.witnessThreshold, s.executedAtMs)
        case Some(e) => Err(e)
        case None => Ok(records + [LineageRecord(r, AttestationsBy(c, r, s.witnesses), s.executedAtMs)])
  }

  function Ledger(c: Primitives, p: Policy, steps: seq<Rebirth>): Result<seq<LineageRecord>, RebirthError> {
    if steps == [] then Ok([])
    else match Ledger(c, p, steps[..|steps| - 1])
         case Err(e) => Err(e)
         case Ok(records) => Performed(c, records, p, steps[|steps| - 1])
  }

  lemma {:induction false} NoRefusal(c: Primitives, r: Request, p: Policy, ws: seq<Witness>, i: nat)
    requires i <= |ws|
    ensures AttestationRefused(c, r, p, ws, i).None? <==>
              forall j :: i <= j < |ws| ==>
                AttestError(c, r, p.pinned, p.opThreshold, ws[j].now, ws[j].minCoolDown).None?
    decreases |ws| - i
  {
    hide AttestError;
    if i < |ws| {
      NoRefusal(c, r, p, ws, i + 1);
      if AttestError(c, r, p.pinned, p.opThreshold, ws[i].now, ws[i].minCoolDown).None? {
        assert AttestationRefused(c, r, p, ws, i) == AttestationRefused(c, r, p, ws, i + 1);
      } else {
        assert AttestationRefused(c, r, p, ws, i).Some?;
      }
    }
  }

  /** A rebirth performed on an accepted or empty ledger leaves an accepted one. */
  lemma {:induction false} PerformedAccepted(c: Primitives, records: seq<LineageRecord>, p: Policy, s: Rebirth)
    requires records == [] || LineageError(c, records, p).None?
    requires Performed(c, records, p, s).Ok?
    ensures LineageError(c, Performed(c, records, p, s).value, p).None?
  {
    hide LineageError, OperatorError, ExecuteError, SealedRequest, Distinct;
    var r := SealedFor(c, s, LastHost(records)).value;
    var atts := AttestationsBy(c, r, s.witnesses);
    NoRefusal(c, r, p, s.witnesses, 0);
    ExecuteMeaning(c, r, atts, p.witnessThreshold, s.executedAtMs);
    assert AttestError(c, r, p.pinned, p.opThreshold, s.witnesses[0].now, s.witnesses[0].minCoolDown).None?;
    SealedOldHost(c, s, LastHost(records));
    ExtendedAccepted(c, records, p, LineageRecord(r, atts, s.executedAtMs));
  }

  /** Every ledger grown by the protocol is accepted, record for record, by the verifier with the same policy. */
  lemma {:induction false} LedgerAccepted(c: Primitives, p: Policy, steps: seq<Rebirth>)
    requires steps != [] && Ledger(c, p, steps).Ok?
    ensures |Ledger(c, p, steps).value| == |steps| && LineageError(c, Ledger(c, p, steps).value, p).None?
  {
    hide LineageError, SealedFor, ExecuteError, AttestationRefused;
    var front := steps[..|steps| - 1];
    if front != [] {
      LedgerAccepted(c, p, front);
    }
    PerformedAccepted(c, Ledger(c, p, front).value, p, steps[|steps| - 1]);
  }

  lemma {:induction false} SealedOldHost(c: Primitives, s: Rebirth, oldHost: Bytes)
    requires SealedFor(c, s, oldHost).Ok?
    ensures var r := SealedFor(c, s, oldHost).value;
            && r.oldHostPubkey == oldHost && r.newHostPubkey == s.newHost && r.serviceID == s.serviceID
            && r.requestedAtMs == s.requestedAtMs && r.coolDownMs == Milliseconds(s.coolDown)
  {
    hide Canonical, Milliseconds;
  }

  /** What a rebirth needs from its participants. */
  ghost predicate WellConducted(c: Primitives, p: Policy, s: Rebirth) {
    var coolDownMs := Milliseconds(s.coolDown);
    && s.serviceID != [] && |s.newHost| == PUBLIC_KEY_SIZE && KeySizesOk(s.operatorPrivs)
    && OperatorsSuffice(c, s.operatorPrivs, p.pinned, p.opThreshold)
    && 1 <= p.witnessThreshold <= |s.witnesses| && Distinct(WitnessIndices(s.witnesses))
    && s.requestedAtMs + coolDownMs <= s.executedAtMs
    && forall i :: 0 <= i < |s.witnesses| ==> TimelyWitness(s, s.witnesses[i])
  }

  ghost predicate TimelyWitness(s: Rebirth, w: Witness) {
    var coolDownMs := Milliseconds(s.coolDown);
    Milliseconds(w.minCoolDown) <= coolDownMs && InWindow(s.requestedAtMs, coolDownMs, w.now)
  }

  /** From any ledger, a rebirth goes through exactly when it is well conducted; nothing else can block it. */
  lemma {:induction false} PerformedIff(c: Primitives, records: seq<LineageRecord>, p: Policy, s: Rebirth)
    requires Sound(c)
    ensures Performed(c, records, p, s).Ok? <==> WellConducted(c, p, s)
  {
    hide OperatorError, ExecuteError, SealedRequest, Distinct, KeySizesOk, Milliseconds, AttestError,
         EarliestExecute, TimelyWitness;
    SealedIff(c, s, LastHost(records));
    var sealed := SealedFor(c, s, LastHost(records));
    if sealed.Ok? {
      var r := sealed.value;
      SealedOldHost(c, s, LastHost(records));
      SealedVerifies(c, s.serviceID, s.newHost, LastHost(records), s.operatorPrivs, s.coolDown, s.requestedAtMs,
                     p.pinned, p.opThreshold);
      NoRefusal(c, r, p, s.witnesses, 0);
      AttestedExecutes(c, r, s.witnesses, p.witnessThreshold, s.executedAtMs);
      forall i | 0 <= i < |s.witnesses|
        ensures (&& AttestError(c, r, p.pinned, p.opThreshold, s.witnesses[i].now, s.witnesses[i].minCoolDown).None?
                 && s.witnesses[i].now >= EarliestExecute(r))
           <==> OperatorsSuffice(c, s.operatorPrivs, p.pinned, p.opThreshold) && TimelyWitness(s, s.witnesses[i])
        ensures TimelyWitness(s, s.witnesses[i]) ==>
                  EarliestExecute(r) == s.requestedAtMs + Milliseconds(s.coolDown)
      {
        WitnessIff(c, r, p, s, s.witnesses[i]);
      }
    }
  }

  lemma {:induction false} WitnessIff(c: Primitives, r: Request, p: Policy, s: Rebirth, w: Witness)
    requires r.requestedAtMs == s.requestedAtMs && r.coolDownMs == Milliseconds(s.coolDown)
    ensures (&& AttestError(c, r, p.pinned, p.opThreshold, w.now, w.minCoolDown).None? && w.now >= EarliestExecute(r))
       <==> OperatorError(c, r, p.pinned, p.opThreshold).None? && TimelyWitness(s, w)
    ensures TimelyWitness(s, w) ==> EarliestExecute(r) == s.requestedAtMs + Milliseconds(s.coolDown)
  {
    hide OperatorError, Milliseconds, EarliestExecute, AttestError, InWindow;
    UsableWindow(c, r, p.pinned, p.opThreshold, w.now, w.minCoolDown);
  }

  /**
   The service id is sealed but never compared: after any accepted lineage a well-conducted rebirth for another
   service goes through, and the verifier accepts a lineage that holds both service ids.
   */
  lemma {:induction false} ServiceMayChange(c: Primitives, records: seq<LineageRecord>, p: Policy, s: Rebirth)
    requires Sound(c) && LineageError(c, records, p).None? && WellConducted(c, p, s)
    requires records != [] && s.serviceID != records[|records| - 1].request.serviceID
    ensures Performed(c, records, p, s).Ok?
    ensures var longer, n := Performed(c, records, p, s).value, |records|;
            && |longer| == n + 1 && longer[..n] == records && LineageError(c, longer, p).None?
            && longer[n].request.serviceID != longer[n - 1].request.serviceID
  {
    hide OperatorError, ExecuteError, SealedRequest, LineageError, Distinct, AttestError, WellConducted, LastHost;
    PerformedIff(c, records, p, s);
    PerformedAccepted(c, records, p, s);
    SealedOldHost(c, s, LastHost(records));
  }

  lemma {:induction false} LedgerServices(c: Primitives, p: Policy, steps: seq<Rebirth>)
    requires Ledger(c, p, steps).Ok?
    ensures |Ledger(c, p, steps).value| == |steps|
    ensures forall i :: 0 <= i < |steps| ==> Ledger(c, p, steps).value[i].request.serviceID == steps[i].serviceID
  {
    hide SealedFor, ExecuteError, AttestationRefused;
    if steps != [] {
      var front, s := steps[..|steps| - 1], steps[|steps| - 1];
      LedgerServices(c, p, front);
      SealedOldHost(c, s, LastHost(Ledger(c, p, front).value));
    }
  }

  /** A grown ledger follows a single service exactly when its operators named a single one throughout. */
  lemma {:induction false} OneServiceIff(c: Primitives, p: Policy, steps: seq<Rebirth>)
    requires steps != [] && Ledger(c, p, steps).Ok?
    ensures (forall r :: r in Ledger(c, p, steps).value ==> r.request.serviceID == steps[0].serviceID)
       <==> (forall s :: s in steps ==> s.serviceID == steps[0].serviceID)
  {
    hide Ledger;
    LedgerServices(c, p, steps);
    var records := Ledger(c, p, steps).value;
    forall i | 0 <= i < |steps|
      ensures records[i] in records && steps[i] in steps && records[i].request.serviceID == steps[i].serviceID
    {
    }
  }

  lemma {:induction false} SealedIff(c: Primitives, s: Rebirth, oldHost: Bytes)
    ensures SealedFor(c, s, oldHost).Ok? <==>
              (&& s.serviceID != [] && |s.newHost| == PUBLIC_KEY_SIZE && |s.operatorPrivs| > 0
               && KeySizesOk(s.operatorPrivs))
  {
    hide Canonical, KeySizesOk;
  }

  /** What a sealed request holds: one signature per operator key, of the request's own bytes. */
  lemma {:induction false} SealedContents(c: Primitives, serviceID: Bytes, newHost: Bytes, oldHost: Bytes,
                                          privs: seq<Bytes>, coolDown: Int64, now: Int64)
    ensures SealedRequest(c, serviceID, newHost, oldHost, privs, coolDown, now).Ok? <==>
              serviceID != [] && |newHost| == 32 && privs != [] && forall i :: 0 <= i < |privs| ==> |privs[i]| == 64
    ensures SealedRequest(c, serviceID, newHost, oldHost, privs, coolDown, now).Ok? ==>
              var r := SealedRequest(c, serviceID, newHost, oldHost, privs, coolDown, now).value;
              && r.serviceID == serviceID && r.newHostPubkey == newHost && r.oldHostPubkey == oldHost
              && r.requestedAtMs == now && r.coolDownMs == Milliseconds(coolDown)
              && |r.operatorSignatures| == |privs|
              && (forall i :: 0 <= i < |privs| ==>
                    r.operatorSignatures[i] == OperatorSignature(c.publicOf(privs[i]), c.sign(privs[i], Canonical(r))))
              && r.operatorPubkey == (if |privs| == 1 then c.publicOf(privs[0]) else [])
              && r.operatorSignature == (if |privs| == 1 then c.sign(privs[0], Canonical(r)) else [])
  {
    hide U64, Prefixed32, Ascii, REQUEST_HEADER, Milliseconds;
  }

  // What the counts do not show

  /** The same key, once for each of the indices 0 to k - 1. */
  function OneKey(priv: Bytes, now: Int64, k: nat): (ws: seq<Witness>)
    ensures |ws| == k
  {
    seq(k, i => Witness(i, priv, now, 0))
  }

  lemma {:induction false} OneKeyIndices(priv: Bytes, now: Int64, k: nat)
    ensures Distinct(WitnessIndices(OneKey(priv, now, k)))
  {
    var indices := WitnessIndices(OneKey(priv, now, k));
    forall i | 0 <= i < k ensures indices[i] == i {
    }
  }

  /**
   Indices are counted, keys are not: attestations made with a single key under k indices execute.
   */
  lemma {:induction false} IndicesAreNotKeys(c: Primitives, r: Request, priv: Bytes, k: nat, now: Int64)
    requires Sound(c) && k >= 1 && now >= EarliestExecute(r)
    ensures ExecuteError(c, r, AttestationsBy(c, r, OneKey(priv, now, k)), k, now).None?
    ensures forall a :: a in AttestationsBy(c, r, OneKey(priv, now, k)) ==> a.witnessPub == c.publicOf(priv)
  {
    hide ExecuteError, EarliestExecute;
    var ws := OneKey(priv, now, k);
    OneKeyIndices(priv, now, k);
    AttestedExecutes(c, r, ws, k, now);
  }

  // When forks need no double signer

  /** A rebirth by the given operators to the given host, one second's cool-down, attested as soon as possible. */
  function PlainRebirth(p: Policy, privs: seq<Bytes>, newHost: Bytes, witnessPriv: Bytes): Rebirth
    requires p.witnessThreshold >= 1
  {
    Rebirth([0], newHost, privs, 1_000_000_000, 0, OneKey(witnessPriv, 1000, p.witnessThreshold), 1000)
  }

  lemma {:induction false} PlainRebirthConducted(c: Primitives, p: Policy, privs: seq<Bytes>, newHost: Bytes,
                                                 witnessPriv: Bytes)
    requires p.witnessThreshold >= 1 && |newHost| == PUBLIC_KEY_SIZE
    requires KeySizesOk(privs) && OperatorsSuffice(c, privs, p.pinned, p.opThreshold)
    ensures WellConducted(c, p, PlainRebirth(p, privs, newHost, witnessPriv))
  {
    hide OperatorsSuffice, KeySizesOk;
    var s := PlainRebirth(p, privs, newHost, witnessPriv);
    OneKeyIndices(witnessPriv, 1000, p.witnessThreshold);
    assert Milliseconds(1_000_000_000) == 1000;
  }

  lemma {:induction false} SomeSuffice(c: Primitives, privs: seq<Bytes>, pinned: seq<Bytes>, first: nat, count: nat)
    requires first + count <= |privs| && 1 <= count && KeySizesOk(privs) && Distinct(Publics(c, privs))
    requires forall i :: 0 <= i < |privs| ==> c.publicOf(privs[i]) in pinned
    ensures KeySizesOk(privs[first..first + count])
    ensures OperatorsSuffice(c, privs[first..first + count], pinned, count)
  {
    var some := privs[first..first + count];
    forall i, j | 0 <= i < j < count ensures Publics(c, some)[i] != Publics(c, some)[j] {
      assert Publics(c, privs)[first + i] != Publics(c, privs)[first + j];
    }
  }

  /** The keys on a performed rebirth are its operators'. */
  lemma {:induction false} PerformedSigners(c: Primitives, records: seq<LineageRecord>, p: Policy, s: Rebirth)
    requires Performed(c, records, p, s).Ok?
    ensures var r := Performed(c, records, p, s).value[|records|].request;
            && SignerSet(r) == Elements(Publics(c, s.operatorPrivs)) && r.newHostPubkey == s.newHost
            && |Performed(c, records, p, s).value| == |records| + 1
            && Performed(c, records, p, s).value[..|records|] == records
  {
    hide Canonical, ExecuteError, AttestError, Milliseconds;
    var r := SealedFor(c, s, LastHost(records)).value;
    assert EffectiveSignatures(r) == r.operatorSignatures == SignaturesBy(c, s.operatorPrivs, Canonical(r)) by {
      SealedCanonical(c, s, LastHost(records));
    }
    assert Pubkeys(EffectiveSignatures(r)) == Publics(c, s.operatorPrivs);
  }

  lemma {:induction false} SealedCanonical(c: Primitives, s: Rebirth, oldHost: Bytes)
    requires SealedFor(c, s, oldHost).Ok?
    ensures var r := SealedFor(c, s, oldHost).value;
            r.operatorSignatures == SignaturesBy(c, s.operatorPrivs, Canonical(r)) && r.operatorSignatures != []
  {
    hide U64, Prefixed32, Ascii, REQUEST_HEADER, Milliseconds;
  }

  /**
   A fork without a double signer is possible as soon as 2M is no more than the number of pinned operators: from any
   accepted or empty lineage two disjoint sets of operators lead to two different hosts, and both are accepted.
   */
  lemma {:induction false} DisjointSuccessions(c: Primitives, records: seq<LineageRecord>, p: Policy, privs: seq<Bytes>,
                                               x: Bytes, y: Bytes, witnessPriv: Bytes)
    returns (a: seq<LineageRecord>, b: seq<LineageRecord>)
    requires Sound(c) && (records == [] || LineageError(c, records, p).None?)
    requires KeySizesOk(privs) && Distinct(Publics(c, privs)) && p.witnessThreshold >= 1
    requires forall i :: 0 <= i < |privs| ==> c.publicOf(privs[i]) in p.pinned
    requires 1 <= p.opThreshold && 2 * p.opThreshold <= |privs|
    requires |x| == |y| == PUBLIC_KEY_SIZE && x != y
    ensures |a| == |b| == |records| + 1 && a[..|records|] == b[..|records|] == records
    ensures LineageError(c, a, p).None? && LineageError(c, b, p).None?
    ensures a[|records|].request.newHostPubkey == x && b[|records|].request.newHostPubkey == y
    ensures SignerSet(a[|records|].request) * SignerSet(b[|records|].request) == {}
  {
    hide LineageError, Performed, WellConducted, OperatorsSuffice, KeySizesOk, SignerSet;
    var m := p.opThreshold;
    var s, t := PlainRebirth(p, privs[0..m], x, witnessPriv), PlainRebirth(p, privs[m..2 * m], y, witnessPriv);
    SomeSuffice(c, privs, p.pinned, 0, m);
    SomeSuffice(c, privs, p.pinned, m, m);
    PlainRebirthConducted(c, p, privs[0..m], x, witnessPriv);
    PlainRebirthConducted(c, p, privs[m..2 * m], y, witnessPriv);
    PerformedIff(c, records, p, s);
    PerformedIff(c, records, p, t);
    a, b := Performed(c, records, p, s).value, Performed(c, records, p, t).value;
    PerformedAccepted(c, records, p, s);
    PerformedAccepted(c, records, p, t);
    PerformedSigners(c, records, p, s);
    PerformedSigners(c, records, p, t);
    DisjointHalves(c, privs, m);
  }

  lemma {:induction false} DisjointHalves(c: Primitives, privs: seq<Bytes>, m: nat)
    requires 2 * m <= |privs| && Distinct(Publics(c, privs))
    ensures Elements(Publics(c, privs[0..m])) * Elements(Publics(c, privs[m..2 * m])) == {}
  {
    var low, high := Publics(c, privs[0..m]), Publics(c, privs[m..2 * m]);
    forall i, j | 0 <= i < m && 0 <= j < m ensures low[i] != high[j] {
      assert Publics(c, privs)[i] == low[i] && Publics(c, privs)[m + j] == high[j];
    }
    forall key | key in low ensures key !in high {
      var i :| 0 <= i < m && low[i] == key;
    }
  }
}
