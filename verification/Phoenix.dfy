/**
 The rebirth protocol: operators authorise the move of a service to a new host, witnesses attest after a cool-down,
 and each executed rebirth becomes a record in an append-only lineage. Times are 64-bit milliseconds and their
 sums wrap around as the program's do; the clock is a parameter.
 */
module Phoenix {
  import opened Crypto
  import opened Encoding
  import opened Wrappers

  const PRIVATE_KEY_SIZE := 64

  datatype OperatorSignature = OperatorSignature(pubkey: Bytes, signature: Bytes)

  datatype Request = Request(
    serviceID: Bytes,
    newHostPubkey: Bytes,
    oldHostPubkey: Bytes,
    operatorSignatures: seq<OperatorSignature>,
    requestedAtMs: Int64,
    coolDownMs: Int64,
    operatorPubkey: Bytes,
    operatorSignature: Bytes)

  datatype Attestation = Attestation(witnessIndex: int, witnessPub: Bytes, observedAtMs: Int64, signature: Bytes)

  datatype LineageRecord = LineageRecord(request: Request, attestations: seq<Attestation>, executedAtMs: Int64)

  datatype RebirthError =
    | EmptyServiceID
    | HostKeySize
    | NoOperatorKey
    | OperatorPrivSize
    | ThresholdBelowOne
    | TooFewOperators
    | OperatorKeySize
    | OperatorSigSize
    | DuplicateOperator
    | OperatorNotPinned
    | OperatorSigInvalid
    | CoolDownBelowFloor
    | RequestFromFuture
    | RequestStale
    | TooFewAttestations
    | CoolDownNotElapsed
    | DuplicateAttestation
    | AttestationSize
    | ObservedTooEarly
    | AttestationInvalid
    | EmptyLineage
    | FirstRecordHasOldHost
    | BrokenSuccession

  // What operators and witnesses sign

  const REQUEST_HEADER := Ascii("963causal-REBIRTH-REQUEST-V2\0")
  const ATTEST_HEADER := Ascii("963causal-REBIRTH-ATTEST-V1\0")

  function Canonical(r: Request): Bytes {
    REQUEST_HEADER + Prefixed32(r.serviceID) + Prefixed32(r.newHostPubkey) + Prefixed32(r.oldHostPubkey)
    + U64(r.requestedAtMs) + U64(r.coolDownMs)
  }

  function AttestationPreimage(r: Request, observedAtMs: Int64): Bytes {
    ATTEST_HEADER + Canonical(r) + U64(observedAtMs)
  }

  function AttestationMessage(c: Primitives, r: Request, observedAtMs: Int64): Bytes {
    c.sha3(AttestationPreimage(r, observedAtMs))
  }

  /** A duration in nanoseconds as whole milliseconds, truncated toward zero. */
  function Milliseconds(nanos: Int64): (ms: Int64)
    ensures -9_223_372_036_854 <= ms <= 9_223_372_036_854
  {
    var n: int := nanos;
    if n >= 0 then n / 1_000_000 else -((-n) / 1_000_000)
  }

  // Sealing a request

  function SignaturesBy(c: Primitives, privs: seq<Bytes>, msg: Bytes): (r: seq<OperatorSignature>)
    ensures |r| == |privs|
  {
    seq(|privs|, i requires 0 <= i < |privs| => OperatorSignature(c.publicOf(privs[i]), c.sign(privs[i], msg)))
  }

  predicate KeySizesOk(privs: seq<Bytes>) {
    forall i :: 0 <= i < |privs| ==> |privs[i]| == PRIVATE_KEY_SIZE
  }

  function SealedRequest(c: Primitives, serviceID: Bytes, newHost: Bytes, oldHost: Bytes, privs: seq<Bytes>,
                         coolDown: Int64, now: Int64): Result<Request, RebirthError>
  {
    if serviceID == [] then Err(EmptyServiceID)
    else if |newHost| != PUBLIC_KEY_SIZE then Err(HostKeySize)
    else if |privs| == 0 then Err(NoOperatorKey)
    else if !KeySizesOk(privs) then Err(OperatorPrivSize)
    else
      var bare := Request(serviceID, newHost, oldHost, [], now, Milliseconds(coolDown), [], []);
      var sigs := SignaturesBy(c, privs, Canonical(bare));
      var req := bare.(operatorSignatures := sigs);
      Ok(if |privs| == 1 then req.(operatorPubkey := sigs[0].pubkey, operatorSignature := sigs[0].signature) else req)
  }

  method SealRequestMultiOp(c: Primitives, serviceID: Bytes, newHost: Bytes, oldHost: Bytes, privs: seq<Bytes>,
                            coolDown: Int64, now: Int64)
    returns (r: Result<Request, RebirthError>)
    ensures r == SealedRequest(c, serviceID, newHost, oldHost, privs, coolDown, now)
  {
    hide Canonical;
    if serviceID == [] {
      return Err(EmptyServiceID);
    }
    if |newHost| != PUBLIC_KEY_SIZE {
      return Err(HostKeySize);
    }
    if |privs| == 0 {
      return Err(NoOperatorKey);
    }
    for i := 0 to |privs|
      invariant forall j :: 0 <= j < i ==> |privs[j]| == PRIVATE_KEY_SIZE
    {
      if |privs[i]| != PRIVATE_KEY_SIZE {
        return Err(OperatorPrivSize);
      }
    }
    var req := Request(serviceID, newHost, oldHost, [], now, Milliseconds(coolDown), [], []);
    var canon := Canonical(req);
    var sigs: seq<OperatorSignature> := [];
    for i := 0 to |privs|
      invariant sigs == SignaturesBy(c, privs[..i], canon)
    {
      sigs := sigs + [OperatorSignature(c.publicOf(privs[i]), c.sign(privs[i], canon))];
    }
    assert privs[..|privs|] == privs;
    req := req.(operatorSignatures := sigs);
    if |privs| == 1 {
      req := req.(operatorPubkey := sigs[0].pubkey, operatorSignature := sigs[0].signature);
    }
    r := Ok(req);
  }

  // Verifying the operators

  /** The signatures to check: the list, or the legacy pair when the list is empty and the pair well sized. */
  function EffectiveSignatures(r: Request): seq<OperatorSignature> {
    if |r.operatorSignatures| == 0 && |r.operatorPubkey| == PUBLIC_KEY_SIZE && |r.operatorSignature| == SIGNATURE_SIZE
    then [OperatorSignature(r.operatorPubkey, r.operatorSignature)]
    else r.operatorSignatures
  }

  /** First problem among the operator signatures from position i on. */
  function SignerError(c: Primitives, sigs: seq<OperatorSignature>, canon: Bytes, pinned: seq<Bytes>, i: nat)
    : Option<RebirthError>
    requires i <= |sigs|
    decreases |sigs| - i
  {
    if i == |sigs| then None
    else
      var s := sigs[i];
      if |s.pubkey| != PUBLIC_KEY_SIZE then Some(OperatorKeySize)
      else if |s.signature| != SIGNATURE_SIZE then Some(OperatorSigSize)
      else if exists j :: 0 <= j < i && sigs[j].pubkey == s.pubkey then Some(DuplicateOperator)
      else if s.pubkey !in pinned then Some(OperatorNotPinned)
      else if !c.verify(s.pubkey, canon, s.signature) then Some(OperatorSigInvalid)
      else SignerError(c, sigs, canon, pinned, i + 1)
  }

  function OperatorError(c: Primitives, r: Request, pinned: seq<Bytes>, opThreshold: int): Option<RebirthError> {
    var sigs := EffectiveSignatures(r);
    if opThreshold < 1 then Some(ThresholdBelowOne)
    else if |sigs| < opThreshold then Some(TooFewOperators)
    else SignerError(c, sigs, Canonical(r), pinned, 0)
  }

  method VerifyOperator(c: Primitives, r: Request, pinned: seq<Bytes>, opThreshold: int)
    returns (e: Option<RebirthError>)
    ensures e == OperatorError(c, r, pinned, opThreshold)
  {
    hide Canonical;
    if opThreshold < 1 {
      return Some(ThresholdBelowOne);
    }
    var canon := Canonical(r);
    var sigs := r.operatorSignatures;
    if |sigs| == 0 {
      if |r.operatorPubkey| == PUBLIC_KEY_SIZE && |r.operatorSignature| == SIGNATURE_SIZE {
        sigs := [OperatorSignature(r.operatorPubkey, r.operatorSignature)];
      }
    }
    if |sigs| < opThreshold {
      return Some(TooFewOperators);
    }
    var seen: set<Bytes> := {};
    var validCount := 0;
    for i := 0 to |sigs|
      invariant validCount == i
      invariant forall k :: k in seen <==> exists j :: 0 <= j < i && sigs[j].pubkey == k
      invariant SignerError(c, sigs, canon, pinned, 0) == SignerError(c, sigs, canon, pinned, i)
    {
      var s := sigs[i];
      if |s.pubkey| != PUBLIC_KEY_SIZE {
        return Some(OperatorKeySize);
      }
      if |s.signature| != SIGNATURE_SIZE {
        return Some(OperatorSigSize);
      }
      if s.pubkey in seen {
        return Some(DuplicateOperator);
      }
      seen := seen + {s.pubkey};
      if s.pubkey !in pinned {
        return Some(OperatorNotPinned);
      }
      if !c.verify(s.pubkey, canon, s.signature) {
        return Some(OperatorSigInvalid);
      }
      validCount := validCount + 1;
    }
    e := if validCount < opThreshold then Some(TooFewOperators) else None;
  }

  // Attesting

  /** Both sums wrap around at 64 bits. */
  function EarliestExecute(r: Request): Int64 { WrapInt64(r.requestedAtMs + r.coolDownMs) }
  function StaleAfter(r: Request): Int64 { WrapInt64(r.requestedAtMs + WrapInt64(5 * r.coolDownMs)) }

  function AttestError(c: Primitives, r: Request, pinned: seq<Bytes>, opThreshold: int, now: Int64, minCoolDown: Int64)
    : Option<RebirthError>
  {
    var operators := OperatorError(c, r, pinned, opThreshold);
    if operators.Some? then operators
    else if r.coolDownMs < Milliseconds(minCoolDown) then Some(CoolDownBelowFloor)
    else if now < r.requestedAtMs then Some(RequestFromFuture)
    else if now > StaleAfter(r) then Some(RequestStale)
    else None
  }

  function SignedAttestation(c: Primitives, r: Request, witnessIndex: int, witnessPriv: Bytes, now: Int64)
    : Attestation
  {
    Attestation(witnessIndex, c.publicOf(witnessPriv), now, c.sign(witnessPriv, AttestationMessage(c, r, now)))
  }

  method Attest(c: Primitives, r: Request, pinned: seq<Bytes>, opThreshold: int, witnessIndex: int,
                witnessPriv: Bytes, now: Int64, minCoolDown: Int64)
    returns (a: Result<Attestation, RebirthError>)
    ensures a == match AttestError(c, r, pinned, opThreshold, now, minCoolDown)
                 case Some(e) => Err(e)
                 case None => Ok(SignedAttestation(c, r, witnessIndex, witnessPriv, now))
  {
    hide OperatorError, AttestationMessage;
    var operators := VerifyOperator(c, r, pinned, opThreshold);
    if operators.Some? {
      return Err(operators.value);
    }
    if r.coolDownMs < Milliseconds(minCoolDown) {
      return Err(CoolDownBelowFloor);
    }
    if now < r.requestedAtMs {
      return Err(RequestFromFuture);
    }
    if now > WrapInt64(r.requestedAtMs + WrapInt64(5 * r.coolDownMs)) {
      return Err(RequestStale);
    }
    var pub := c.publicOf(witnessPriv);
    var attestation := Attestation(witnessIndex, pub, now, []);
    a := Ok(attestation.(signature := c.sign(witnessPriv, AttestationMessage(c, r, now))));
  }

  // Executing

  /** First problem among the attestations from position i on. */
  function AttestationsError(c: Primitives, r: Request, atts: seq<Attestation>, i: nat): Option<RebirthError>
    requires i <= |atts|
    decreases |atts| - i
  {
    if i == |atts| then None
    else
      var a := atts[i];
      if exists j :: 0 <= j < i && atts[j].witnessIndex == a.witnessIndex then Some(DuplicateAttestation)
      else if |a.witnessPub| != PUBLIC_KEY_SIZE || |a.signature| != SIGNATURE_SIZE then Some(AttestationSize)
      else if a.observedAtMs < EarliestExecute(r) then Some(ObservedTooEarly)
      else if !c.verify(a.witnessPub, AttestationMessage(c, r, a.observedAtMs), a.signature) then
        Some(AttestationInvalid)
      else AttestationsError(c, r, atts, i + 1)
  }

  function ExecuteError(c: Primitives, r: Request, atts: seq<Attestation>, threshold: int, now: Int64)
    : Option<RebirthError>
  {
    if threshold < 1 then Some(ThresholdBelowOne)
    else if |atts| < threshold then Some(TooFewAttestations)
    else if now < EarliestExecute(r) then Some(CoolDownNotElapsed)
    else AttestationsError(c, r, atts, 0)
  }

  method Execute(c: Primitives, r: Request, atts: seq<Attestation>, threshold: int, now: Int64)
    returns (res: Result<LineageRecord, RebirthError>)
    ensures res == match ExecuteError(c, r, atts, threshold, now)
                   case Some(e) => Err(e)
                   case None => Ok(LineageRecord(r, atts, now))
  {
    hide AttestationMessage;
    if threshold < 1 {
      return Err(ThresholdBelowOne);
    }
    if |atts| < threshold {
      return Err(TooFewAttestations);
    }
    var earliestExecute := WrapInt64(r.requestedAtMs + r.coolDownMs);
    if now < earliestExecute {
      return Err(CoolDownNotElapsed);
    }
    var seen: set<int> := {};
    for i := 0 to |atts|
      invariant forall k :: k in seen <==> exists j :: 0 <= j < i && atts[j].witnessIndex == k
      invariant AttestationsError(c, r, atts, 0) == AttestationsError(c, r, atts, i)
    {
      var a := atts[i];
      if a.witnessIndex in seen {
        return Err(DuplicateAttestation);
      }
      seen := seen + {a.witnessIndex};
      if |a.witnessPub| != PUBLIC_KEY_SIZE || |a.signature| != SIGNATURE_SIZE {
        return Err(AttestationSize);
      }
      if a.observedAtMs < earliestExecute {
        return Err(ObservedTooEarly);
      }
      var msg := AttestationMessage(c, r, a.observedAtMs);
      if !c.verify(a.witnessPub, msg, a.signature) {
        return Err(AttestationInvalid);
      }
    }
    res := Ok(LineageRecord(r, atts, now));
  }

  // Replaying a lineage

  /** The verifier's settings: pinned operator keys, operator threshold, witness threshold. */
  datatype Policy = Policy(pinned: seq<Bytes>, opThreshold: int, witnessThreshold: int)

  function SuccessionError(records: seq<LineageRecord>, i: nat): Option<RebirthError>
    requires i < |records|
  {
    var claimed := records[i].request.oldHostPubkey;
    if i == 0 then if claimed != [] then Some(FirstRecordHasOldHost) else None
    else if records[i - 1].request.newHostPubkey != claimed then Some(BrokenSuccession)
    else None
  }

  /** First problem with the records from position i on. */
  function RecordsError(c: Primitives, records: seq<LineageRecord>, p: Policy, i: nat): Option<RebirthError>
    requires i <= |records|
    decreases |records| - i
  {
    if i == |records| then None
    else
      var r := records[i];
      var succession := SuccessionError(records, i);
      var operators := OperatorError(c, r.request, p.pinned, p.opThreshold);
      var execution := ExecuteError(c, r.request, r.attestations, p.witnessThreshold, r.executedAtMs);
      if succession.Some? then succession
      else if operators.Some? then operators
      else if execution.Some? then execution
      else RecordsError(c, records, p, i + 1)
  }

  function LineageError(c: Primitives, records: seq<LineageRecord>, p: Policy): Option<RebirthError> {
    if |records| == 0 then Some(EmptyLineage) else RecordsError(c, records, p, 0)
  }

  method VerifyLineage(c: Primitives, records: seq<LineageRecord>, p: Policy) returns (e: Option<RebirthError>)
    ensures e == LineageError(c, records, p)
  {
    hide OperatorError, ExecuteError;
    if |records| == 0 {
      return Some(EmptyLineage);
    }
    var expectedOld: Bytes := [];
    for i := 0 to |records|
      invariant i > 0 ==> expectedOld == records[i - 1].request.newHostPubkey
      invariant RecordsError(c, records, p, 0) == RecordsError(c, records, p, i)
    {
      var r := records[i];
      if i == 0 {
        if |r.request.oldHostPubkey| != 0 {
          return Some(FirstRecordHasOldHost);
        }
      } else {
        if expectedOld != r.request.oldHostPubkey {
          return Some(BrokenSuccession);
        }
      }
      var operators := VerifyOperator(c, r.request, p.pinned, p.opThreshold);
      if operators.Some? {
        return operators;
      }
      var executed := Execute(c, r.request, r.attestations, p.witnessThreshold, r.executedAtMs);
      if executed.Err? {
        return Some(executed.error);
      }
      expectedOld := r.request.newHostPubkey;
    }
    e := None;
  }
}
