/** The signing inputs of the attestation quorum: what the agent signs and what each witness signs. */
module DaqProtocol {
  import opened Crypto
  import opened Encoding
  import opened Wrappers

  const DOMAIN := Ascii("963causal-DAQ-V1")
  const AGENT_TAG := Ascii("|agent-req|")
  const WITNESS_TAG := Ascii("|witness|")

  const MODE_PARALLEL: Byte := 0
  const MODE_SEQUENTIAL: Byte := 1

  datatype Request = Request(
    opID: Bytes,
    opHash: Bytes,
    agentPubkey: Bytes,
    agentSignature: Bytes,
    drandChain: Bytes,
    drandRound: Uint64,
    drandSignature: Bytes,
    requestedAtMs: Int64)

  datatype ProtocolError =
    | OpHashSize
    | DrandSigSize
    | OpIDTooLong
    | ChainTooLong
    | AgentKeySize
    | AgentSigSize
    | SeqIndexRange
    | PrevSigSize
    | AgentSigInvalid

  // What the agent signs

  function CanonicalError(r: Request): Option<ProtocolError> {
    if |r.opHash| != 32 then Some(OpHashSize)
    else if |r.drandSignature| != 48 then Some(DrandSigSize)
    else if |r.opID| > 0xFFFF then Some(OpIDTooLong)
    else if |r.drandChain| > 0xFFFF then Some(ChainTooLong)
    else None
  }

  function AgentBytes(r: Request): Bytes {
    DOMAIN + AGENT_TAG + Prefixed16(r.opID) + r.opHash + Prefixed16(r.drandChain) + U64(r.drandRound)
    + r.drandSignature + U64(r.requestedAtMs)
  }

  method CanonicalRequestBytes(r: Request) returns (res: Result<Bytes, ProtocolError>)
    ensures res == match CanonicalError(r) case Some(e) => Err(e) case None => Ok(AgentBytes(r))
  {
    hide BigEndian;
    if |r.opHash| != 32 {
      return Err(OpHashSize);
    }
    if |r.drandSignature| != 48 {
      return Err(DrandSigSize);
    }
    if |r.opID| > 0xFFFF {
      return Err(OpIDTooLong);
    }
    if |r.drandChain| > 0xFFFF {
      return Err(ChainTooLong);
    }
    var buf := DOMAIN;
    buf := buf + AGENT_TAG;
    buf := buf + U16(|r.opID|);
    buf := buf + r.opID;
    buf := buf + r.opHash;
    buf := buf + U16(|r.drandChain|);
    buf := buf + r.drandChain;
    buf := buf + U64(r.drandRound);
    buf := buf + r.drandSignature;
    buf := buf + U64(r.requestedAtMs);
    assert buf == AgentBytes(r);
    res := Ok(buf);
  }

  function AgentSignatureError(c: Primitives, r: Request): Option<ProtocolError> {
    if |r.agentPubkey| != PUBLIC_KEY_SIZE then Some(AgentKeySize)
    else if |r.agentSignature| != SIGNATURE_SIZE then Some(AgentSigSize)
    else match CanonicalError(r)
         case Some(e) => Some(e)
         case None =>
           if !c.verify(r.agentPubkey, AgentBytes(r), r.agentSignature) then Some(AgentSigInvalid) else None
  }

  method VerifyAgentSignature(c: Primitives, r: Request) returns (e: Option<ProtocolError>)
    ensures e == AgentSignatureError(c, r)
  {
    if |r.agentPubkey| != PUBLIC_KEY_SIZE {
      return Some(AgentKeySize);
    }
    if |r.agentSignature| != SIGNATURE_SIZE {
      return Some(AgentSigSize);
    }
    var msg := CanonicalRequestBytes(r);
    if msg.Err? {
      return Some(msg.error);
    }
    if !c.verify(r.agentPubkey, msg.value, r.agentSignature) {
      return Some(AgentSigInvalid);
    }
    e := None;
  }

  /** All fields have the sizes the agent's encoding asks for. */
  ghost predicate Encodable(r: Request) {
    |r.opHash| == 32 && |r.drandSignature| == 48 && |r.opID| < 0x1_0000 && |r.drandChain| < 0x1_0000
  }

  /** The agent has signed the request: the key it names verifies the signature it carries on its own bytes. */
  ghost predicate SignedByAgent(c: Primitives, r: Request) {
    && |r.agentPubkey| == 32 && |r.agentSignature| == 64 && Encodable(r)
    && c.verify(r.agentPubkey, AgentBytes(r), r.agentSignature)
  }

  lemma {:induction false} AgentSignatureMeaning(c: Primitives, r: Request)
    ensures CanonicalError(r).None? <==> Encodable(r)
    ensures AgentSignatureError(c, r).None? <==> SignedByAgent(c, r)
  {
    hide AgentBytes;
  }

  // What a witness signs

  function WitnessInputError(r: Request, mode: Byte, seqIndex: int, prevSig: Bytes): Option<ProtocolError> {
    if |r.opHash| != 32 then Some(OpHashSize)
    else if |r.drandSignature| != 48 then Some(DrandSigSize)
    else if |r.agentPubkey| != PUBLIC_KEY_SIZE then Some(AgentKeySize)
    else if mode == MODE_SEQUENTIAL && (seqIndex < 0 || seqIndex > 0xFFFF) then Some(SeqIndexRange)
    else if mode == MODE_SEQUENTIAL && seqIndex > 0 && |prevSig| != 48 then Some(PrevSigSize)
    else None
  }

  function SequenceBytes(mode: Byte, seqIndex: int, prevSig: Bytes): Bytes {
    if mode != MODE_SEQUENTIAL then [] else U16(seqIndex) + (if seqIndex > 0 then prevSig else [])
  }

  /** The bytes fed to the hash. */
  function WitnessPreimage(r: Request, mode: Byte, seqIndex: int, prevSig: Bytes): Bytes {
    DOMAIN + WITNESS_TAG + [mode] + Prefixed16(r.opID) + r.opHash + Prefixed16(r.drandChain) + U64(r.drandRound)
    + r.drandSignature + r.agentPubkey + SequenceBytes(mode, seqIndex, prevSig)
  }

  function InputOf(c: Primitives, r: Request, mode: Byte, seqIndex: int, prevSig: Bytes): Result<Bytes, ProtocolError> {
    match WitnessInputError(r, mode, seqIndex, prevSig)
    case Some(e) => Err(e)
    case None => Ok(c.sha3(WitnessPreimage(r, mode, seqIndex, prevSig)))
  }

  method WitnessInput(c: Primitives, r: Request, mode: Byte, seqIndex: int, prevSig: Bytes)
    returns (res: Result<Bytes, ProtocolError>)
    ensures res == InputOf(c, r, mode, seqIndex, prevSig)
  {
    hide U16, U64, Ascii, DOMAIN, WITNESS_TAG;
    if |r.opHash| != 32 {
      return Err(OpHashSize);
    }
    if |r.drandSignature| != 48 {
      return Err(DrandSigSize);
    }
    if |r.agentPubkey| != PUBLIC_KEY_SIZE {
      return Err(AgentKeySize);
    }
    if mode == MODE_SEQUENTIAL {
      if seqIndex < 0 || seqIndex > 0xFFFF {
        return Err(SeqIndexRange);
      }
      if seqIndex > 0 && |prevSig| != 48 {
        return Err(PrevSigSize);
      }
    }
    var h := DOMAIN;
    h := h + WITNESS_TAG;
    h := h + [mode];
    h := h + U16(|r.opID|);
    h := h + r.opID;
    assert h == DOMAIN + WITNESS_TAG + [mode] + Prefixed16(r.opID);
    h := h + r.opHash;
    ghost var soFar := h;
    h := h + U16(|r.drandChain|);
    h := h + r.drandChain;
    assert h == soFar + Prefixed16(r.drandChain);
    h := h + U64(r.drandRound);
    h := h + r.drandSignature;
    h := h + r.agentPubkey;
    soFar := h;
    if mode == MODE_SEQUENTIAL {
      h := h + U16(seqIndex);
      if seqIndex > 0 {
        h := h + prevSig;
      }
    }
    assert h == soFar + SequenceBytes(mode, seqIndex, prevSig);
    res := Ok(c.sha3(h));
  }

  // Injectivity

  /** Agreement on the part of a request that both encodings carry. */
  ghost predicate SameOperation(r: Request, s: Request) {
    && r.opID == s.opID && r.opHash == s.opHash && r.drandChain == s.drandChain
    && r.drandRound == s.drandRound && r.drandSignature == s.drandSignature
  }

  function OperationBytes(r: Request): Bytes {
    Prefixed16(r.opID) + (r.opHash + (Prefixed16(r.drandChain) + (U64(r.drandRound) + r.drandSignature)))
  }

  lemma {:induction false} OperationInjective(r: Request, a: Bytes, s: Request, b: Bytes)
    requires |r.opID| < TWO_16 && |s.opID| < TWO_16 && |r.drandChain| < TWO_16 && |s.drandChain| < TWO_16
    requires |r.opHash| == |s.opHash| && |r.drandSignature| == |s.drandSignature|
    requires OperationBytes(r) + a == OperationBytes(s) + b
    ensures SameOperation(r, s) && a == b
  {
    hide U64, Prefixed16;
    var r4, s4 := r.drandSignature + a, s.drandSignature + b;
    var r3, s3 := U64(r.drandRound) + r4, U64(s.drandRound) + s4;
    var r2, s2 := Prefixed16(r.drandChain) + r3, Prefixed16(s.drandChain) + s3;
    var r1, s1 := r.opHash + r2, s.opHash + s2;
    assert Prefixed16(r.opID) + r1 == OperationBytes(r) + a;
    assert Prefixed16(s.opID) + s1 == OperationBytes(s) + b;
    Prefixed16Injective(r.opID, r1, s.opID, s1);
    SplitEqual(r.opHash, r2, s.opHash, s2);
    Prefixed16Injective(r.drandChain, r3, s.drandChain, s3);
    SplitEqual(U64(r.drandRound), r4, U64(s.drandRound), s4);
    FixedWidthInjective(r.drandRound, s.drandRound);
    SplitEqual(r.drandSignature, a, s.drandSignature, b);
  }

  /** The agent's bytes determine every field they carry. */
  lemma {:induction false} AgentBytesInjective(r: Request, s: Request)
    requires CanonicalError(r).None? && CanonicalError(s).None?
    requires AgentBytes(r) == AgentBytes(s)
    ensures SameOperation(r, s) && r.requestedAtMs == s.requestedAtMs
  {
    hide U64, Prefixed16, Ascii, DOMAIN, AGENT_TAG;
    var head := DOMAIN + AGENT_TAG;
    assert AgentBytes(r) == head + (OperationBytes(r) + U64(r.requestedAtMs));
    assert AgentBytes(s) == head + (OperationBytes(s) + U64(s.requestedAtMs));
    SplitEqual(head, OperationBytes(r) + U64(r.requestedAtMs), head, OperationBytes(s) + U64(s.requestedAtMs));
    OperationInjective(r, U64(r.requestedAtMs), s, U64(s.requestedAtMs));
    Int64ByWidth(r.requestedAtMs, s.requestedAtMs);
  }

  /**
   The witness's preimage determines operation, agent key, mode, and in sequential mode the hop number and the
   previous signature. So no parallel input is ever a sequential one, nor one hop's input another's. Unlike the
   agent's encoder, this one does not check that the op id and chain fit their 16-bit length.
   */
  lemma {:induction false} WitnessPreimageInjective(r: Request, m: Byte, i: int, p: Bytes, s: Request, n: Byte,
                                                    j: int, q: Bytes)
    requires WitnessInputError(r, m, i, p).None? && WitnessInputError(s, n, j, q).None?
    requires |r.opID| < TWO_16 && |s.opID| < TWO_16 && |r.drandChain| < TWO_16 && |s.drandChain| < TWO_16
    requires WitnessPreimage(r, m, i, p) == WitnessPreimage(s, n, j, q)
    ensures SameOperation(r, s) && r.agentPubkey == s.agentPubkey && m == n
    ensures m == MODE_SEQUENTIAL ==> i == j && (i > 0 ==> p == q)
  {
    hide U16, U64, Prefixed16, Ascii, DOMAIN, WITNESS_TAG, OperationBytes, SameOperation;
    var head := DOMAIN + WITNESS_TAG;
    var rTail, sTail := r.agentPubkey + SequenceBytes(m, i, p), s.agentPubkey + SequenceBytes(n, j, q);
    PreimageShape(r, m, i, p);
    PreimageShape(s, n, j, q);
    SplitEqual(head, [m] + (OperationBytes(r) + rTail), head, [n] + (OperationBytes(s) + sTail));
    SplitEqual([m], OperationBytes(r) + rTail, [n], OperationBytes(s) + sTail);
    assert [m][0] == [n][0];
    OperationInjective(r, rTail, s, sTail);
    SplitEqual(r.agentPubkey, SequenceBytes(m, i, p), s.agentPubkey, SequenceBytes(n, j, q));
    if m == MODE_SEQUENTIAL {
      SplitEqual(U16(i), if i > 0 then p else [], U16(j), if j > 0 then q else []);
      FixedWidthInjective(i, j);
    }
  }

  /**
   The bound comes with the agent's signature check, which honest witnesses and the ticket verifier both make: among
   requests that pass it the preimage determines everything, so no two of them collide.
   */
  lemma {:induction false} AcceptedPreimageInjective(c: Primitives, r: Request, m: Byte, i: int, p: Bytes, s: Request,
                                                     n: Byte, j: int, q: Bytes)
    requires AgentSignatureError(c, r).None? && AgentSignatureError(c, s).None?
    requires WitnessInputError(r, m, i, p).None? && WitnessInputError(s, n, j, q).None?
    requires WitnessPreimage(r, m, i, p) == WitnessPreimage(s, n, j, q)
    ensures SameOperation(r, s) && r.agentPubkey == s.agentPubkey && m == n
    ensures m == MODE_SEQUENTIAL ==> i == j && (i > 0 ==> p == q)
  {
    hide WitnessPreimage, AgentBytes;
    WitnessPreimageInjective(r, m, i, p, s, n, j, q);
  }

  lemma {:induction false} PreimageShape(r: Request, m: Byte, i: int, p: Bytes)
    ensures WitnessPreimage(r, m, i, p)
         == (DOMAIN + WITNESS_TAG) + ([m] + (OperationBytes(r) + (r.agentPubkey + SequenceBytes(m, i, p))))
  {
    hide U16, U64, Prefixed16, Ascii, DOMAIN, WITNESS_TAG, SequenceBytes;
  }

  function Zeros(n: nat): (z: Bytes)
    ensures |z| == n
  {
    seq(n, i => 0)
  }

  /**
   Without the length bound the preimage is not injective: an op id of 65536 zero bytes and a chain name of
   65536 zero bytes are both written with length 0.
   */
  lemma {:induction false} LongIdentifiersCollide() returns (r: Request, s: Request)
    ensures WitnessInputError(r, MODE_PARALLEL, 0, []).None? && WitnessInputError(s, MODE_PARALLEL, 0, []).None?
    ensures r.opID != s.opID
    ensures WitnessPreimage(r, MODE_PARALLEL, 0, []) == WitnessPreimage(s, MODE_PARALLEL, 0, [])
  {
    hide Ascii, DOMAIN, WITNESS_TAG;
    var long := Zeros(0x1_0000);
    r := Request(long, Zeros(32), Zeros(32), [], [], 0, Zeros(48), 0);
    s := r.(opID := [], drandChain := long);
    assert |r.opID| != |s.opID|;
    ZeroWidths();
    var tail := Zeros(8) + Zeros(48) + Zeros(32);
    assert Prefixed16(r.opID) + r.opHash + Prefixed16(r.drandChain) == Zeros(2 + 0x1_0000 + 32 + 2);
    assert Prefixed16(s.opID) + s.opHash + Prefixed16(s.drandChain) == Zeros(2 + 32 + 2 + 0x1_0000);
    ZeroShape(r, tail);
    ZeroShape(s, tail);
  }

  lemma {:induction false} ZeroWidths()
    ensures U16(0) == U16(0x1_0000) == Zeros(2) && U64(0) == Zeros(8)
  {
    ZeroBytes(2);
    ZeroBytes(8);
  }

  lemma {:induction false} ZeroBytes(width: nat)
    ensures BigEndian(0, width) == Zeros(width)
  {
    forall i | 0 <= i < width ensures BigEndian(0, width)[i] == 0 {
      ZeroByte(width - 1 - i);
    }
  }

  lemma {:induction false} ZeroByte(k: nat)
    ensures ByteAt(0, k) == 0
  {
    if k > 0 {
      ZeroByte(k - 1);
    }
  }

  lemma {:induction false} ZeroShape(r: Request, tail: Bytes)
    requires r.drandRound == 0 && U64(0) == Zeros(8)
    requires tail == Zeros(8) + r.drandSignature + r.agentPubkey
    ensures WitnessPreimage(r, MODE_PARALLEL, 0, [])
         == (DOMAIN + WITNESS_TAG + [MODE_PARALLEL])
            + ((Prefixed16(r.opID) + r.opHash + Prefixed16(r.drandChain)) + tail)
  {
    hide U16, U64, Ascii, DOMAIN, WITNESS_TAG, Prefixed16;
  }

  // Which inputs a witness can be asked for, and the bytes in their order

  lemma {:induction false} WitnessInputMeaning(c: Primitives, r: Request, mode: Byte, seqIndex: int, prevSig: Bytes)
    ensures WitnessInputError(r, mode, seqIndex, prevSig).None? <==>
              (&& |r.opHash| == 32 && |r.drandSignature| == 48 && |r.agentPubkey| == 32
               && (mode == 1 ==> 0 <= seqIndex < 0x1_0000 && (seqIndex > 0 ==> |prevSig| == 48)))
    ensures InputOf(c, r, mode, seqIndex, prevSig).Ok? <==> WitnessInputError(r, mode, seqIndex, prevSig).None?
    ensures InputOf(c, r, mode, seqIndex, prevSig).Ok? ==>
              InputOf(c, r, mode, seqIndex, prevSig).value == c.sha3(WitnessPreimage(r, mode, seqIndex, prevSig))
  {
    hide WitnessPreimage;
  }

  /** Where each field of an operation lies; both encodings carry it in this form. */
  lemma {:induction false} OperationLayout(r: Request)
    requires Encodable(r)
    ensures var b, o, l := OperationBytes(r), |r.opID|, |r.drandChain|;
            && |b| == 92 + o + l
            && b[..2] == U16(o) && b[2..2 + o] == r.opID
            && b[2 + o..34 + o] == r.opHash
            && b[34 + o..36 + o] == U16(l) && b[36 + o..36 + o + l] == r.drandChain
            && b[36 + o + l..44 + o + l] == U64(r.drandRound)
            && b[44 + o + l..] == r.drandSignature
  {
    hide U16, U64;
  }

  lemma {:induction false} AgentLayout(r: Request)
    requires Encodable(r)
    ensures var b, n := AgentBytes(r), |OperationBytes(r)|;
            && |b| == 35 + n
            && b[..27] == Ascii("963causal-DAQ-V1|agent-req|")
            && b[27..27 + n] == OperationBytes(r)
            && b[27 + n..] == U64(r.requestedAtMs)
  {
    hide U64, Prefixed16;
    var head := DOMAIN + AGENT_TAG;
    assert head == Ascii("963causal-DAQ-V1|agent-req|");
    assert AgentBytes(r) == head + (OperationBytes(r) + U64(r.requestedAtMs));
  }

  lemma {:induction false} PreimageLayout(r: Request, mode: Byte, seqIndex: int, prevSig: Bytes)
    requires |r.agentPubkey| == 32
    ensures var b, n := WitnessPreimage(r, mode, seqIndex, prevSig), |OperationBytes(r)|;
            && |b| >= 58 + n
            && b[..25] == Ascii("963causal-DAQ-V1|witness|") && b[25] == mode
            && b[26..26 + n] == OperationBytes(r)
            && b[26 + n..58 + n] == r.agentPubkey
            && b[58 + n..] == if mode != 1 then [] else U16(seqIndex) + if seqIndex > 0 then prevSig else []
  {
    hide U16, U64, Prefixed16, OperationBytes, SequenceBytes;
    var head := DOMAIN + WITNESS_TAG;
    assert head == Ascii("963causal-DAQ-V1|witness|");
    PreimageShape(r, mode, seqIndex, prevSig);
    var op, tail := OperationBytes(r), SequenceBytes(mode, seqIndex, prevSig);
    Slices(head, mode, op, r.agentPubkey, tail);
    SequenceMeaning(mode, seqIndex, prevSig);
  }

  lemma {:induction false} SequenceMeaning(mode: Byte, seqIndex: int, prevSig: Bytes)
    ensures SequenceBytes(mode, seqIndex, prevSig)
         == if mode != 1 then [] else U16(seqIndex) + if seqIndex > 0 then prevSig else []
  {
  }

  lemma {:induction false} Slices(head: Bytes, mode: Byte, op: Bytes, key: Bytes, tail: Bytes)
    ensures var b, h, n := head + ([mode] + (op + (key + tail))), |head|, |op|;
            && b[..h] == head && b[h] == mode && b[h + 1..h + 1 + n] == op
            && b[h + 1 + n..h + 1 + n + |key|] == key && b[h + 1 + n + |key|..] == tail
  {
  }
}
