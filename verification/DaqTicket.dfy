/** The ticket verifier, and its agreement with the client that built the ticket. */
module DaqTicket {
  import opened Bits
  import opened Combinatorics
  import opened Crypto
  import opened DaqClient
  import opened DaqMask
  import opened DaqProtocol
  import opened DaqSequential
  import opened Encoding
  import opened Wrappers

  datatype VerifyError =
    | AgentRefused(protocol: ProtocolError)
    | ThresholdRange
    | MissingAggregate
    | InputRefused(protocol: ProtocolError)
    | AggregateRejected(mask: MaskError)
    | ChainTooShort
    | WitnessOutOfRoster
    | DuplicateWitness
    | PubkeyMismatch
    | WitnessSigInvalid
    | BadMode

  /** First problem with the chain from hop j on. The verifier numbers hops by their position in the ticket. */
  function ChainError(c: Primitives, b: Bdn, t: Ticket, roster: Roster, j: nat): Option<VerifyError>
    requires j <= |t.witnesses|
    decreases |t.witnesses| - j
  {
    if j == |t.witnesses| then None
    else
      var ws := t.witnesses[j];
      if ws.witnessIndex < 0 || ws.witnessIndex >= |roster| then Some(WitnessOutOfRoster)
      else if exists i :: 0 <= i < j && t.witnesses[i].witnessIndex == ws.witnessIndex then Some(DuplicateWitness)
      else if ws.pubkey != MarshalOf(b, roster[ws.witnessIndex]) then Some(PubkeyMismatch)
      else match InputOf(c, t.request, MODE_SEQUENTIAL, j, PrevOf(t.witnesses, j))
           case Err(e) => Some(InputRefused(e))
           case Ok(input) =>
             if !IndividualValid(b, roster[ws.witnessIndex], input, ws.signature) then Some(WitnessSigInvalid)
             else ChainError(c, b, t, roster, j + 1)
  }

  function TicketError(c: Primitives, b: Bdn, t: Ticket, roster: Roster): Option<VerifyError> {
    var agent := AgentSignatureError(c, t.request);
    if agent.Some? then Some(AgentRefused(agent.value))
    else if t.threshold < 1 || t.threshold > |roster| then Some(ThresholdRange)
    else if t.mode == MODE_PARALLEL then
      if |t.aggSignature| == 0 || |t.aggMask| == 0 then Some(MissingAggregate)
      else match InputOf(c, t.request, MODE_PARALLEL, 0, [])
           case Err(e) => Some(InputRefused(e))
           case Ok(input) =>
             var refused := AggregateError(b, roster, t.aggMask, t.aggSignature, input, t.threshold);
             if refused.Some? then Some(AggregateRejected(refused.value)) else None
    else if t.mode == MODE_SEQUENTIAL then
      if |t.witnesses| < t.threshold then Some(ChainTooShort) else ChainError(c, b, t, roster, 0)
    else Some(BadMode)
  }

  method VerifyTicket(c: Primitives, b: Bdn, t: Ticket, roster: Roster) returns (r: Option<VerifyError>)
    ensures r == TicketError(c, b, t, roster)
  {
    hide AgentSignatureError, InputOf, AggregateError;
    var agent := VerifyAgentSignature(c, t.request);
    if agent.Some? {
      return Some(AgentRefused(agent.value));
    }
    if t.threshold < 1 || t.threshold > |roster| {
      return Some(ThresholdRange);
    }
    if t.mode == MODE_PARALLEL {
      if |t.aggSignature| == 0 || |t.aggMask| == 0 {
        return Some(MissingAggregate);
      }
      var input := WitnessInput(c, t.request, MODE_PARALLEL, 0, []);
      if input.Err? {
        return Some(InputRefused(input.error));
      }
      var refused := VerifyAggregate(b, roster, t.aggMask, t.aggSignature, input.value, t.threshold);
      r := if refused.Some? then Some(AggregateRejected(refused.value)) else None;
    } else if t.mode == MODE_SEQUENTIAL {
      if |t.witnesses| < t.threshold {
        return Some(ChainTooShort);
      }
      var prevSig: Bytes := [];
      var seenIdx: set<int> := {};
      for j := 0 to |t.witnesses|
        invariant prevSig == PrevOf(t.witnesses, j)
        invariant forall x :: x in seenIdx <==> exists i :: 0 <= i < j && t.witnesses[i].witnessIndex == x
        invariant ChainError(c, b, t, roster, 0) == ChainError(c, b, t, roster, j)
      {
        var ws := t.witnesses[j];
        if ws.witnessIndex < 0 || ws.witnessIndex >= |roster| {
          return Some(WitnessOutOfRoster);
        }
        if ws.witnessIndex in seenIdx {
          return Some(DuplicateWitness);
        }
        seenIdx := seenIdx + {ws.witnessIndex};
        if ws.pubkey != MarshalOf(b, roster[ws.witnessIndex]) {
          return Some(PubkeyMismatch);
        }
        var input := WitnessInput(c, t.request, MODE_SEQUENTIAL, j, prevSig);
        if input.Err? {
          return Some(InputRefused(input.error));
        }
        if !IndividualValid(b, roster[ws.witnessIndex], input.value, ws.signature) {
          return Some(WitnessSigInvalid);
        }
        prevSig := ws.signature;
      }
      r := None;
    } else {
      r := Some(BadMode);
    }
  }

  // Parallel tickets

  lemma {:induction false} PickedAligned(c: Primitives, b: Bdn, cfg: ClientConfig, req: Request,
                                         posts: seq<Option<Bytes>>, input: Bytes)
    requires ConfigError(cfg).None? && |posts| == |cfg.roster|
    requires |GoodWitnesses(c, b, cfg, req, posts)| >= cfg.threshold
    requires InputOf(c, req, MODE_PARALLEL, 0, []) == Ok(input)
    ensures cfg.threshold >= 1 && NoNil(Keys(SortedRoster(cfg.roster)))
    ensures var roster := SortedRoster(cfg.roster);
            var good := GoodWitnesses(c, b, cfg, req, posts)[..cfg.threshold];
            var picked := Replies(roster, posts, good);
            && IndexesOf(picked) == good
            && Enabled(MaskOf(good, |roster|), |roster|) == good
            && AlignedSignatures(b, Points(Keys(roster)), MaskOf(good, |roster|), SignaturesOf(picked), input)
  {
    hide Enabled, MaskOf, InputOf, ConfigError, SortedRoster, GoodSlots;
    AcceptedConfig(cfg);
    var roster := SortedRoster(cfg.roster);
    var good := GoodWitnesses(c, b, cfg, req, posts);
    GoodSlotsMeaning(c, b, roster, req, posts, |roster|);
    var slots := good[..cfg.threshold];
    var picked := Replies(roster, posts, slots);
    forall i | 0 <= i < |slots|
      ensures GoodReply(c, b, roster, req, posts, slots[i]) && roster[slots[i]].index == slots[i]
    {
      assert good[i] in good;
    }
    assert IndexesOf(picked) == slots;
    MaskOfMeaning(slots, |roster|);
    EnabledOfAscending(MaskOf(slots, |roster|), |roster|, slots);
    forall i | 0 <= i < |slots|
      ensures b.verify(Points(Keys(roster))[slots[i]], input, SignaturesOf(picked)[i])
    {
      assert GoodReply(c, b, roster, req, posts, slots[i]);
    }
  }

  /**
   Whatever the order of arrival and whichever witnesses fail: a parallel round succeeds exactly when at least
   threshold witnesses gave a good reply, its mask names the lowest of them, and the verifier accepts the ticket
   exactly when the agent's own signature is valid.
   */
  lemma {:induction false} ParallelTicketVerifies(c: Primitives, b: Bdn, cfg: ClientConfig, req: Request,
                                                  posts: seq<Option<Bytes>>, now: Int64)
    requires ConfigError(cfg).None? && |posts| == |cfg.roster| && BdnSound(b)
    ensures ParallelOutcome(c, b, cfg, req, posts, now).Ok?
       <==> |GoodWitnesses(c, b, cfg, req, posts)| >= cfg.threshold
    ensures ParallelOutcome(c, b, cfg, req, posts, now).Ok? ==>
              var t := ParallelOutcome(c, b, cfg, req, posts, now).value;
              && ParticipantsOf(Keys(SortedRoster(cfg.roster)), t.aggMask)
                 == Ok(GoodWitnesses(c, b, cfg, req, posts)[..cfg.threshold])
              && (TicketError(c, b, t, Keys(SortedRoster(cfg.roster))).None? <==> AgentSignatureError(c, req).None?)
  {
    hide Enabled, MaskOf, InputOf, ConfigError, SortedRoster, AgentSignatureError, AlignedSignatures, GoodSlots;
    AcceptedConfig(cfg);
    var roster := SortedRoster(cfg.roster);
    var good := GoodWitnesses(c, b, cfg, req, posts);
    if |good| >= cfg.threshold {
      GoodSlotsMeaning(c, b, roster, req, posts, |roster|);
      assert good[0] in good;
      var input := InputOf(c, req, MODE_PARALLEL, 0, []).value;
      PickedAligned(c, b, cfg, req, posts, input);
      var slots := good[..cfg.threshold];
      var picked := Replies(roster, posts, slots);
      assert Replies(roster, posts, good)[..cfg.threshold] == picked;
      var agg := b.aggregate(Points(Keys(roster)), MaskOf(slots, |roster|), SignaturesOf(picked));
      assert agg.Some? && |agg.value| == BDN_SIGNATURE_SIZE;
    }
  }

  /** The i-th witness record of a returned ticket is that of the i-th good slot, with the reply it posted. */
  lemma {:induction false} ParallelTicketContents(c: Primitives, b: Bdn, cfg: ClientConfig, req: Request,
                                                  posts: seq<Option<Bytes>>, now: Int64)
    requires ConfigError(cfg).None? && |posts| == |cfg.roster|
    requires ParallelOutcome(c, b, cfg, req, posts, now).Ok?
    ensures var t, roster := ParallelOutcome(c, b, cfg, req, posts, now).value, SortedRoster(cfg.roster);
            var good := GoodWitnesses(c, b, cfg, req, posts);
            && t.request == req && t.mode == 0 && t.threshold == cfg.threshold && t.rosterSize == |cfg.roster|
            && t.createdAtMs == now && |t.witnesses| == cfg.threshold <= |good|
            && forall i :: 0 <= i < cfg.threshold ==>
                 var key, post := roster[good[i]].pubkey, posts[good[i]];
                 && key.Some? && post.Some?
                 && t.witnesses[i] == WitnessSignature(good[i], b.marshal(key.value), post.value)
  {
    hide Enabled, MaskOf, InputOf, ConfigError, SortedRoster, GoodSlots;
    AcceptedConfig(cfg);
    var roster := SortedRoster(cfg.roster);
    var good := GoodWitnesses(c, b, cfg, req, posts);
    GoodSlotsMeaning(c, b, roster, req, posts, |roster|);
    forall i | 0 <= i < |good| ensures GoodReply(c, b, roster, req, posts, good[i]) {
      assert good[i] in good;
    }
  }

  // Sequential tickets

  /** Hop j of an accepted chain. */
  ghost predicate HopAccepted(c: Primitives, b: Bdn, t: Ticket, roster: Roster, j: nat)
    requires j < |t.witnesses|
  {
    var ws := t.witnesses[j];
    var input := InputOf(c, t.request, MODE_SEQUENTIAL, j, PrevOf(t.witnesses, j));
    && 0 <= ws.witnessIndex < |roster| && ws.pubkey == MarshalOf(b, roster[ws.witnessIndex])
    && input.Ok? && IndividualValid(b, roster[ws.witnessIndex], input.value, ws.signature)
  }

  ghost predicate NewSigner(t: Ticket, j: nat)
    requires j < |t.witnesses|
  {
    forall i :: 0 <= i < j ==> t.witnesses[i].witnessIndex != t.witnesses[j].witnessIndex
  }

  lemma {:induction false} ChainErrorMeaning(c: Primitives, b: Bdn, t: Ticket, roster: Roster, j: nat)
    requires j <= |t.witnesses|
    ensures ChainError(c, b, t, roster, j).None?
       <==> forall i :: j <= i < |t.witnesses| ==> HopAccepted(c, b, t, roster, i) && NewSigner(t, i)
    decreases |t.witnesses| - j
  {
    hide InputOf, MarshalOf, IndividualValid;
    if j < |t.witnesses| {
      ChainErrorMeaning(c, b, t, roster, j + 1);
      if HopAccepted(c, b, t, roster, j) && NewSigner(t, j) {
        assert ChainError(c, b, t, roster, j) == ChainError(c, b, t, roster, j + 1);
      } else {
        assert ChainError(c, b, t, roster, j).Some?;
      }
    }
  }

  /** Hop j carries its slot's key and a signature of the hashed preimage over hop number and previous signature. */
  ghost predicate HopSigned(c: Primitives, b: Bdn, t: Ticket, roster: Roster, j: nat)
    requires j < |t.witnesses|
  {
    var ws := t.witnesses[j];
    var prevSig := if j == 0 then [] else t.witnesses[j - 1].signature;
    && 0 <= ws.witnessIndex < |roster| && roster[ws.witnessIndex].Some?
    && ws.pubkey == b.marshal(roster[ws.witnessIndex].value)
    && j < 0x1_0000 && (j > 0 ==> |prevSig| == 48)
    && b.verify(roster[ws.witnessIndex].value, c.sha3(WitnessPreimage(t.request, 1, j, prevSig)), ws.signature)
  }

  /** The aggregate verifies, over enough keys of a full roster, for the hashed parallel preimage. */
  ghost predicate AggregateSigned(c: Primitives, b: Bdn, t: Ticket, roster: Roster) {
    && NoNil(roster) && |t.aggSignature| == 48 && |t.aggMask| == (|roster| + 7) / 8
    && t.threshold <= |EnabledSet(t.aggMask, |roster|)|
    && b.verifyAggregate(Points(roster), t.aggMask, t.aggSignature, c.sha3(WitnessPreimage(t.request, 0, 0, [])))
  }

  /** The signers of the hops, one slot each. */
  ghost predicate ChainSigned(c: Primitives, b: Bdn, t: Ticket, roster: Roster) {
    && |t.witnesses| >= t.threshold && (forall j :: 0 <= j < |t.witnesses| ==> HopSigned(c, b, t, roster, j))
    && forall i, j :: 0 <= i < j < |t.witnesses| ==> t.witnesses[i].witnessIndex != t.witnesses[j].witnessIndex
  }

  lemma {:induction false} HopAcceptedMeaning(c: Primitives, b: Bdn, t: Ticket, roster: Roster, j: nat)
    requires j < |t.witnesses| && SignedByAgent(c, t.request)
    ensures HopAccepted(c, b, t, roster, j) <==> HopSigned(c, b, t, roster, j)
  {
    hide WitnessPreimage, AgentBytes;
    WitnessInputMeaning(c, t.request, 1, j, PrevOf(t.witnesses, j));
  }

  /** What a verifier that accepts has established, and all it takes for it to accept. */
  lemma {:induction false} TicketErrorMeaning(c: Primitives, b: Bdn, t: Ticket, roster: Roster)
    ensures TicketError(c, b, t, roster).None? <==>
              (&& SignedByAgent(c, t.request) && 1 <= t.threshold <= |roster|
               && ((t.mode == 0 && AggregateSigned(c, b, t, roster)) || (t.mode == 1 && ChainSigned(c, b, t, roster))))
  {
    hide WitnessPreimage, AgentBytes, InputOf, AggregateError, AgentSignatureError, ChainError, HopAccepted, HopSigned;
    AgentSignatureMeaning(c, t.request);
    if SignedByAgent(c, t.request) && 1 <= t.threshold <= |roster| {
      if t.mode == 0 {
        WitnessInputMeaning(c, t.request, 0, 0, []);
        var input := InputOf(c, t.request, 0, 0, []);
        AggregateErrorMeaning(b, roster, t.aggMask, t.aggSignature, input.value, t.threshold);
      } else if t.mode == 1 {
        ChainErrorMeaning(c, b, t, roster, 0);
        forall j | 0 <= j < |t.witnesses| ensures HopAccepted(c, b, t, roster, j) <==> HopSigned(c, b, t, roster, j) {
          HopAcceptedMeaning(c, b, t, roster, j);
        }
        ChainSigners(t);
      }
    }
  }

  lemma {:induction false} ChainSigners(t: Ticket)
    ensures (forall j :: 0 <= j < |t.witnesses| ==> NewSigner(t, j)) <==>
              forall i, j :: 0 <= i < j < |t.witnesses| ==> t.witnesses[i].witnessIndex != t.witnesses[j].witnessIndex
  {
    if forall j :: 0 <= j < |t.witnesses| ==> NewSigner(t, j) {
      forall i, j | 0 <= i < j < |t.witnesses| ensures t.witnesses[i].witnessIndex != t.witnesses[j].witnessIndex {
        assert NewSigner(t, j);
      }
    }
  }

  /** The slots of the mask bits set, or of the chain's signers. */
  ghost function SignerSlots(t: Ticket, roster: Roster): set<int> {
    if t.mode == MODE_PARALLEL then EnabledSet(t.aggMask, |roster|)
    else set j | 0 <= j < |t.witnesses| :: t.witnesses[j].witnessIndex
  }

  /**
   Whoever made it: in an accepted ticket the agent's signature verifies and at least the ticket's own threshold of
   different roster slots stand behind one verifying aggregate or each with a verifying signature over its hop. The
   threshold is the ticket's field; nothing compares it with the deployment's.
   */
  lemma {:induction false} AcceptedTicketEvidence(c: Primitives, b: Bdn, t: Ticket, roster: Roster)
    requires TicketError(c, b, t, roster).None?
    ensures SignedByAgent(c, t.request) && 1 <= t.threshold <= |SignerSlots(t, roster)|
    ensures SignerSlots(t, roster) <= Range(|roster|)
    ensures t.mode == MODE_PARALLEL ==> AggregateSigned(c, b, t, roster)
    ensures t.mode != MODE_PARALLEL ==>
              t.mode == MODE_SEQUENTIAL && forall j :: 0 <= j < |t.witnesses| ==> HopSigned(c, b, t, roster, j)
  {
    hide AgentSignatureError, TicketError, SignedByAgent, HopSigned, BitOf;
    TicketErrorMeaning(c, b, t, roster);
    if t.mode != MODE_PARALLEL {
      var slots := seq(|t.witnesses|, j requires 0 <= j < |t.witnesses| => t.witnesses[j].witnessIndex);
      DistinctSize(slots);
      assert Elements(slots) == SignerSlots(t, roster) by {
        assert forall j :: 0 <= j < |slots| ==> slots[j] == t.witnesses[j].witnessIndex;
      }
      forall j | 0 <= j < |t.witnesses| ensures 0 <= t.witnesses[j].witnessIndex < |roster| {
        SignerInRoster(c, b, t, roster, j);
      }
    }
  }

  lemma {:induction false} SignerInRoster(c: Primitives, b: Bdn, t: Ticket, roster: Roster, j: nat)
    requires j < |t.witnesses| && HopSigned(c, b, t, roster, j)
    ensures 0 <= t.witnesses[j].witnessIndex < |roster|
  {
    hide WitnessPreimage;
  }

  /** A witness answers only requests whose agent signature and signing input it finds well formed. */
  ghost predicate Honest(c: Primitives, req: Request, post: Post) {
    forall i: nat, p :: post(i, p).Some? ==>
      WitnessInputError(req, MODE_SEQUENTIAL, i, p).None? && AgentSignatureError(c, req).None?
  }

  ghost predicate SignsHop(c: Primitives, b: Bdn, req: Request, key: PublicKey, i: int, p: Bytes, s: Bytes) {
    && WitnessInputError(req, MODE_SEQUENTIAL, i, p).None?
    && b.verify(key, c.sha3(WitnessPreimage(req, MODE_SEQUENTIAL, i, p)), s)
  }

  /** No signature counts for two hop numbers over the same previous signature. */
  ghost predicate HopBound(c: Primitives, b: Bdn, req: Request) {
    forall key, i, j, p, s :: SignsHop(c, b, req, key, i, p, s) && SignsHop(c, b, req, key, j, p, s) ==> i == j
  }

  /** A signature fits at most one message under a key. */
  ghost predicate OneMessage(b: Bdn) {
    forall key, m, n, s :: b.verify(key, m, s) && b.verify(key, n, s) ==> m == n
  }

  /** The hash keeps the hop inputs over one previous signature apart. */
  ghost predicate HopHashesDiffer(c: Primitives, req: Request) {
    forall i, j, p ::
      var m, n := WitnessPreimage(req, MODE_SEQUENTIAL, i, p), WitnessPreimage(req, MODE_SEQUENTIAL, j, p);
      c.sha3(m) == c.sha3(n) ==> m == n
  }

  /** The encoding does its part: it is the hop number in the preimage that keeps hops apart. */
  lemma {:induction false} HopsAreBound(c: Primitives, b: Bdn, req: Request)
    requires |req.opID| < TWO_16 && |req.drandChain| < TWO_16
    requires OneMessage(b) && HopHashesDiffer(c, req)
    ensures HopBound(c, b, req)
  {
    hide WitnessPreimage, WitnessInputError;
    forall key, i, j, p, s | SignsHop(c, b, req, key, i, p, s) && SignsHop(c, b, req, key, j, p, s) ensures i == j {
      assert c.sha3(WitnessPreimage(req, MODE_SEQUENTIAL, i, p)) == c.sha3(WitnessPreimage(req, MODE_SEQUENTIAL, j, p));
      WitnessPreimageInjective(req, MODE_SEQUENTIAL, i, p, req, MODE_SEQUENTIAL, j, p);
    }
  }

  /** The signers are slots 0, 1, 2, ... with none left out. */
  ghost predicate NoHopSkipped(t: Ticket) {
    forall j :: 0 <= j < |t.witnesses| ==> t.witnesses[j].witnessIndex == j
  }

  /**
   A sequential ticket verifies exactly when no hop was skipped: the client numbers hops by roster slot, the
   verifier by position in the ticket. The first signer is always slot 0.
   */
  lemma {:induction false} SequentialTicketVerifies(c: Primitives, b: Bdn, cfg: ClientConfig, req: Request,
                                                    post: Post, now: Int64)
    requires ConfigError(cfg).None? && Honest(c, req, post) && HopBound(c, b, req)
    requires SequentialOutcome(c, b, cfg, req, post, now).Ok?
    ensures var t := SequentialOutcome(c, b, cfg, req, post, now).value;
            && |t.witnesses| == cfg.threshold && t.witnesses[0].witnessIndex == 0
            && (TicketError(c, b, t, Keys(SortedRoster(cfg.roster))).None? <==> NoHopSkipped(t))
  {
    hide WitnessInputError, AgentSignatureError, WitnessPreimage, ConfigError, SortedRoster, Walk, MarshalOf,
         ChainError, HopAccepted, NewSigner;
    AcceptedConfig(cfg);
    var roster := SortedRoster(cfg.roster);
    var t := SequentialOutcome(c, b, cfg, req, post, now).value;
    var chain := t.witnesses;
    WalkMeaning(c, b, roster, req, post, cfg.threshold, 0, []);
    assert HopOk(c, b, roster, req, post, chain, 0);
    FirstHop(c, req, post, chain[0].witnessIndex);
    ChainErrorMeaning(c, b, t, Keys(roster), 0);
    if NoHopSkipped(t) {
      forall j | 0 <= j < |chain| ensures HopAccepted(c, b, t, Keys(roster), j) && NewSigner(t, j) {
        StraightHopAccepted(c, b, roster, req, post, t, j);
      }
    } else if TicketError(c, b, t, Keys(roster)).None? {
      var j :| 0 <= j < |chain| && chain[j].witnessIndex != j;
      AcceptedHopInPlace(c, b, roster, req, post, t, j);
      assert false;
    }
  }

  lemma {:induction false} FirstHop(c: Primitives, req: Request, post: Post, slot: int)
    requires Honest(c, req, post) && slot >= 0 && post(slot, []).Some?
    ensures slot == 0
  {
    hide AgentSignatureError;
  }

  lemma {:induction false} StraightHopAccepted(c: Primitives, b: Bdn, roster: seq<RosterEntry>, req: Request,
                                               post: Post, t: Ticket, j: nat)
    requires Honest(c, req, post) && t.request == req && j < |t.witnesses| && NoHopSkipped(t)
    requires HopOk(c, b, roster, req, post, t.witnesses, j)
    ensures HopAccepted(c, b, t, Keys(roster), j) && NewSigner(t, j)
  {
    hide WitnessInputError, AgentSignatureError, WitnessPreimage;
  }

  lemma {:induction false} AcceptedHopInPlace(c: Primitives, b: Bdn, roster: seq<RosterEntry>, req: Request,
                                              post: Post, t: Ticket, j: nat)
    requires Honest(c, req, post) && HopBound(c, b, req) && t.request == req && j < |t.witnesses|
    requires HopOk(c, b, roster, req, post, t.witnesses, j) && HopAccepted(c, b, t, Keys(roster), j)
    ensures t.witnesses[j].witnessIndex == j
  {
    hide WitnessInputError, AgentSignatureError, WitnessPreimage;
    var key := roster[t.witnesses[j].witnessIndex].pubkey.value;
    var prevSig, sig := PrevOf(t.witnesses, j), t.witnesses[j].signature;
    assert SignsHop(c, b, req, key, t.witnesses[j].witnessIndex, prevSig, sig);
    assert SignsHop(c, b, req, key, j, prevSig, sig);
  }

  /** One silent witness among the first threshold slots spoils the round, however many others answer. */
  lemma {:induction false} SilentWitnessSpoilsChain(c: Primitives, b: Bdn, cfg: ClientConfig, req: Request,
                                                    post: Post, now: Int64, silent: nat)
    requires ConfigError(cfg).None? && Honest(c, req, post) && HopBound(c, b, req)
    requires silent < cfg.threshold && forall p :: post(silent, p).None?
    ensures var outcome := SequentialOutcome(c, b, cfg, req, post, now);
            outcome.Ok? ==> TicketError(c, b, outcome.value, Keys(SortedRoster(cfg.roster))).Some?
  {
    hide WitnessInputError, AgentSignatureError, WitnessPreimage, ConfigError, SortedRoster, Walk, TicketError, Honest,
         HopBound;
    var outcome := SequentialOutcome(c, b, cfg, req, post, now);
    if outcome.Ok? {
      AcceptedConfig(cfg);
      var roster, chain := SortedRoster(cfg.roster), outcome.value.witnesses;
      WalkMeaning(c, b, roster, req, post, cfg.threshold, 0, []);
      SequentialTicketVerifies(c, b, cfg, req, post, now);
      assert HopOk(c, b, roster, req, post, chain, silent);
    }
  }
}
