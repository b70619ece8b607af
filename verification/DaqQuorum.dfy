/** Whole attestation rounds: when what the client returns passes the verifier, read off the witnesses' replies. */
module DaqQuorum {
  import opened Crypto
  import opened DaqClient
  import opened DaqMask
  import opened DaqProtocol
  import opened DaqSequential
  import opened DaqTicket
  import opened Encoding
  import opened Sorting
  import opened Wrappers

  /** The previous signature slot j's witness is handed when no slot before it is skipped. */
  function Handed(post: Post, j: nat): Bytes {
    if j == 0 then [] else SignatureOf(post(j - 1, Handed(post, j - 1)))
  }

  /** Handed the signature of slot j - 1, slot j replies with a signature of its own hop. */
  ghost predicate HopAnswered(c: Primitives, b: Bdn, roster: seq<RosterEntry>, req: Request, post: Post, j: nat)
    requires j < |roster|
  {
    var reply := post(j, Handed(post, j));
    && WellFormedReply(reply) && roster[j].pubkey.Some?
    && SignsHop(c, b, req, roster[j].pubkey.value, j, Handed(post, j), reply.value)
  }

  /** None of the first k slots is skipped. */
  ghost predicate FirstHopsAnswered(c: Primitives, b: Bdn, roster: seq<RosterEntry>, req: Request, post: Post, k: int) {
    k <= |roster| && forall j :: 0 <= j < k ==> HopAnswered(c, b, roster, req, post, j)
  }

  /** What a signature is checked on when collected, hop number errors included, fits one hop only when verified. */
  ghost predicate InputBound(c: Primitives, b: Bdn, req: Request) {
    forall key, i: nat, j: nat, p, s ::
      b.verify(key, ClientInput(c, req, i, p), s) && SignsHop(c, b, req, key, j, p, s) ==> i == j
  }

  /** As for HopsAreBound; the client's stand-in for a refused input, no bytes at all, is no digest. */
  lemma {:induction false} InputsAreBound(c: Primitives, b: Bdn, req: Request)
    requires |req.opID| < TWO_16 && |req.drandChain| < TWO_16
    requires OneMessage(b) && HopHashesDiffer(c, req) && forall m :: c.sha3(m) != []
    ensures InputBound(c, b, req)
  {
    hide WitnessPreimage, WitnessInputError;
    HopsAreBound(c, b, req);
    forall key, i: nat, j: nat, p, s |
      b.verify(key, ClientInput(c, req, i, p), s) && SignsHop(c, b, req, key, j, p, s)
      ensures i == j
    {
      if WitnessInputError(req, MODE_SEQUENTIAL, i, p).None? {
        assert SignsHop(c, b, req, key, i, p, s);
      } else {
        assert false;
      }
    }
  }

  // The walk along answered hops

  /** The chain of the first i slots, each signature the next one's previous. */
  ghost predicate StraightTo(post: Post, chain: seq<WitnessSignature>, i: nat) {
    && |chain| == i && LastSignature(chain) == Handed(post, i)
    && forall j :: 0 <= j < i ==> chain[j].witnessIndex == j
  }

  lemma {:induction false} AnsweredWalk(c: Primitives, b: Bdn, roster: seq<RosterEntry>, req: Request, post: Post,
                                        k: nat, i: nat, chain: seq<WitnessSignature>)
    requires Indexed(roster) && i < k <= |roster| && FirstHopsAnswered(c, b, roster, req, post, k)
    requires StraightTo(post, chain, i)
    ensures StraightTo(post, Walk(c, b, roster, req, post, k, i, chain), k)
    decreases k - i
  {
    hide WitnessPreimage, WitnessInputError, MarshalOf;
    assert HopAnswered(c, b, roster, req, post, i);
    var reply := post(i, Handed(post, i));
    assert HopValid(c, b, roster, req, i, Handed(post, i), reply.value);
    assert roster[i].index == i;
    var longer := chain + [HopRecord(b, roster[i], reply.value)];
    assert StraightTo(post, longer, i + 1);
    if i + 1 < k {
      AnsweredWalk(c, b, roster, req, post, k, i + 1, longer);
    }
  }

  /** A straight chain that the walk built hands each slot the signature of the one before. */
  lemma {:induction false} StraightHanded(c: Primitives, b: Bdn, roster: seq<RosterEntry>, req: Request, post: Post,
                                          chain: seq<WitnessSignature>, j: nat)
    requires WalkedTo(c, b, roster, req, post, chain, |roster|) && j <= |chain|
    requires forall i :: 0 <= i < |chain| ==> chain[i].witnessIndex == i
    ensures PrevOf(chain, j) == Handed(post, j)
  {
    hide HopValid, MarshalOf;
    if j > 0 {
      StraightHanded(c, b, roster, req, post, chain, j - 1);
      assert HopOk(c, b, roster, req, post, chain, j - 1);
    }
  }

  /**
   The exact condition, on the replies, for a sequential round to yield a ticket that verifies: the agent's signature
   is valid and each of the first k slots signs its own hop over the signature handed on by the slot before. Nothing
   is assumed of the witnesses; any of them may stay silent or reply with anything.
   */
  lemma {:induction false} SequentialRoundVerifies(c: Primitives, b: Bdn, cfg: ClientConfig, req: Request, post: Post,
                                                   now: Int64)
    requires ConfigError(cfg).None? && InputBound(c, b, req)
    ensures var roster := SortedRoster(cfg.roster);
            var outcome := SequentialOutcome(c, b, cfg, req, post, now);
            (outcome.Ok? && TicketError(c, b, outcome.value, Keys(roster)).None?)
            <==> (AgentSignatureError(c, req).None? && FirstHopsAnswered(c, b, roster, req, post, cfg.threshold))
  {
    hide AgentSignatureError, ConfigError, SortedRoster, Walk, TicketError, InputBound, Handed, FirstHopsAnswered,
         WalkedTo;
    AcceptedConfig(cfg);
    var roster, k := SortedRoster(cfg.roster), cfg.threshold;
    var outcome := SequentialOutcome(c, b, cfg, req, post, now);
    WalkStart(c, b, roster, req, post);
    WalkMeaning(c, b, roster, req, post, k, 0, []);
    if AgentSignatureError(c, req).None? && FirstHopsAnswered(c, b, roster, req, post, k) {
      AnsweredWalk(c, b, roster, req, post, k, 0, []);
      AnsweredAccepted(c, b, roster, req, post, outcome.value);
    }
    if outcome.Ok? && TicketError(c, b, outcome.value, Keys(roster)).None? {
      AcceptedAnswered(c, b, roster, req, post, outcome.value);
    }
  }

  lemma {:induction false} WalkStart(c: Primitives, b: Bdn, roster: seq<RosterEntry>, req: Request, post: Post)
    ensures StraightTo(post, [], 0) && WalkedTo(c, b, roster, req, post, [], 0)
  {
  }

  lemma {:induction false} AcceptedAnswered(c: Primitives, b: Bdn, roster: seq<RosterEntry>, req: Request, post: Post,
                                            t: Ticket)
    requires InputBound(c, b, req) && t.request == req && t.mode == MODE_SEQUENTIAL
    requires t.threshold == |t.witnesses| <= |roster| && WalkedTo(c, b, roster, req, post, t.witnesses, |roster|)
    requires TicketError(c, b, t, Keys(roster)).None?
    ensures AgentSignatureError(c, req).None? && FirstHopsAnswered(c, b, roster, req, post, t.threshold)
  {
    hide AgentSignatureError, ChainError, InputBound, SignsHop, Handed, HopOk, HopAccepted, NewSigner;
    ChainErrorMeaning(c, b, t, Keys(roster), 0);
    var chain := t.witnesses;
    forall j | 0 <= j < |chain|
      ensures HopInPlace(c, b, roster, req, chain, j) && post(j, PrevOf(chain, j)) == Some(chain[j].signature)
      ensures |chain[j].signature| == BDN_SIGNATURE_SIZE
    {
      AcceptedInPlace(c, b, roster, req, post, t, j);
    }
    forall j | 0 <= j < |chain| ensures HopAnswered(c, b, roster, req, post, j) {
      assert HopInPlace(c, b, roster, req, chain, j);
      forall i | 0 <= i < |chain| ensures chain[i].witnessIndex == i {
        assert HopInPlace(c, b, roster, req, chain, i);
      }
      StraightHanded(c, b, roster, req, post, chain, j);
    }
  }

  lemma {:induction false} NothingHanded(post: Post)
    ensures Handed(post, 0) == []
  {
  }

  /** Hop j is slot j's and carries that slot's signature of it. */
  ghost predicate HopInPlace(c: Primitives, b: Bdn, roster: seq<RosterEntry>, req: Request,
                             chain: seq<WitnessSignature>, j: nat)
    requires j < |roster|
  {
    && j < |chain| && chain[j].witnessIndex == j && roster[j].pubkey.Some?
    && SignsHop(c, b, req, roster[j].pubkey.value, j, PrevOf(chain, j), chain[j].signature)
  }

  lemma {:induction false} AcceptedInPlace(c: Primitives, b: Bdn, roster: seq<RosterEntry>, req: Request, post: Post,
                                           t: Ticket, j: nat)
    requires InputBound(c, b, req) && t.request == req && j < |t.witnesses| && j < |roster|
    requires HopOk(c, b, roster, req, post, t.witnesses, j) && HopAccepted(c, b, t, Keys(roster), j)
    ensures HopInPlace(c, b, roster, req, t.witnesses, j) && |t.witnesses[j].signature| == BDN_SIGNATURE_SIZE
    ensures post(j, PrevOf(t.witnesses, j)) == Some(t.witnesses[j].signature)
  {
    hide WitnessInputError, WitnessPreimage, ClientInput;
    var slot := t.witnesses[j].witnessIndex;
    var key := roster[slot].pubkey.value;
    var prevSig, sig := PrevOf(t.witnesses, j), t.witnesses[j].signature;
    assert SignsHop(c, b, req, key, j, prevSig, sig);
    assert b.verify(key, ClientInput(c, req, slot, prevSig), sig);
  }

  lemma {:induction false} AnsweredAccepted(c: Primitives, b: Bdn, roster: seq<RosterEntry>, req: Request, post: Post,
                                            t: Ticket)
    requires t.request == req && t.mode == MODE_SEQUENTIAL && AgentSignatureError(c, req).None?
    requires 1 <= t.threshold == |t.witnesses| <= |roster|
    requires WalkedTo(c, b, roster, req, post, t.witnesses, |roster|) && StraightTo(post, t.witnesses, |t.witnesses|)
    requires FirstHopsAnswered(c, b, roster, req, post, t.threshold)
    ensures TicketError(c, b, t, Keys(roster)).None?
  {
    hide AgentSignatureError, WitnessInputError, WitnessPreimage, MarshalOf, ChainError, Handed;
    ChainErrorMeaning(c, b, t, Keys(roster), 0);
    forall j | 0 <= j < |t.witnesses| ensures HopAccepted(c, b, t, Keys(roster), j) && NewSigner(t, j) {
      StraightHanded(c, b, roster, req, post, t.witnesses, j);
      assert HopAnswered(c, b, roster, req, post, j) && HopOk(c, b, roster, req, post, t.witnesses, j);
    }
  }

  // Which witnesses a round can do without

  /** Nothing is ever returned without slot 0: the others refuse a hop without a previous signature. */
  lemma {:induction false} FirstWitnessNeeded(c: Primitives, b: Bdn, cfg: ClientConfig, req: Request, post: Post,
                                              now: Int64)
    requires ConfigError(cfg).None? && Honest(c, req, post)
    ensures SequentialOutcome(c, b, cfg, req, post, now).Ok? ==>
              |cfg.roster| > 0 && HopAnswered(c, b, SortedRoster(cfg.roster), req, post, 0)
    ensures post(0, []).None? ==> SequentialOutcome(c, b, cfg, req, post, now) == Err(ChainStalled)
  {
    hide AgentSignatureError, WitnessPreimage, ConfigError, SortedRoster, Walk, MarshalOf;
    AcceptedConfig(cfg);
    var roster := SortedRoster(cfg.roster);
    var outcome := SequentialOutcome(c, b, cfg, req, post, now);
    WalkMeaning(c, b, roster, req, post, cfg.threshold, 0, []);
    NothingHanded(post);
    if outcome.Ok? {
      assert HopOk(c, b, roster, req, post, outcome.value.witnesses, 0);
      FirstHop(c, req, post, outcome.value.witnesses[0].witnessIndex);
    }
  }

  /** Slot i's witness signs whatever well-formed hop it is handed. */
  ghost predicate Answers(c: Primitives, b: Bdn, key: Option<PublicKey>, req: Request, post: Post, i: nat) {
    forall p :: WitnessInputError(req, MODE_SEQUENTIAL, i, p).None? ==>
      && WellFormedReply(post(i, p)) && key.Some?
      && SignsHop(c, b, req, key.value, i, p, post(i, p).value)
  }

  /** A well-formed request stays so from hop to hop, as long as the previous signature has its size. */
  lemma {:induction false} NextInputOk(req: Request, i: nat, p: Bytes)
    requires WitnessInputError(req, MODE_SEQUENTIAL, 0, []).None? && i <= 0xFFFF
    requires i > 0 ==> |p| == BDN_SIGNATURE_SIZE
    ensures WitnessInputError(req, MODE_SEQUENTIAL, i, p).None?
  {
  }

  lemma {:induction false} AnswersAlongHops(c: Primitives, b: Bdn, roster: seq<RosterEntry>, req: Request, post: Post,
                                            k: nat, j: nat)
    requires j < k <= |roster| && k <= 0x1_0000 && WitnessInputError(req, MODE_SEQUENTIAL, 0, []).None?
    requires forall i :: 0 <= i < k ==> Answers(c, b, roster[i].pubkey, req, post, i)
    ensures HopAnswered(c, b, roster, req, post, j)
  {
    hide WitnessPreimage, WitnessInputError;
    if j > 0 {
      AnswersAlongHops(c, b, roster, req, post, k, j - 1);
    }
    NextInputOk(req, j, Handed(post, j));
    assert Answers(c, b, roster[j].pubkey, req, post, j);
  }

  /** When the first threshold witnesses all answer, the round succeeds and its ticket verifies. */
  lemma {:induction false} FirstWitnessesSuffice(c: Primitives, b: Bdn, cfg: ClientConfig, req: Request, post: Post,
                                                 now: Int64)
    requires ConfigError(cfg).None? && cfg.threshold <= 0x1_0000 && Honest(c, req, post) && HopBound(c, b, req)
    requires WitnessInputError(req, MODE_SEQUENTIAL, 0, []).None?
    requires forall i :: 0 <= i < cfg.threshold && i < |cfg.roster| ==>
               Answers(c, b, SortedRoster(cfg.roster)[i].pubkey, req, post, i)
    ensures var outcome := SequentialOutcome(c, b, cfg, req, post, now);
            outcome.Ok? && TicketError(c, b, outcome.value, Keys(SortedRoster(cfg.roster))).None?
  {
    hide WitnessInputError, AgentSignatureError, WitnessPreimage, ConfigError, SortedRoster, Walk, TicketError, Honest,
         HopBound, Answers, Handed, HopAnswered;
    AcceptedConfig(cfg);
    var roster := SortedRoster(cfg.roster);
    forall j | 0 <= j < cfg.threshold ensures HopAnswered(c, b, roster, req, post, j) {
      AnswersAlongHops(c, b, roster, req, post, cfg.threshold, j);
    }
    NothingHanded(post);
    AnsweredWalk(c, b, roster, req, post, cfg.threshold, 0, []);
    SequentialTicketVerifies(c, b, cfg, req, post, now);
  }

  /** How many slots from i on answer, of those whose number fits in 16 bits. */
  ghost function Answering(c: Primitives, b: Bdn, roster: seq<RosterEntry>, req: Request, post: Post, i: nat): nat
    requires i <= |roster|
    decreases |roster| - i
  {
    if i == |roster| then 0
    else
      Answering(c, b, roster, req, post, i + 1)
      + (if i <= 0xFFFF && Answers(c, b, roster[i].pubkey, req, post, i) then 1 else 0)
  }

  /** Past slot 0 every answering slot adds a hop until there are k. */
  lemma {:induction false} WalkCollects(c: Primitives, b: Bdn, roster: seq<RosterEntry>, req: Request, post: Post,
                                        k: nat, i: nat, chain: seq<WitnessSignature>)
    requires Indexed(roster) && i <= |roster| && |chain| < k
    requires WitnessInputError(req, MODE_SEQUENTIAL, 0, []).None?
    requires i > 0 ==> |LastSignature(chain)| == BDN_SIGNATURE_SIZE
    requires i == 0 && |roster| > 0 ==> Answers(c, b, roster[0].pubkey, req, post, 0) && chain == []
    requires |chain| + Answering(c, b, roster, req, post, i) >= k
    ensures |Walk(c, b, roster, req, post, k, i, chain)| >= k
    decreases |roster| - i
  {
    hide WitnessPreimage, WitnessInputError, MarshalOf, SignsHop;
    if i < |roster| {
      var prevSig := LastSignature(chain);
      var reply := post(i, prevSig);
      if i <= 0xFFFF && Answers(c, b, roster[i].pubkey, req, post, i) {
        NextInputOk(req, i, prevSig);
        AnswerIsValid(c, b, roster, req, i, prevSig, reply.value);
      }
      if WellFormedReply(reply) && HopValid(c, b, roster, req, i, prevSig, reply.value) {
        var longer := chain + [HopRecord(b, roster[i], reply.value)];
        if |longer| < k {
          WalkCollects(c, b, roster, req, post, k, i + 1, longer);
        }
      } else {
        WalkCollects(c, b, roster, req, post, k, i + 1, chain);
      }
    }
  }

  lemma {:induction false} AnswerIsValid(c: Primitives, b: Bdn, roster: seq<RosterEntry>, req: Request, i: nat,
                                         p: Bytes, sig: Bytes)
    requires i < |roster| && roster[i].pubkey.Some? && SignsHop(c, b, req, roster[i].pubkey.value, i, p, sig)
    ensures HopValid(c, b, roster, req, i, p, sig)
  {
    hide WitnessPreimage, WitnessInputError;
  }

  /**
   The failing runs: with slot 0 and enough others answering but one of the first threshold slots silent, the client
   does return a ticket and the verifier refuses it.
   */
  lemma {:induction false} SkippedWitnessRefused(c: Primitives, b: Bdn, cfg: ClientConfig, req: Request, post: Post,
                                                 now: Int64, silent: nat)
    requires ConfigError(cfg).None? && Honest(c, req, post) && HopBound(c, b, req)
    requires WitnessInputError(req, MODE_SEQUENTIAL, 0, []).None?
    requires silent < cfg.threshold && forall p :: post(silent, p).None?
    requires |cfg.roster| > 0 && Answers(c, b, SortedRoster(cfg.roster)[0].pubkey, req, post, 0)
    requires Answering(c, b, SortedRoster(cfg.roster), req, post, 0) >= cfg.threshold
    ensures var outcome := SequentialOutcome(c, b, cfg, req, post, now);
            outcome.Ok? && TicketError(c, b, outcome.value, Keys(SortedRoster(cfg.roster))).Some?
  {
    hide WitnessInputError, AgentSignatureError, WitnessPreimage, ConfigError, SortedRoster, Walk, TicketError, Honest,
         HopBound, Answers, Answering;
    AcceptedConfig(cfg);
    WalkCollects(c, b, SortedRoster(cfg.roster), req, post, cfg.threshold, 0, []);
    SilentWitnessSpoilsChain(c, b, cfg, req, post, now, silent);
  }

  // Cancellation in parallel mode

  /**
   posts is what gets through of the witnesses' answers: everything until k good replies are in, after which each
   request still open may be lost to the cancellation.
   */
  ghost predicate Delivered(c: Primitives, b: Bdn, roster: seq<RosterEntry>, req: Request, answers: seq<Option<Bytes>>,
                            posts: seq<Option<Bytes>>, order: seq<nat>, k: int)
    requires |answers| == |posts| == |roster| && forall i :: 0 <= i < |order| ==> order[i] < |roster|
  {
    forall j :: 0 <= j < |order| ==>
      || posts[order[j]] == answers[order[j]]
      || (|Arrived(c, b, roster, req, posts, order[..j])| >= k && posts[order[j]].None?)
  }

  lemma {:induction false} DeliveredSoFar(c: Primitives, b: Bdn, roster: seq<RosterEntry>, req: Request,
                                          answers: seq<Option<Bytes>>, posts: seq<Option<Bytes>>, order: seq<nat>,
                                          k: int, j: nat)
    requires |answers| == |posts| == |roster| && forall i :: 0 <= i < |order| ==> order[i] < |roster|
    requires Delivered(c, b, roster, req, answers, posts, order, k) && j <= |order|
    ensures var sent := Arrived(c, b, roster, req, answers, order[..j]);
            var got := Arrived(c, b, roster, req, posts, order[..j]);
            |got| <= |sent| && (|got| < k ==> got == sent)
  {
    hide InputOf, IndividualValid;
    if j > 0 {
      assert order[..j][..j - 1] == order[..j - 1];
      DeliveredSoFar(c, b, roster, req, answers, posts, order, k, j - 1);
    }
  }

  lemma {:induction false} ArrivedGood(c: Primitives, b: Bdn, cfg: ClientConfig, req: Request,
                                       posts: seq<Option<Bytes>>, order: seq<nat>)
    requires ConfigError(cfg).None? && |posts| == |cfg.roster| && ArrivalOrder(order, |cfg.roster|)
    ensures |Arrived(c, b, SortedRoster(cfg.roster), req, posts, order)| == |GoodWitnesses(c, b, cfg, req, posts)|
  {
    hide ConfigError, SortedRoster, Arrived, GoodSlots, Sort;
    AcceptedConfig(cfg);
    SortedArrivals(c, b, SortedRoster(cfg.roster), req, posts, order);
  }

  /**
   Cancelling late requests changes who signs, never whether the round succeeds: it does exactly when at least
   threshold witnesses would have answered well, whatever the order of arrival and whatever is lost.
   */
  lemma {:induction false} CancellationHarmless(c: Primitives, b: Bdn, cfg: ClientConfig, req: Request,
                                                answers: seq<Option<Bytes>>, posts: seq<Option<Bytes>>,
                                                order: seq<nat>, now: Int64)
    requires ConfigError(cfg).None? && BdnSound(b) && |answers| == |posts| == |cfg.roster|
    requires ArrivalOrder(order, |cfg.roster|)
    requires Delivered(c, b, SortedRoster(cfg.roster), req, answers, posts, order, cfg.threshold)
    ensures ParallelOutcome(c, b, cfg, req, posts, now).Ok?
       <==> |GoodWitnesses(c, b, cfg, req, answers)| >= cfg.threshold
  {
    hide ConfigError, SortedRoster, BdnSound, Arrived, GoodWitnesses, ParallelOutcome, TicketError, ParticipantsOf;
    ParallelTicketVerifies(c, b, cfg, req, posts, now);
    ArrivedGood(c, b, cfg, req, posts, order);
    ArrivedGood(c, b, cfg, req, answers, order);
    DeliveredSoFar(c, b, SortedRoster(cfg.roster), req, answers, posts, order, cfg.threshold, |order|);
    assert order[..|order|] == order;
  }

  // Both modes

  function QuorumOutcome(c: Primitives, b: Bdn, cfg: ClientConfig, req: Request, posts: seq<Option<Bytes>>,
                         post: Post, now: Int64): Result<Ticket, ClientError>
    requires |posts| == |cfg.roster|
  {
    match ConfigError(cfg)
    case Some(e) => Err(e)
    case None =>
      if cfg.mode == MODE_PARALLEL then ParallelOutcome(c, b, cfg, req, posts, now)
      else SequentialOutcome(c, b, cfg, req, post, now)
  }

  /** Enough witnesses did their part for the configured mode. */
  ghost predicate QuorumReached(c: Primitives, b: Bdn, cfg: ClientConfig, req: Request, posts: seq<Option<Bytes>>,
                                post: Post)
    requires |posts| == |cfg.roster|
  {
    if cfg.mode == MODE_PARALLEL then |GoodWitnesses(c, b, cfg, req, posts)| >= cfg.threshold
    else FirstHopsAnswered(c, b, SortedRoster(cfg.roster), req, post, cfg.threshold)
  }

  /** A ticket in hand that the verifier accepts. */
  ghost predicate Attested(c: Primitives, b: Bdn, cfg: ClientConfig, r: Result<Ticket, ClientError>) {
    r.Ok? && TicketError(c, b, r.value, Keys(SortedRoster(cfg.roster))).None?
  }

  lemma {:induction false} QuorumAttests(c: Primitives, b: Bdn, cfg: ClientConfig, req: Request,
                                         posts: seq<Option<Bytes>>, post: Post, now: Int64)
    requires |posts| == |cfg.roster| && BdnSound(b) && InputBound(c, b, req)
    ensures Attested(c, b, cfg, QuorumOutcome(c, b, cfg, req, posts, post, now)) <==>
              (&& ConfigError(cfg).None? && AgentSignatureError(c, req).None?
               && QuorumReached(c, b, cfg, req, posts, post))
  {
    hide AgentSignatureError, ConfigError, SortedRoster, TicketError, BdnSound, InputBound, ParallelOutcome,
         SequentialOutcome, GoodWitnesses, FirstHopsAnswered, ParticipantsOf;
    if ConfigError(cfg).None? {
      if cfg.mode == MODE_PARALLEL {
        ParallelTicketVerifies(c, b, cfg, req, posts, now);
      } else {
        SequentialRoundVerifies(c, b, cfg, req, post, now);
      }
    }
  }

  /**
   One attestation round. posts and order are the replies delivered in parallel mode, post those of sequential mode.
   The result passes the verifier exactly when configuration and agent signature are in order and a quorum is reached.
   */
  method RequestQuorum(c: Primitives, b: Bdn, cfg: ClientConfig, req: Request, posts: seq<Option<Bytes>>,
                       order: seq<nat>, post: Post, now: Int64)
    returns (r: Result<Ticket, ClientError>)
    requires |posts| == |cfg.roster| && ArrivalOrder(order, |cfg.roster|)
    ensures r == QuorumOutcome(c, b, cfg, req, posts, post, now)
    ensures BdnSound(b) && InputBound(c, b, req) ==>
              (Attested(c, b, cfg, r) <==>
               (&& ConfigError(cfg).None? && AgentSignatureError(c, req).None?
                && QuorumReached(c, b, cfg, req, posts, post)))
  {
    hide AgentSignatureError, ConfigError, Attested, BdnSound, InputBound, ParallelOutcome, SequentialOutcome,
         QuorumReached;
    if BdnSound(b) && InputBound(c, b, req) {
      QuorumAttests(c, b, cfg, req, posts, post, now);
    }
    var refused := WithDefaults(cfg);
    if refused.Some? {
      return Err(refused.value);
    }
    if cfg.mode == MODE_PARALLEL {
      r := RequestParallel(c, b, cfg, req, posts, order, now);
    } else {
      r := RequestSequential(c, b, cfg, req, post, now);
    }
  }
}
