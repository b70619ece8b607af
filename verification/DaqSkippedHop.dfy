/** One concrete round in which the client returns a ticket that the verifier refuses. */
module DaqSkippedHop {
  import opened Crypto
  import opened DaqClient
  import opened DaqMask
  import opened DaqProtocol
  import opened DaqQuorum
  import opened DaqSequential
  import opened DaqTicket
  import opened Encoding
  import opened Wrappers

  /** Length of a witness preimage with empty op id and chain name, up to the hop number. */
  const HOP_OFFSET := 150

  function PlainRequest(): Request {
    Request([], Zeros(32), Zeros(32), Zeros(64), [], 0, Zeros(48), 0)
  }

  /** The hash is the identity and every agent signature counts. */
  function PlainPrimitives(): Primitives {
    Primitives(m => m, priv => priv, (priv, msg) => Zeros(64), (pub, msg, sig) => true)
  }

  function HopSignature(i: int): (s: Bytes)
    ensures |s| == BDN_SIGNATURE_SIZE
  {
    U16(i) + Zeros(46)
  }

  /** A signature repeats the hop number it finds in the message. */
  predicate EchoVerifies(key: PublicKey, m: Bytes, s: Bytes) {
    |m| >= HOP_OFFSET + 2 && s == m[HOP_OFFSET..HOP_OFFSET + 2] + Zeros(46)
  }

  function EchoBdn(): Bdn {
    Bdn(key => [], EchoVerifies, (pubs, mask, sigs) => None, (pubs, mask, sig, msg) => false)
  }

  /** Slot 1 is silent; the others sign every well-formed hop. */
  function ReplyOf(i: nat, p: Bytes): Option<Bytes> {
    if i == 1 || WitnessInputError(PlainRequest(), MODE_SEQUENTIAL, i, p).Some? then None else Some(HopSignature(i))
  }

  /** Three witnesses, two needed. */
  function PlainConfig(): ClientConfig {
    ClientConfig([RosterEntry(0, Some(PublicKey(0))), RosterEntry(1, Some(PublicKey(1))),
                  RosterEntry(2, Some(PublicKey(2)))], 2, MODE_SEQUENTIAL)
  }

  lemma {:induction false} ConfigAccepted()
    ensures ConfigError(PlainConfig()).None? && Indexed(SortedRoster(PlainConfig().roster))
  {
    var roster := PlainConfig().roster;
    assert EntryError(roster, 3).None?;
    assert EntryError(roster, 2) == EntryError(roster, 3);
    assert EntryError(roster, 1) == EntryError(roster, 2);
    AcceptedConfig(PlainConfig());
  }

  lemma {:induction false} HopNumberInPreimage(i: int, p: Bytes)
    ensures var m := WitnessPreimage(PlainRequest(), MODE_SEQUENTIAL, i, p);
            |m| >= HOP_OFFSET + 2 && m[HOP_OFFSET..HOP_OFFSET + 2] == U16(i)
  {
    hide U64, U16;
    var r := PlainRequest();
    var m := WitnessPreimage(r, MODE_SEQUENTIAL, i, p);
    var front := DOMAIN + WITNESS_TAG + [MODE_SEQUENTIAL] + Prefixed16(r.opID) + r.opHash + Prefixed16(r.drandChain)
      + U64(r.drandRound) + r.drandSignature + r.agentPubkey;
    assert |front| == HOP_OFFSET;
    assert m == front + SequenceBytes(MODE_SEQUENTIAL, i, p);
    assert SequenceBytes(MODE_SEQUENTIAL, i, p)[..2] == U16(i);
  }

  lemma {:induction false} EchoSigns(key: PublicKey, i: int, p: Bytes, s: Bytes)
    ensures SignsHop(PlainPrimitives(), EchoBdn(), PlainRequest(), key, i, p, s)
       <==> WitnessInputError(PlainRequest(), MODE_SEQUENTIAL, i, p).None? && s == HopSignature(i)
  {
    hide WitnessPreimage, WitnessInputError, U16, PlainRequest;
    HopNumberInPreimage(i, p);
  }

  lemma {:induction false} HopSignaturesDiffer(i: int, j: int)
    requires 0 <= i <= 0xFFFF && 0 <= j <= 0xFFFF && HopSignature(i) == HopSignature(j)
    ensures i == j
  {
    hide U16;
    SplitEqual(U16(i), Zeros(46), U16(j), Zeros(46));
    FixedWidthInjective(i, j);
  }

  /** Even the strongest assumption of the sequential theorems holds here. */
  lemma {:induction false} EchoBound()
    ensures HopBound(PlainPrimitives(), EchoBdn(), PlainRequest())
    ensures InputBound(PlainPrimitives(), EchoBdn(), PlainRequest())
  {
    hide WitnessPreimage, HopSignature, SignsHop;
    var c, b, r := PlainPrimitives(), EchoBdn(), PlainRequest();
    forall key, i, j, p, s | SignsHop(c, b, r, key, i, p, s) && SignsHop(c, b, r, key, j, p, s) ensures i == j {
      EchoSigns(key, i, p, s);
      EchoSigns(key, j, p, s);
      HopSignaturesDiffer(i, j);
    }
    forall key, i: nat, j: nat, p, s | b.verify(key, ClientInput(c, r, i, p), s) && SignsHop(c, b, r, key, j, p, s)
      ensures i == j
    {
      assert WitnessInputError(r, MODE_SEQUENTIAL, i, p).None?;
      EchoInput(key, i, p, s);
      assert SignsHop(c, b, r, key, i, p, s);
    }
  }

  lemma {:induction false} EchoInput(key: PublicKey, i: nat, p: Bytes, s: Bytes)
    requires WitnessInputError(PlainRequest(), MODE_SEQUENTIAL, i, p).None?
    requires EchoBdn().verify(key, ClientInput(PlainPrimitives(), PlainRequest(), i, p), s)
    ensures SignsHop(PlainPrimitives(), EchoBdn(), PlainRequest(), key, i, p, s)
  {
    hide WitnessPreimage, WitnessInputError, PlainRequest;
  }

  lemma {:induction false} OthersAnswer(i: nat, key: PublicKey)
    requires i != 1
    ensures Answers(PlainPrimitives(), EchoBdn(), Some(key), PlainRequest(), ReplyOf, i)
  {
    hide HopSignature, SignsHop, WitnessInputError, PlainRequest;
    forall p | WitnessInputError(PlainRequest(), MODE_SEQUENTIAL, i, p).None?
      ensures SignsHop(PlainPrimitives(), EchoBdn(), PlainRequest(), key, i, p, ReplyOf(i, p).value)
    {
      EchoSigns(key, i, p, ReplyOf(i, p).value);
    }
  }

  lemma {:induction false} TwoAnswer()
    ensures var roster := SortedRoster(PlainConfig().roster);
            && Answers(PlainPrimitives(), EchoBdn(), roster[0].pubkey, PlainRequest(), ReplyOf, 0)
            && Answering(PlainPrimitives(), EchoBdn(), roster, PlainRequest(), ReplyOf, 0) >= 2
  {
    hide Answers, SortedRoster;
    var c, b, r := PlainPrimitives(), EchoBdn(), PlainRequest();
    ConfigAccepted();
    var roster := SortedRoster(PlainConfig().roster);
    assert |roster| == 3;
    OthersAnswer(0, roster[0].pubkey.value);
    OthersAnswer(2, roster[2].pubkey.value);
    assert Answering(c, b, roster, r, ReplyOf, 3) == 0;
    assert Answering(c, b, roster, r, ReplyOf, 2) == 1;
    assert Answering(c, b, roster, r, ReplyOf, 1) >= 1;
  }

  lemma {:induction false} RepliesHonest()
    ensures Honest(PlainPrimitives(), PlainRequest(), ReplyOf)
  {
    hide WitnessInputError;
    assert AgentSignatureError(PlainPrimitives(), PlainRequest()).None?;
  }

  /** Witnesses 0 and 2 sign, witness 1 does not: the ticket is returned and does not verify. */
  lemma {:induction false} ReturnedButRefused(now: Int64)
    ensures var c, b, cfg, req := PlainPrimitives(), EchoBdn(), PlainConfig(), PlainRequest();
            var outcome := SequentialOutcome(c, b, cfg, req, ReplyOf, now);
            && ConfigError(cfg).None? && AgentSignatureError(c, req).None? && Honest(c, req, ReplyOf)
            && InputBound(c, b, req) && HopBound(c, b, req)
            && outcome.Ok? && TicketError(c, b, outcome.value, Keys(SortedRoster(cfg.roster))).Some?
  {
    hide SortedRoster, Answers, Answering, Walk, TicketError, HopBound, InputBound;
    ConfigAccepted();
    RepliesHonest();
    EchoBound();
    TwoAnswer();
    SkippedWitnessRefused(PlainPrimitives(), EchoBdn(), PlainConfig(), PlainRequest(), ReplyOf, now, 1);
  }
}
