/**
 The sequential mode of the quorum client: the roster is walked in index order, and each witness signs its slot
 number and the previous witness's signature. A slot that does not answer, or answers wrongly, is skipped, but
 the next slot keeps its own number.
 */
module DaqSequential {
  import opened Crypto
  import opened DaqClient
  import opened DaqMask
  import opened DaqProtocol
  import opened Encoding
  import opened Wrappers

  /** What slot i's witness returns when handed the previous signature. */
  type Post = (nat, Bytes) -> Option<Bytes>

  function LastSignature(chain: seq<WitnessSignature>): Bytes {
    if chain == [] then [] else chain[|chain| - 1].signature
  }

  /** The client ignores an input error and goes on with no bytes at all. */
  function ClientInput(c: Primitives, req: Request, i: nat, prevSig: Bytes): Bytes {
    var input := InputOf(c, req, MODE_SEQUENTIAL, i, prevSig);
    if input.Ok? then input.value else []
  }

  predicate HopValid(c: Primitives, b: Bdn, roster: seq<RosterEntry>, req: Request, i: nat, prevSig: Bytes, sig: Bytes)
    requires i < |roster|
  {
    IndividualValid(b, roster[i].pubkey, ClientInput(c, req, i, prevSig), sig)
  }

  function HopRecord(b: Bdn, entry: RosterEntry, sig: Bytes): WitnessSignature {
    WitnessSignature(entry.index, MarshalOf(b, entry.pubkey), sig)
  }

  /** The chain after walking the slots from i on. */
  function Walk(c: Primitives, b: Bdn, roster: seq<RosterEntry>, req: Request, post: Post, k: nat, i: nat,
                chain: seq<WitnessSignature>): seq<WitnessSignature>
    requires i <= |roster|
    decreases |roster| - i
  {
    if i == |roster| then chain
    else
      var prevSig := LastSignature(chain);
      var reply := post(i, prevSig);
      if !WellFormedReply(reply) then
        if |chain| >= k then chain else Walk(c, b, roster, req, post, k, i + 1, chain)
      else if !HopValid(c, b, roster, req, i, prevSig, reply.value) then Walk(c, b, roster, req, post, k, i + 1, chain)
      else
        var longer := chain + [HopRecord(b, roster[i], reply.value)];
        if |longer| >= k then longer else Walk(c, b, roster, req, post, k, i + 1, longer)
  }

  function SequentialOutcome(c: Primitives, b: Bdn, cfg: ClientConfig, req: Request, post: Post, now: Int64)
    : Result<Ticket, ClientError>
    requires ConfigError(cfg).None?
  {
    var roster := SortedRoster(cfg.roster);
    var chain := Walk(c, b, roster, req, post, cfg.threshold, 0, []);
    if |chain| < cfg.threshold then Err(ChainStalled)
    else Ok(Ticket(req, MODE_SEQUENTIAL, cfg.threshold, |roster|, chain, [], [], now))
  }

  method RequestSequential(c: Primitives, b: Bdn, cfg: ClientConfig, req: Request, post: Post, now: Int64)
    returns (r: Result<Ticket, ClientError>)
    requires ConfigError(cfg).None?
    ensures r == SequentialOutcome(c, b, cfg, req, post, now)
  {
    hide InputOf, SortedRoster;
    var roster := SortedRoster(cfg.roster);
    var prevSig: Bytes := [];
    var chain: seq<WitnessSignature> := [];
    ghost var whole := Walk(c, b, roster, req, post, cfg.threshold, 0, []);
    var i := 0;
    while i < |roster|
      invariant i <= |roster| && prevSig == LastSignature(chain)
      invariant whole == Walk(c, b, roster, req, post, cfg.threshold, i, chain)
    {
      var reply := post(i, prevSig);
      if !WellFormedReply(reply) {
        if |chain| >= cfg.threshold {
          break;
        }
        i := i + 1;
        continue;
      }
      var sig := reply.value;
      var input := WitnessInput(c, req, MODE_SEQUENTIAL, i, prevSig);
      var message: Bytes := if input.Ok? then input.value else [];
      if !IndividualValid(b, roster[i].pubkey, message, sig) {
        i := i + 1;
        continue;
      }
      chain := chain + [WitnessSignature(roster[i].index, MarshalOf(b, roster[i].pubkey), sig)];
      prevSig := sig;
      if |chain| >= cfg.threshold {
        break;
      }
      i := i + 1;
    }
    assert chain == whole;
    if |chain| < cfg.threshold {
      return Err(ChainStalled);
    }
    r := Ok(Ticket(req, MODE_SEQUENTIAL, cfg.threshold, |roster|, chain, [], [], now));
  }

  // What the walk guarantees about its chain

  function PrevOf(chain: seq<WitnessSignature>, j: nat): Bytes
    requires j <= |chain|
  {
    if j == 0 then [] else chain[j - 1].signature
  }

  /** Hop j answers for the slot it names, over that slot's number and the signature of hop j - 1. */
  ghost predicate HopOk(c: Primitives, b: Bdn, roster: seq<RosterEntry>, req: Request, post: Post,
                        chain: seq<WitnessSignature>, j: nat)
    requires j < |chain|
  {
    var slot := chain[j].witnessIndex;
    && 0 <= slot < |roster|
    && post(slot, PrevOf(chain, j)) == Some(chain[j].signature) && |chain[j].signature| == BDN_SIGNATURE_SIZE
    && chain[j].pubkey == MarshalOf(b, roster[slot].pubkey)
    && HopValid(c, b, roster, req, slot, PrevOf(chain, j), chain[j].signature)
  }

  ghost predicate WalkedTo(c: Primitives, b: Bdn, roster: seq<RosterEntry>, req: Request, post: Post,
                           chain: seq<WitnessSignature>, i: nat)
  {
    && (forall j :: 0 <= j < |chain| ==> HopOk(c, b, roster, req, post, chain, j))
    && (forall j :: 0 <= j < |chain| ==> chain[j].witnessIndex < i)
    && (forall j, l :: 0 <= j < l < |chain| ==> chain[j].witnessIndex < chain[l].witnessIndex)
  }

  lemma {:induction false} WalkMeaning(c: Primitives, b: Bdn, roster: seq<RosterEntry>, req: Request, post: Post,
                                       k: nat, i: nat, chain: seq<WitnessSignature>)
    requires i <= |roster| && Indexed(roster) && |chain| < k
    requires WalkedTo(c, b, roster, req, post, chain, i)
    ensures WalkedTo(c, b, roster, req, post, Walk(c, b, roster, req, post, k, i, chain), |roster|)
    ensures |Walk(c, b, roster, req, post, k, i, chain)| <= k
    decreases |roster| - i
  {
    hide HopValid, MarshalOf;
    if i < |roster| {
      var reply := post(i, LastSignature(chain));
      if WellFormedReply(reply) && HopValid(c, b, roster, req, i, LastSignature(chain), reply.value) {
        var longer := chain + [HopRecord(b, roster[i], reply.value)];
        assert roster[i].index == i;
        forall j | 0 <= j < |longer| ensures HopOk(c, b, roster, req, post, longer, j) {
          if j < |chain| {
            assert HopOk(c, b, roster, req, post, chain, j);
          }
        }
        if |longer| < k {
          WalkMeaning(c, b, roster, req, post, k, i + 1, longer);
        }
      } else {
        WalkMeaning(c, b, roster, req, post, k, i + 1, chain);
      }
    }
  }
}
