/**
 The agent-side quorum client and the ticket verifier.

 The network is a parameter: which signature, if any, each witness posts back. Replies of the concurrent
 requests arrive in an arbitrary order, also a parameter. Labels, URLs and tokens only serve the transport.
 */
module DaqClient {
  import opened Bits
  import opened Combinatorics
  import opened Crypto
  import opened DaqMask
  import opened DaqProtocol
  import opened Encoding
  import opened Sorting
  import opened Wrappers

  datatype RosterEntry = RosterEntry(index: Int64, pubkey: Option<PublicKey>)
  datatype ClientConfig = ClientConfig(roster: seq<RosterEntry>, threshold: int, mode: Byte)

  datatype WitnessSignature = WitnessSignature(witnessIndex: int, pubkey: Bytes, signature: Bytes)

  datatype Ticket = Ticket(
    request: Request,
    mode: Byte,
    threshold: int,
    rosterSize: nat,
    witnesses: seq<WitnessSignature>,
    aggSignature: Bytes,
    aggMask: seq<bv8>,
    createdAtMs: Int64)

  datatype ClientError =
    | NoRoster
    | ThresholdBelowOne
    | ThresholdAboveRoster
    | UnknownMode
    | RosterIndexRange
    | DuplicateRosterIndex
    | NilRosterKey
    | NotEnoughWitnesses
    | AggregateRefused(cause: MaskError)
    | ChainStalled

  // Configuration

  /** First problem among the roster entries from position i on. */
  function EntryError(roster: seq<RosterEntry>, i: nat): Option<ClientError>
    requires i <= |roster|
    decreases |roster| - i
  {
    if i == |roster| then None
    else
      var e := roster[i];
      if e.index < 0 || e.index >= |roster| then Some(RosterIndexRange)
      else if exists j :: 0 <= j < i && roster[j].index == e.index then Some(DuplicateRosterIndex)
      else if e.pubkey.None? then Some(NilRosterKey)
      else EntryError(roster, i + 1)
  }

  function ConfigError(cfg: ClientConfig): Option<ClientError> {
    if |cfg.roster| == 0 then Some(NoRoster)
    else if cfg.threshold < 1 then Some(ThresholdBelowOne)
    else if cfg.threshold > |cfg.roster| then Some(ThresholdAboveRoster)
    else if cfg.mode != MODE_PARALLEL && cfg.mode != MODE_SEQUENTIAL then Some(UnknownMode)
    else EntryError(cfg.roster, 0)
  }

  method WithDefaults(cfg: ClientConfig) returns (r: Option<ClientError>)
    ensures r == ConfigError(cfg)
  {
    if |cfg.roster| == 0 {
      return Some(NoRoster);
    }
    if cfg.threshold < 1 {
      return Some(ThresholdBelowOne);
    }
    if cfg.threshold > |cfg.roster| {
      return Some(ThresholdAboveRoster);
    }
    if cfg.mode != MODE_PARALLEL && cfg.mode != MODE_SEQUENTIAL {
      return Some(UnknownMode);
    }
    var indexSeen: set<int> := {};
    for i := 0 to |cfg.roster|
      invariant EntryError(cfg.roster, 0) == EntryError(cfg.roster, i)
      invariant forall k :: k in indexSeen <==> exists j :: 0 <= j < i && cfg.roster[j].index == k
    {
      var e := cfg.roster[i];
      if e.index < 0 || e.index >= |cfg.roster| {
        return Some(RosterIndexRange);
      }
      if e.index in indexSeen {
        return Some(DuplicateRosterIndex);
      }
      if e.pubkey.None? {
        return Some(NilRosterKey);
      }
      indexSeen := indexSeen + {e.index};
    }
    r := None;
  }

  ghost predicate RosterOk(roster: seq<RosterEntry>) {
    && (forall i :: 0 <= i < |roster| ==> 0 <= roster[i].index < |roster| && roster[i].pubkey.Some?)
    && (forall i, j :: 0 <= i < j < |roster| ==> roster[i].index != roster[j].index)
  }

  lemma {:induction false} EntryErrorMeaning(roster: seq<RosterEntry>, i: nat)
    requires i <= |roster| && EntryError(roster, i).None?
    requires forall j :: 0 <= j < i ==> 0 <= roster[j].index < |roster| && roster[j].pubkey.Some?
    requires forall j, k :: 0 <= j < k < i ==> roster[j].index != roster[k].index
    ensures RosterOk(roster)
    decreases |roster| - i
  {
    if i < |roster| {
      EntryErrorMeaning(roster, i + 1);
    }
  }

  // The sorted roster

  function EntryKey(e: RosterEntry): real { e.index as real }

  function SortedRoster(roster: seq<RosterEntry>): (r: seq<RosterEntry>)
    ensures |r| == |roster|
  {
    Sort(roster, EntryKey)
  }

  /** Entry i of the sorted roster has index i: n distinct indices below n are 0..n-1. */
  ghost predicate Indexed(roster: seq<RosterEntry>) {
    forall i :: 0 <= i < |roster| ==> roster[i].index == i && roster[i].pubkey.Some?
  }

  lemma {:induction false} SortedIsIndexed(roster: seq<RosterEntry>)
    requires RosterOk(roster)
    ensures Indexed(SortedRoster(roster))
  {
    hide Sort;
    var sorted := SortedRoster(roster);
    SortContents(roster, EntryKey);
    forall i | 0 <= i < |sorted| ensures sorted[i] in roster {
      assert sorted[i] in multiset(sorted);
    }
    PermutedDistinct(roster, sorted);
    forall i, j | 0 <= i < j < |sorted| ensures sorted[i].index < sorted[j].index {
      assert EntryKey(sorted[i]) <= EntryKey(sorted[j]);
    }
    var indices := seq(|sorted|, i requires 0 <= i < |sorted| => sorted[i].index as int);
    AscendingIndices(indices, |sorted| - 1);
    forall i | 0 <= i < |sorted| ensures sorted[i].index == i && sorted[i].pubkey.Some? {
      assert indices[i] == i && sorted[i] in roster;
    }
  }

  /** Ascending indices below their number leave no gaps. */
  lemma {:induction false} AscendingIndices(s: seq<int>, m: int)
    requires -1 <= m < |s|
    requires forall i, j :: 0 <= i < j < |s| ==> s[i] < s[j]
    requires forall i :: 0 <= i < |s| ==> 0 <= s[i] < |s|
    requires forall i :: m < i < |s| ==> s[i] <= i
    ensures forall i :: 0 <= i < |s| ==> s[i] == i
  {
    if m >= 0 {
      assert s[m] <= m by {
        if m + 1 < |s| {
          assert s[m] < s[m + 1];
        }
      }
      AscendingIndices(s, m - 1);
    } else {
      for i := 0 to |s|
        invariant forall j :: 0 <= j < i ==> s[j] == j
      {
        if i > 0 {
          assert s[i - 1] < s[i];
        }
      }
    }
  }

  /** The keys in slot order, as the mask operations take them. */
  function Keys(roster: seq<RosterEntry>): (r: Roster)
    ensures |r| == |roster|
  {
    seq(|roster|, i requires 0 <= i < |roster| => roster[i].pubkey)
  }

  lemma {:induction false} AcceptedConfig(cfg: ClientConfig)
    requires ConfigError(cfg).None?
    ensures Indexed(SortedRoster(cfg.roster)) && NoNil(Keys(SortedRoster(cfg.roster)))
    ensures 1 <= cfg.threshold <= |cfg.roster|
  {
    EntryErrorMeaning(cfg.roster, 0);
    SortedIsIndexed(cfg.roster);
  }

  function MarshalOf(b: Bdn, key: Option<PublicKey>): Bytes {
    if key.Some? then b.marshal(key.value) else []
  }

  predicate IndividualValid(b: Bdn, key: Option<PublicKey>, msg: Bytes, sig: Bytes) {
    key.Some? && b.verify(key.value, msg, sig)
  }

  /** What the transport hands on: a reply of the wrong signature size is an error. */
  predicate WellFormedReply(reply: Option<Bytes>) {
    reply.Some? && |reply.value| == BDN_SIGNATURE_SIZE
  }

  function SignatureOf(reply: Option<Bytes>): Bytes {
    if reply.Some? then reply.value else []
  }

  // Parallel mode

  datatype Collected = Collected(entry: RosterEntry, signature: Bytes)

  function CollectedKey(g: Collected): real { g.entry.index as real }

  /** Slot i's reply carries a signature of the parallel input under slot i's key. */
  predicate GoodReply(c: Primitives, b: Bdn, roster: seq<RosterEntry>, req: Request, posts: seq<Option<Bytes>>, i: nat)
    requires i < |roster| == |posts|
  {
    var input := InputOf(c, req, MODE_PARALLEL, 0, []);
    input.Ok? && WellFormedReply(posts[i]) && IndividualValid(b, roster[i].pubkey, input.value, posts[i].value)
  }

  /** The slots below n with a good reply, ascending. */
  function GoodSlots(c: Primitives, b: Bdn, roster: seq<RosterEntry>, req: Request, posts: seq<Option<Bytes>>, n: nat)
    : (r: seq<nat>)
    requires n <= |roster| == |posts|
  {
    if n == 0 then []
    else
      GoodSlots(c, b, roster, req, posts, n - 1)
      + (if GoodReply(c, b, roster, req, posts, n - 1) then [n - 1] else [])
  }

  lemma {:induction false} GoodSlotsMeaning(c: Primitives, b: Bdn, roster: seq<RosterEntry>, req: Request,
                                            posts: seq<Option<Bytes>>, n: nat)
    requires n <= |roster| == |posts|
    ensures forall i, j :: 0 <= i < j < |GoodSlots(c, b, roster, req, posts, n)| ==>
              GoodSlots(c, b, roster, req, posts, n)[i] < GoodSlots(c, b, roster, req, posts, n)[j]
    ensures forall i :: i in GoodSlots(c, b, roster, req, posts, n) <==>
              0 <= i < n && GoodReply(c, b, roster, req, posts, i)
  {
    hide GoodReply;
    if n > 0 {
      GoodSlotsMeaning(c, b, roster, req, posts, n - 1);
      var before, s := GoodSlots(c, b, roster, req, posts, n - 1), GoodSlots(c, b, roster, req, posts, n);
      forall i, j | 0 <= i < j < |s| ensures s[i] < s[j] {
        assert s[i] == before[i] && before[i] in before;
      }
    }
  }

  /** The good replies among the first j arrivals, in arrival order. */
  function Arrived(c: Primitives, b: Bdn, roster: seq<RosterEntry>, req: Request, posts: seq<Option<Bytes>>,
                   order: seq<nat>): (r: seq<Collected>)
    requires |roster| == |posts| && forall i :: 0 <= i < |order| ==> order[i] < |roster|
  {
    if order == [] then []
    else
      var slot := order[|order| - 1];
      Arrived(c, b, roster, req, posts, order[..|order| - 1])
      + (if GoodReply(c, b, roster, req, posts, slot) then [Collected(roster[slot], SignatureOf(posts[slot]))] else [])
  }

  /** g is the good reply of one of the slots. */
  ghost predicate IsReplyOf(c: Primitives, b: Bdn, roster: seq<RosterEntry>, req: Request, posts: seq<Option<Bytes>>,
                            slots: seq<nat>, g: Collected)
    requires |roster| == |posts|
  {
    var i := g.entry.index;
    && 0 <= i < |roster| && i in slots && GoodReply(c, b, roster, req, posts, i)
    && g == Collected(roster[i], SignatureOf(posts[i]))
  }

  lemma {:induction false} ArrivedMeaning(c: Primitives, b: Bdn, roster: seq<RosterEntry>, req: Request,
                                          posts: seq<Option<Bytes>>, order: seq<nat>)
    requires |roster| == |posts| && Indexed(roster) && forall i :: 0 <= i < |order| ==> order[i] < |roster|
    requires Distinct(order)
    ensures Distinct(Arrived(c, b, roster, req, posts, order))
    ensures forall g :: g in Arrived(c, b, roster, req, posts, order) <==> IsReplyOf(c, b, roster, req, posts, order, g)
  {
    hide GoodReply;
    if order != [] {
      var front, slot := order[..|order| - 1], order[|order| - 1];
      ArrivedMeaning(c, b, roster, req, posts, front);
      assert order == front + [slot];
      assert slot !in front;
      var before := Arrived(c, b, roster, req, posts, front);
      forall g
        ensures g in Arrived(c, b, roster, req, posts, order) <==> IsReplyOf(c, b, roster, req, posts, order, g)
      {
        assert g in before <==> IsReplyOf(c, b, roster, req, posts, front, g);
        assert IsReplyOf(c, b, roster, req, posts, order, g) <==>
          IsReplyOf(c, b, roster, req, posts, front, g) || IsReplyOf(c, b, roster, req, posts, [slot], g);
      }
      if GoodReply(c, b, roster, req, posts, slot) {
        var last := Collected(roster[slot], SignatureOf(posts[slot]));
        assert last !in before by {
          assert !IsReplyOf(c, b, roster, req, posts, front, last);
        }
      }
    }
  }

  function Replies(roster: seq<RosterEntry>, posts: seq<Option<Bytes>>, slots: seq<nat>): (r: seq<Collected>)
    requires |roster| == |posts| && forall i :: 0 <= i < |slots| ==> slots[i] < |roster|
    ensures |r| == |slots|
  {
    seq(|slots|, i requires 0 <= i < |slots| => Collected(roster[slots[i]], SignatureOf(posts[slots[i]])))
  }

  /** Every slot's reply arrives exactly once. */
  ghost predicate ArrivalOrder(order: seq<nat>, n: nat) {
    |order| == n && Distinct(order) && forall i :: 0 <= i < n ==> order[i] < n
  }

  /** Sorting the good replies by roster index forgets the order in which they arrived. */
  lemma {:induction false} SortedArrivals(c: Primitives, b: Bdn, roster: seq<RosterEntry>, req: Request,
                                          posts: seq<Option<Bytes>>, order: seq<nat>)
    requires |roster| == |posts| && Indexed(roster) && ArrivalOrder(order, |roster|)
    ensures var good := GoodSlots(c, b, roster, req, posts, |roster|);
            && (forall i :: 0 <= i < |good| ==> good[i] < |roster|)
            && Sort(Arrived(c, b, roster, req, posts, order), CollectedKey) == Replies(roster, posts, good)
  {
    hide Sort, GoodReply, Arrived, GoodSlots;
    var n := |roster|;
    var good, arrived := GoodSlots(c, b, roster, req, posts, n), Arrived(c, b, roster, req, posts, order);
    GoodSlotsMeaning(c, b, roster, req, posts, n);
    forall i | 0 <= i < |good| ensures good[i] < n {
      assert good[i] in good;
    }
    ArrivedMeaning(c, b, roster, req, posts, order);
    Pigeonhole(order);
    var replies := Replies(roster, posts, good);
    forall g | g in arrived ensures g in replies {
      assert IsReplyOf(c, b, roster, req, posts, order, g);
      var k :| 0 <= k < |good| && good[k] == g.entry.index;
      assert replies[k] == g;
    }
    forall k | 0 <= k < |replies| ensures replies[k] in arrived {
      assert good[k] in good && good[k] in order;
      assert roster[good[k]].index == good[k];
      assert IsReplyOf(c, b, roster, req, posts, order, replies[k]);
    }
    RepliesAscending(roster, posts, good);
    SameMembers(arrived, replies);
    SortContents(arrived, CollectedKey);
    SortUnique(replies, Sort(arrived, CollectedKey), CollectedKey);
  }

  lemma {:induction false} RepliesAscending(roster: seq<RosterEntry>, posts: seq<Option<Bytes>>, slots: seq<nat>)
    requires |roster| == |posts| && Indexed(roster)
    requires forall i :: 0 <= i < |slots| ==> slots[i] < |roster|
    requires forall i, j :: 0 <= i < j < |slots| ==> slots[i] < slots[j]
    ensures var r := Replies(roster, posts, slots);
            Ascending(r, CollectedKey) && KeyDetermines(r, CollectedKey) && Distinct(r)
  {
    var r := Replies(roster, posts, slots);
    forall i | 0 <= i < |r| ensures CollectedKey(r[i]) == slots[i] as real {
      assert roster[slots[i]].index == slots[i];
    }
    forall i, j | 0 <= i < |r| && 0 <= j < |r| && CollectedKey(r[i]) == CollectedKey(r[j]) ensures i == j {
      assert slots[i] == slots[j];
    }
  }

  // The outcome of a parallel round

  function Signed(b: Bdn, g: Collected): WitnessSignature {
    WitnessSignature(g.entry.index, MarshalOf(b, g.entry.pubkey), g.signature)
  }

  function SignedAll(b: Bdn, gs: seq<Collected>): (r: seq<WitnessSignature>)
    ensures |r| == |gs|
  {
    seq(|gs|, i requires 0 <= i < |gs| => Signed(b, gs[i]))
  }

  function IndexesOf(gs: seq<Collected>): (r: seq<int>)
    ensures |r| == |gs|
  {
    seq(|gs|, i requires 0 <= i < |gs| => gs[i].entry.index as int)
  }

  function SignaturesOf(gs: seq<Collected>): (r: seq<Bytes>)
    ensures |r| == |gs|
  {
    seq(|gs|, i requires 0 <= i < |gs| => gs[i].signature)
  }

  /** The ticket from good replies in slot order: the first threshold of them are aggregated. */
  function Assembled(b: Bdn, roster: seq<RosterEntry>, k: nat, req: Request, replies: seq<Collected>, now: Int64)
    : Result<Ticket, ClientError>
  {
    if |replies| < k then Err(NotEnoughWitnesses)
    else
      var picked := replies[..k];
      match Aggregated(b, Keys(roster), IndexesOf(picked), SignaturesOf(picked))
      case Err(e) => Err(AggregateRefused(e))
      case Ok(agg) => Ok(Ticket(req, MODE_PARALLEL, k, |roster|, SignedAll(b, picked), agg.signature, agg.mask, now))
  }

  /** The slots whose witnesses gave good replies, ascending. */
  function GoodWitnesses(c: Primitives, b: Bdn, cfg: ClientConfig, req: Request, posts: seq<Option<Bytes>>)
    : (r: seq<nat>)
    requires |posts| == |cfg.roster|
    ensures forall i :: 0 <= i < |r| ==> r[i] < |posts|
  {
    var good := GoodSlots(c, b, SortedRoster(cfg.roster), req, posts, |posts|);
    assert forall i :: 0 <= i < |good| ==> good[i] < |posts| by {
      GoodSlotsMeaning(c, b, SortedRoster(cfg.roster), req, posts, |posts|);
      assert forall i :: 0 <= i < |good| ==> good[i] in good;
    }
    good
  }

  function ParallelOutcome(c: Primitives, b: Bdn, cfg: ClientConfig, req: Request, posts: seq<Option<Bytes>>,
                           now: Int64)
    : Result<Ticket, ClientError>
    requires ConfigError(cfg).None? && |posts| == |cfg.roster|
  {
    var roster := SortedRoster(cfg.roster);
    Assembled(b, roster, cfg.threshold, req, Replies(roster, posts, GoodWitnesses(c, b, cfg, req, posts)), now)
  }

  /**
   posts holds the replies that get through, by slot, order the slots as they come in. Once threshold good replies are
   in, the client cancels the requests still open, so which replies get through may itself depend on their order.
   */
  method RequestParallel(c: Primitives, b: Bdn, cfg: ClientConfig, req: Request, posts: seq<Option<Bytes>>,
                         order: seq<nat>, now: Int64)
    returns (r: Result<Ticket, ClientError>)
    requires ConfigError(cfg).None? && |posts| == |cfg.roster| && ArrivalOrder(order, |cfg.roster|)
    ensures r == ParallelOutcome(c, b, cfg, req, posts, now)
  {
    hide Sort, ConfigError, InputOf, Aggregated;
    var roster := SortedRoster(cfg.roster);
    AcceptedConfig(cfg);
    SortedArrivals(c, b, roster, req, posts, order);
    var rosterPubs := BySlot(roster);
    var good: seq<Collected> := [];
    for j := 0 to |order|
      invariant good == Arrived(c, b, roster, req, posts, order[..j])
    {
      assert order[..j + 1][..j] == order[..j];
      var slot := order[j];
      var input := WitnessInput(c, req, MODE_PARALLEL, 0, []);
      if input.Err? || posts[slot].None? || |posts[slot].value| != BDN_SIGNATURE_SIZE {
        continue;
      }
      if !IndividualValid(b, roster[slot].pubkey, input.value, posts[slot].value) {
        continue;
      }
      good := good + [Collected(roster[slot], posts[slot].value)];
    }
    assert order[..|order|] == order;
    if |good| < cfg.threshold {
      return Err(NotEnoughWitnesses);
    }
    good := Sort(good, CollectedKey);
    var participants: seq<int> := [];
    var sigs: seq<Bytes> := [];
    var witnesses: seq<WitnessSignature> := [];
    for i := 0 to cfg.threshold
      invariant participants == IndexesOf(good[..i]) && sigs == SignaturesOf(good[..i])
      invariant witnesses == SignedAll(b, good[..i])
    {
      participants := participants + [good[i].entry.index];
      sigs := sigs + [good[i].signature];
      var pub := MarshalOf(b, good[i].entry.pubkey);
      witnesses := witnesses + [WitnessSignature(good[i].entry.index, pub, good[i].signature)];
    }
    var agg := AggregateSigs(b, rosterPubs, participants, sigs);
    match agg {
      case Err(e) => r := Err(AggregateRefused(e));
      case Ok(a) =>
        r := Ok(Ticket(req, MODE_PARALLEL, cfg.threshold, |roster|, witnesses, a.signature, a.mask, now));
    }
  }

  method BySlot(roster: seq<RosterEntry>) returns (pubs: Roster)
    requires Indexed(roster)
    ensures pubs == Keys(roster)
  {
    pubs := seq(|roster|, i => None);
    for j := 0 to |roster|
      invariant |pubs| == |roster| && forall i :: 0 <= i < j ==> pubs[i] == roster[i].pubkey
    {
      assert roster[j].index == j;
      pubs := pubs[roster[j].index := roster[j].pubkey];
    }
  }

  // What configuration and replies have to satisfy

  lemma {:induction false} RosterOkNoError(roster: seq<RosterEntry>, i: nat)
    requires RosterOk(roster) && i <= |roster|
    ensures EntryError(roster, i).None?
    decreases |roster| - i
  {
    if i < |roster| {
      RosterOkNoError(roster, i + 1);
    }
  }

  /** Accepted: a non-empty roster of distinct indices below its size, all with keys; 1 <= k <= n; a known mode. */
  lemma {:induction false} ConfigMeaning(cfg: ClientConfig)
    ensures ConfigError(cfg).None? <==>
              RosterOk(cfg.roster) && 1 <= cfg.threshold <= |cfg.roster| && (cfg.mode == 0 || cfg.mode == 1)
    ensures cfg.roster == [] ==> ConfigError(cfg) == Some(NoRoster)
  {
    if EntryError(cfg.roster, 0).None? {
      EntryErrorMeaning(cfg.roster, 0);
    } else if RosterOk(cfg.roster) {
      RosterOkNoError(cfg.roster, 0);
    }
  }

  /** A good reply is a 48-byte signature of the hashed parallel preimage under the slot's key. */
  lemma {:induction false} GoodReplyMeaning(c: Primitives, b: Bdn, roster: seq<RosterEntry>, req: Request,
                                            posts: seq<Option<Bytes>>, i: nat)
    requires i < |roster| == |posts|
    ensures GoodReply(c, b, roster, req, posts, i) <==>
              (&& WitnessInputError(req, 0, 0, []).None? && posts[i].Some? && |posts[i].value| == 48
               && roster[i].pubkey.Some?
               && b.verify(roster[i].pubkey.value, c.sha3(WitnessPreimage(req, 0, 0, [])), posts[i].value))
  {
    hide WitnessPreimage;
    WitnessInputMeaning(c, req, 0, 0, []);
  }
}
