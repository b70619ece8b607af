/**
 Epochs of the roster chain and their canonical encoding.

 Text fields are byte strings, as in Go.
 */
module Epochs {
  import opened Crypto
  import opened Encoding
  import opened Sorting
  import opened Wrappers

  const MIN_WAITING_MS := 86_400_000

  datatype EpochWitness = EpochWitness(index: Int64, tag: Bytes, url: Bytes, pubkey: Bytes)

  datatype CeremonySig = CeremonySig(signerPubkey: Bytes, signerLabel: Bytes, signature: Bytes)

  datatype EmergencyParams = EmergencyParams(
    declaration: Bytes,
    declaredAtMs: Int64,
    waitingPeriodMs: Int64,
    announcementPubkey: Bytes,
    announcementSig: Bytes)

  datatype Epoch = Epoch(
    epochNum: Uint64,
    prevHash: Bytes,
    witnesses: seq<EpochWitness>,
    threshold: Int64,
    activatedAtMs: Int64,
    transitionSig: Bytes,
    transitionSigners: seq<Int64>,
    genesisCeremony: seq<CeremonySig>,
    emergency: Option<EmergencyParams>,
    hash: Bytes)

  // Canonical encoding

  const EPOCH_HEADER := Ascii("963causal-ROSTER-EPOCH-V1\0")

  function WitnessBytes(w: EpochWitness): Bytes {
    U32(w.index) + Prefixed32(w.tag) + Prefixed32(w.url) + Prefixed32(w.pubkey)
  }

  function WitnessListBytes(ws: seq<EpochWitness>): Bytes {
    if ws == [] then [] else WitnessListBytes(ws[..|ws| - 1]) + WitnessBytes(ws[|ws| - 1])
  }

  function ByIndex(ws: seq<EpochWitness>): (r: seq<EpochWitness>)
    ensures |r| == |ws|
  {
    Sort(ws, (w: EpochWitness) => w.index as real)
  }

  function EmergencyBytes(em: Option<EmergencyParams>): Bytes {
    match em
    case None => [0]
    case Some(p) =>
      [1] + Prefixed32(p.declaration) + U64(p.declaredAtMs) + U64(p.waitingPeriodMs) + Prefixed32(p.announcementPubkey)
  }

  function Canonical(e: Epoch): Bytes {
    EPOCH_HEADER + U64(e.epochNum) + Prefixed32(e.prevHash) + U32(|e.witnesses|)
    + WitnessListBytes(ByIndex(e.witnesses)) + U32(e.threshold) + U64(e.activatedAtMs) + EmergencyBytes(e.emergency)
  }

  method CanonicalBytes(e: Epoch) returns (buf: Bytes)
    ensures buf == Canonical(e)
  {
    hide BigEndian, Sort;
    buf := EPOCH_HEADER;
    buf := buf + U64(e.epochNum);
    buf := buf + Prefixed32(e.prevHash);
    buf := buf + U32(|e.witnesses|);
    ghost var before := buf;
    var ws := ByIndex(e.witnesses);
    for i := 0 to |ws|
      invariant buf == before + WitnessListBytes(ws[..i])
    {
      assert ws[..i + 1][..i] == ws[..i];
      var w := ws[i];
      buf := buf + U32(w.index);
      buf := buf + Prefixed32(w.tag);
      buf := buf + Prefixed32(w.url);
      buf := buf + Prefixed32(w.pubkey);
    }
    assert ws[..|ws|] == ws;
    buf := buf + U32(e.threshold);
    buf := buf + U64(e.activatedAtMs);
    if e.emergency.Some? {
      var em := e.emergency.value;
      buf := buf + [1];
      buf := buf + Prefixed32(em.declaration);
      buf := buf + U64(em.declaredAtMs);
      buf := buf + U64(em.waitingPeriodMs);
      buf := buf + Prefixed32(em.announcementPubkey);
    } else {
      buf := buf + [0];
    }
  }

  function HashOf(c: Primitives, e: Epoch): Bytes { c.sha3(Canonical(e)) }

  function GenesisMessage(c: Primitives, e: Epoch): Bytes { Ascii("963causal-ROSTER-GENESIS-V1\0") + HashOf(c, e) }

  function TransitionMessage(c: Primitives, e: Epoch): Bytes {
    Ascii("963causal-ROSTER-TRANSITION-V1\0") + HashOf(c, e)
  }

  function AnnouncementMessage(c: Primitives, e: Epoch): Bytes {
    c.sha3(Ascii("963causal-ROSTER-EMERGENCY-V1\0") + Canonical(e))
  }

  // Injectivity

  ghost predicate WitnessEncodable(w: EpochWitness) {
    0 <= w.index < TWO_32 && |w.tag| < TWO_32 && |w.url| < TWO_32 && |w.pubkey| < TWO_32
  }

  /** Everything the encoding writes in 32 bits fits in 32 bits. */
  ghost predicate Encodable(e: Epoch) {
    && |e.prevHash| < TWO_32 && |e.witnesses| < TWO_32 && 0 <= e.threshold < TWO_32
    && (forall w :: w in e.witnesses ==> WitnessEncodable(w))
    && (e.emergency.Some? ==>
          |e.emergency.value.declaration| < TWO_32 && |e.emergency.value.announcementPubkey| < TWO_32)
  }

  ghost predicate SameEmergency(a: Option<EmergencyParams>, b: Option<EmergencyParams>) {
    match (a, b)
    case (None, None) => true
    case (Some(p), Some(q)) =>
      && p.declaration == q.declaration && p.declaredAtMs == q.declaredAtMs
      && p.waitingPeriodMs == q.waitingPeriodMs && p.announcementPubkey == q.announcementPubkey
    case _ => false
  }

  /** Agreement on every field the encoding covers, the witness lists up to order. */
  ghost predicate Agree(e: Epoch, f: Epoch) {
    && e.epochNum == f.epochNum && e.prevHash == f.prevHash
    && multiset(e.witnesses) == multiset(f.witnesses)
    && e.threshold == f.threshold && e.activatedAtMs == f.activatedAtMs
    && SameEmergency(e.emergency, f.emergency)
  }

  lemma {:induction false} WitnessShape(w: EpochWitness, rest: Bytes)
    ensures WitnessBytes(w) + rest
         == U32(w.index) + (Prefixed32(w.tag) + (Prefixed32(w.url) + (Prefixed32(w.pubkey) + rest)))
  {
    hide U32, Prefixed32;
  }

  lemma {:induction false} WitnessBytesInjective(v: EpochWitness, r: Bytes, w: EpochWitness, s: Bytes)
    requires WitnessEncodable(v) && WitnessEncodable(w)
    requires WitnessBytes(v) + r == WitnessBytes(w) + s
    ensures v == w && r == s
  {
    hide U32, Prefixed32, WitnessBytes;
    var v3, w3 := Prefixed32(v.pubkey) + r, Prefixed32(w.pubkey) + s;
    var v2, w2 := Prefixed32(v.url) + v3, Prefixed32(w.url) + w3;
    var v1, w1 := Prefixed32(v.tag) + v2, Prefixed32(w.tag) + w2;
    WitnessShape(v, r);
    WitnessShape(w, s);
    SplitEqual(U32(v.index), v1, U32(w.index), w1);
    FixedWidthInjective(v.index, w.index);
    Prefixed32Injective(v.tag, v2, w.tag, w2);
    Prefixed32Injective(v.url, v3, w.url, w3);
    Prefixed32Injective(v.pubkey, r, w.pubkey, s);
  }

  lemma {:induction false} WitnessListHead(ws: seq<EpochWitness>)
    requires ws != []
    ensures WitnessListBytes(ws) == WitnessBytes(ws[0]) + WitnessListBytes(ws[1..])
  {
    hide WitnessBytes;
    if |ws| == 1 {
      assert ws[..0] == [] && ws[1..] == [];
    } else {
      var front := ws[..|ws| - 1];
      WitnessListHead(front);
      assert front[1..] == ws[1..][..|ws| - 2];
    }
  }

  lemma {:induction false} WitnessListInjective(vs: seq<EpochWitness>, r: Bytes, ws: seq<EpochWitness>, s: Bytes)
    requires |vs| == |ws|
    requires forall i :: 0 <= i < |vs| ==> WitnessEncodable(vs[i]) && WitnessEncodable(ws[i])
    requires WitnessListBytes(vs) + r == WitnessListBytes(ws) + s
    ensures vs == ws && r == s
  {
    hide WitnessBytes, WitnessEncodable;
    if vs == [] {
      assert ws == [] && WitnessListBytes(vs) + r == r && WitnessListBytes(ws) + s == s;
    } else {
      WitnessListHead(vs);
      WitnessListHead(ws);
      var vRest, wRest := WitnessListBytes(vs[1..]) + r, WitnessListBytes(ws[1..]) + s;
      assert WitnessBytes(vs[0]) + vRest == WitnessListBytes(vs) + r;
      assert WitnessBytes(ws[0]) + wRest == WitnessListBytes(ws) + s;
      WitnessBytesInjective(vs[0], vRest, ws[0], wRest);
      WitnessListInjective(vs[1..], r, ws[1..], s);
      assert vs == [vs[0]] + vs[1..] && ws == [ws[0]] + ws[1..];
    }
  }

  lemma {:induction false} EmergencyBytesInjective(a: Option<EmergencyParams>, b: Option<EmergencyParams>)
    requires a.Some? ==> |a.value.declaration| < TWO_32 && |a.value.announcementPubkey| < TWO_32
    requires b.Some? ==> |b.value.declaration| < TWO_32 && |b.value.announcementPubkey| < TWO_32
    requires EmergencyBytes(a) == EmergencyBytes(b)
    ensures SameEmergency(a, b)
  {
    hide U64, Prefixed32;
    assert EmergencyBytes(a)[0] == EmergencyBytes(b)[0];
    if a.Some? && b.Some? {
      var p, q := a.value, b.value;
      var pKey, qKey := Prefixed32(p.announcementPubkey), Prefixed32(q.announcementPubkey);
      var p2, q2 := U64(p.waitingPeriodMs) + pKey, U64(q.waitingPeriodMs) + qKey;
      var p1, q1 := U64(p.declaredAtMs) + p2, U64(q.declaredAtMs) + q2;
      assert EmergencyBytes(a) == [1] + (Prefixed32(p.declaration) + p1);
      assert EmergencyBytes(b) == [1] + (Prefixed32(q.declaration) + q1);
      SplitEqual([1], Prefixed32(p.declaration) + p1, [1], Prefixed32(q.declaration) + q1);
      Prefixed32Injective(p.declaration, p1, q.declaration, q1);
      SplitEqual(U64(p.declaredAtMs), p2, U64(q.declaredAtMs), q2);
      Int64ByWidth(p.declaredAtMs, q.declaredAtMs);
      SplitEqual(U64(p.waitingPeriodMs), pKey, U64(q.waitingPeriodMs), qKey);
      Int64ByWidth(p.waitingPeriodMs, q.waitingPeriodMs);
      assert pKey + [] == pKey && qKey + [] == qKey;
      Prefixed32Injective(p.announcementPubkey, [], q.announcementPubkey, []);
    }
  }

  lemma {:induction false} SortedEncodable(e: Epoch)
    requires Encodable(e)
    ensures forall i :: 0 <= i < |e.witnesses| ==> WitnessEncodable(ByIndex(e.witnesses)[i])
  {
    hide Sort, WitnessEncodable;
    SortContents(e.witnesses, (w: EpochWitness) => w.index as real);
    forall i | 0 <= i < |e.witnesses| ensures WitnessEncodable(ByIndex(e.witnesses)[i]) {
      assert ByIndex(e.witnesses)[i] in multiset(e.witnesses);
    }
  }

  function HeadBytes(e: Epoch): Bytes {
    EPOCH_HEADER + (U64(e.epochNum) + (Prefixed32(e.prevHash) + U32(|e.witnesses|)))
  }

  function TailBytes(e: Epoch): Bytes {
    WitnessListBytes(ByIndex(e.witnesses)) + (U32(e.threshold) + (U64(e.activatedAtMs) + EmergencyBytes(e.emergency)))
  }

  lemma {:induction false} CanonicalShape(e: Epoch)
    ensures Canonical(e) == HeadBytes(e) + TailBytes(e)
  {
    hide U32, U64, Prefixed32, EmergencyBytes, WitnessListBytes, ByIndex, EPOCH_HEADER;
  }

  lemma {:induction false} HeadShape(e: Epoch, rest: Bytes)
    ensures HeadBytes(e) + rest
         == EPOCH_HEADER + (U64(e.epochNum) + (Prefixed32(e.prevHash) + (U32(|e.witnesses|) + rest)))
  {
    hide U32, U64, Prefixed32, EPOCH_HEADER;
  }

  lemma {:induction false} HeadInjective(e: Epoch, r: Bytes, f: Epoch, s: Bytes)
    requires Encodable(e) && Encodable(f) && HeadBytes(e) + r == HeadBytes(f) + s
    ensures e.epochNum == f.epochNum && e.prevHash == f.prevHash && |e.witnesses| == |f.witnesses| && r == s
  {
    hide U32, U64, Prefixed32, EPOCH_HEADER, WitnessEncodable, HeadBytes;
    var e3, f3 := U32(|e.witnesses|) + r, U32(|f.witnesses|) + s;
    var e2, f2 := Prefixed32(e.prevHash) + e3, Prefixed32(f.prevHash) + f3;
    var e1, f1 := U64(e.epochNum) + e2, U64(f.epochNum) + f2;
    HeadShape(e, r);
    HeadShape(f, s);
    SplitEqual(EPOCH_HEADER, e1, EPOCH_HEADER, f1);
    SplitEqual(U64(e.epochNum), e2, U64(f.epochNum), f2);
    FixedWidthInjective(e.epochNum, f.epochNum);
    Prefixed32Injective(e.prevHash, e3, f.prevHash, f3);
    SplitEqual(U32(|e.witnesses|), r, U32(|f.witnesses|), s);
    FixedWidthInjective(|e.witnesses|, |f.witnesses|);
  }

  lemma {:induction false} TailInjective(e: Epoch, f: Epoch)
    requires Encodable(e) && Encodable(f) && |e.witnesses| == |f.witnesses| && TailBytes(e) == TailBytes(f)
    ensures multiset(e.witnesses) == multiset(f.witnesses) && e.threshold == f.threshold
    ensures e.activatedAtMs == f.activatedAtMs && SameEmergency(e.emergency, f.emergency)
    ensures ByIndex(e.witnesses) == ByIndex(f.witnesses)
  {
    hide U32, U64, EmergencyBytes, WitnessListBytes, ByIndex, WitnessEncodable, SameEmergency;
    var e2 := U64(e.activatedAtMs) + EmergencyBytes(e.emergency);
    var f2 := U64(f.activatedAtMs) + EmergencyBytes(f.emergency);
    var e1, f1 := U32(e.threshold) + e2, U32(f.threshold) + f2;
    SortedEncodable(e);
    SortedEncodable(f);
    WitnessListInjective(ByIndex(e.witnesses), e1, ByIndex(f.witnesses), f1);
    SameRoster(e.witnesses, f.witnesses);
    SplitEqual(U32(e.threshold), e2, U32(f.threshold), f2);
    FixedWidthInjective(e.threshold, f.threshold);
    SplitEqual(U64(e.activatedAtMs), EmergencyBytes(e.emergency), U64(f.activatedAtMs), EmergencyBytes(f.emergency));
    Int64ByWidth(e.activatedAtMs, f.activatedAtMs);
    EmergencyBytesInjective(e.emergency, f.emergency);
  }

  /** Equal canonical bytes mean agreement on every encoded field. */
  lemma {:induction false} CanonicalInjective(e: Epoch, f: Epoch)
    requires Encodable(e) && Encodable(f) && Canonical(e) == Canonical(f)
    ensures Agree(e, f) && ByIndex(e.witnesses) == ByIndex(f.witnesses)
  {
    hide Canonical, HeadBytes, TailBytes, Encodable, SameEmergency, ByIndex;
    CanonicalShape(e);
    CanonicalShape(f);
    HeadInjective(e, TailBytes(e), f, TailBytes(f));
    TailInjective(e, f);
  }

  lemma {:induction false} SameRoster(vs: seq<EpochWitness>, ws: seq<EpochWitness>)
    requires ByIndex(vs) == ByIndex(ws)
    ensures multiset(vs) == multiset(ws)
  {
    hide Sort;
    SortContents(vs, (w: EpochWitness) => w.index as real);
    SortContents(ws, (w: EpochWitness) => w.index as real);
  }

  /** No two entries share an index. */
  ghost predicate DistinctIndices(ws: seq<EpochWitness>) {
    forall i, j :: 0 <= i < j < |ws| ==> ws[i].index != ws[j].index
  }

  /** What the sort is for: with distinct indices the order in which a roster is listed leaves no trace. */
  lemma {:induction false} AgreeingEpochsEncodeAlike(e: Epoch, f: Epoch)
    requires Agree(e, f) && DistinctIndices(e.witnesses)
    ensures Canonical(e) == Canonical(f)
  {
    hide U32, U64, Prefixed32, WitnessListBytes, EPOCH_HEADER;
    OrderLeavesNoTrace(e.witnesses, f.witnesses);
    assert |multiset(e.witnesses)| == |e.witnesses| && |multiset(f.witnesses)| == |f.witnesses|;
  }

  lemma {:induction false} OrderLeavesNoTrace(vs: seq<EpochWitness>, ws: seq<EpochWitness>)
    requires multiset(vs) == multiset(ws) && DistinctIndices(vs)
    ensures ByIndex(vs) == ByIndex(ws)
  {
    hide Sort;
    var key := (w: EpochWitness) => w.index as real;
    SortContents(vs, key);
    SortContents(ws, key);
    forall v, w | v in vs && w in vs && v.index == w.index ensures v == w {
      var i :| 0 <= i < |vs| && vs[i] == v;
      var j :| 0 <= j < |vs| && vs[j] == w;
    }
    var sorted := ByIndex(vs);
    forall i | 0 <= i < |sorted| ensures sorted[i] in vs {
      assert sorted[i] in multiset(sorted);
    }
    SortUnique(sorted, ByIndex(ws), key);
  }

  /**
   Without distinct indices the listing order shows: two different entries with one index, listed in the two orders,
   make epochs that agree on every field and encode differently. Nothing in the program rules such rosters out.
   */
  lemma {:induction false} RepeatedIndexShows(e: Epoch, f: Epoch, v: EpochWitness, w: EpochWitness)
    requires v.index == w.index && v != w && Encodable(e) && e.witnesses == [v, w] && f == e.(witnesses := [w, v])
    ensures Agree(e, f) && Canonical(e) != Canonical(f)
  {
    hide Canonical, ByIndex, WitnessEncodable;
    var ours, theirs := [v, w], [w, v];
    assert multiset(ours) == multiset(theirs) && ours[0] != theirs[0];
    SortedPair(v, w);
    SortedPair(w, v);
    SameMembersEncodable(e, theirs);
    if Canonical(e) == Canonical(f) {
      CanonicalInjective(e, f);
    }
  }

  lemma {:induction false} SameMembersEncodable(e: Epoch, ws: seq<EpochWitness>)
    requires Encodable(e) && multiset(ws) == multiset(e.witnesses) && |ws| == |e.witnesses|
    ensures Encodable(e.(witnesses := ws))
  {
    hide WitnessEncodable;
    forall w | w in ws ensures WitnessEncodable(w) {
      assert w in multiset(e.witnesses);
    }
  }

  lemma {:induction false} SortedPair(v: EpochWitness, w: EpochWitness)
    requires v.index == w.index
    ensures ByIndex([v, w]) == [v, w]
  {
    var key := (x: EpochWitness) => x.index as real;
    assert [v, w][..1] == [v] && [v][..0] == [];
    assert Sort([v], key) == [v];
    assert Insert(w, [v], key) == [v] + Insert(w, [v][1..], key);
  }

  // The bytes in their order, and the three messages

  /** Where each field of an encoded epoch lies. */
  lemma {:induction false} CanonicalLayout(e: Epoch)
    ensures var h, p, w := 26, |e.prevHash|, |WitnessListBytes(ByIndex(e.witnesses))|;
            && |Canonical(e)| == h + 8 + 4 + p + 4 + w + 4 + 8 + |EmergencyBytes(e.emergency)|
            && Canonical(e)[..h] == Ascii("963causal-ROSTER-EPOCH-V1\0")
            && Canonical(e)[h..h + 8] == U64(e.epochNum)
            && Canonical(e)[h + 8..h + 12] == U32(p) && Canonical(e)[h + 12..h + 12 + p] == e.prevHash
            && Canonical(e)[h + 12 + p..h + 16 + p] == U32(|e.witnesses|)
            && Canonical(e)[h + 16 + p..h + 16 + p + w] == WitnessListBytes(ByIndex(e.witnesses))
            && Canonical(e)[h + 16 + p + w..h + 20 + p + w] == U32(e.threshold)
            && Canonical(e)[h + 20 + p + w..h + 28 + p + w] == U64(e.activatedAtMs)
            && Canonical(e)[h + 28 + p + w..] == EmergencyBytes(e.emergency)
  {
    hide U32, U64, WitnessListBytes, ByIndex, EmergencyBytes, Ascii;
  }

  lemma {:induction false} WitnessLayout(w: EpochWitness)
    ensures var t, u := |w.tag|, |w.url|;
            && WitnessBytes(w)[..4] == U32(w.index)
            && WitnessBytes(w)[4..8] == U32(t) && WitnessBytes(w)[8..8 + t] == w.tag
            && WitnessBytes(w)[8 + t..12 + t] == U32(u) && WitnessBytes(w)[12 + t..12 + t + u] == w.url
            && WitnessBytes(w)[12 + t + u..16 + t + u] == U32(|w.pubkey|) && WitnessBytes(w)[16 + t + u..] == w.pubkey
  {
    hide U32;
  }

  lemma {:induction false} EmergencyLayout(p: EmergencyParams)
    ensures EmergencyBytes(None) == [0]
    ensures var b, d := EmergencyBytes(Some(p)), |p.declaration|;
            && |b| == 25 + d + |p.announcementPubkey|
            && b[..5 + d] == [1] + U32(d) + p.declaration
            && b[5 + d..21 + d] == U64(p.declaredAtMs) + U64(p.waitingPeriodMs)
            && b[21 + d..] == U32(|p.announcementPubkey|) + p.announcementPubkey
  {
    hide U32, U64;
    var front := [1] + U32(|p.declaration|) + p.declaration;
    var times := U64(p.declaredAtMs) + U64(p.waitingPeriodMs);
    assert EmergencyBytes(Some(p)) == front + times + Prefixed32(p.announcementPubkey);
  }

  /**
   What each of the three messages commits to: equal messages of one kind come from equal canonical bytes, or the
   hash collides. With 32-byte digests no message of one kind is one of another.
   */
  lemma {:induction false} MessagesCommit(c: Primitives, e: Epoch, f: Epoch)
    ensures GenesisMessage(c, e) == GenesisMessage(c, f) ==> c.sha3(Canonical(e)) == c.sha3(Canonical(f))
    ensures TransitionMessage(c, e) == TransitionMessage(c, f) ==> c.sha3(Canonical(e)) == c.sha3(Canonical(f))
    ensures AnnouncementMessage(c, e) == c.sha3(Ascii("963causal-ROSTER-EMERGENCY-V1\0") + Canonical(e))
    ensures |c.sha3(Canonical(e))| == 32 && |c.sha3(Canonical(f))| == 32 ==>
              GenesisMessage(c, e) != TransitionMessage(c, f)
    ensures |c.sha3(Canonical(e))| == 32 && |AnnouncementMessage(c, f)| == 32 ==>
              GenesisMessage(c, e) != AnnouncementMessage(c, f) && TransitionMessage(c, e) != AnnouncementMessage(c, f)
  {
    hide Canonical;
    var g, t := Ascii("963causal-ROSTER-GENESIS-V1\0"), Ascii("963causal-ROSTER-TRANSITION-V1\0");
    assert |g| == 28 && |t| == 31;
    if GenesisMessage(c, e) == GenesisMessage(c, f) {
      SplitEqual(g, HashOf(c, e), g, HashOf(c, f));
    }
    if TransitionMessage(c, e) == TransitionMessage(c, f) {
      SplitEqual(t, HashOf(c, e), t, HashOf(c, f));
    }
  }
}
