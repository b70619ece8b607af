/** What an accepted lineage proves, when a fork is possible, and that the protocol's own ledgers are accepted. */
module PhoenixLineage {
  import opened Combinatorics
  import opened Crypto
  import opened Encoding
  import opened Phoenix
  import opened Wrappers

  // Injectivity of the signed bytes

  ghost predicate Encodable(r: Request) {
    |r.serviceID| < TWO_32 && |r.newHostPubkey| < TWO_32 && |r.oldHostPubkey| < TWO_32
  }

  ghost predicate SameRebirth(r: Request, s: Request) {
    && r.serviceID == s.serviceID && r.newHostPubkey == s.newHostPubkey && r.oldHostPubkey == s.oldHostPubkey
    && r.requestedAtMs == s.requestedAtMs && r.coolDownMs == s.coolDownMs
  }

  /** The canonical bytes determine every field but the signatures. */
  lemma {:induction false} CanonicalInjective(r: Request, s: Request)
    requires Encodable(r) && Encodable(s) && Canonical(r) == Canonical(s)
    ensures SameRebirth(r, s)
  {
    hide U64, Prefixed32, Ascii, REQUEST_HEADER;
    var r4, s4 := U64(r.coolDownMs), U64(s.coolDownMs);
    var r3, s3 := U64(r.requestedAtMs) + r4, U64(s.requestedAtMs) + s4;
    var r2, s2 := Prefixed32(r.oldHostPubkey) + r3, Prefixed32(s.oldHostPubkey) + s3;
    var r1, s1 := Prefixed32(r.newHostPubkey) + r2, Prefixed32(s.newHostPubkey) + s2;
    assert Canonical(r) == REQUEST_HEADER + (Prefixed32(r.serviceID) + r1);
    assert Canonical(s) == REQUEST_HEADER + (Prefixed32(s.serviceID) + s1);
    SplitEqual(REQUEST_HEADER, Prefixed32(r.serviceID) + r1, REQUEST_HEADER, Prefixed32(s.serviceID) + s1);
    Prefixed32Injective(r.serviceID, r1, s.serviceID, s1);
    Prefixed32Injective(r.newHostPubkey, r2, s.newHostPubkey, s2);
    Prefixed32Injective(r.oldHostPubkey, r3, s.oldHostPubkey, s3);
    SplitEqual(U64(r.requestedAtMs), r4, U64(s.requestedAtMs), s4);
    Int64ByWidth(r.requestedAtMs, s.requestedAtMs);
    Int64ByWidth(r.coolDownMs, s.coolDownMs);
  }

  /** A witness's preimage determines the request and the time of observation. */
  lemma {:induction false} AttestationInjective(r: Request, t: Int64, s: Request, u: Int64)
    requires Encodable(r) && Encodable(s) && AttestationPreimage(r, t) == AttestationPreimage(s, u)
    ensures SameRebirth(r, s) && t == u
  {
    hide U64, Canonical, Ascii, ATTEST_HEADER;
    assert AttestationPreimage(r, t) == ATTEST_HEADER + (Canonical(r) + U64(t));
    assert AttestationPreimage(s, u) == ATTEST_HEADER + (Canonical(s) + U64(u));
    SplitEqual(ATTEST_HEADER, Canonical(r) + U64(t), ATTEST_HEADER, Canonical(s) + U64(u));
    SplitEqual(Canonical(r), U64(t), Canonical(s), U64(u));
    CanonicalInjective(r, s);
    Int64ByWidth(t, u);
  }

  /** Different preimages with one digest. */
  ghost predicate Collide(c: Primitives, r: Request, t: Int64, s: Request, u: Int64) {
    && AttestationPreimage(r, t) != AttestationPreimage(s, u)
    && c.sha3(AttestationPreimage(r, t)) == c.sha3(AttestationPreimage(s, u))
  }

  /** What a witness signs is bound to one rebirth and one time of observation, or the hash collides. */
  lemma {:induction false} AttestationBinds(c: Primitives, r: Request, t: Int64, s: Request, u: Int64)
    requires Encodable(r) && Encodable(s) && AttestationMessage(c, r, t) == AttestationMessage(c, s, u)
    ensures (SameRebirth(r, s) && t == u) || Collide(c, r, t, s, u)
  {
    hide AttestationPreimage, SameRebirth;
    if AttestationPreimage(r, t) == AttestationPreimage(s, u) {
      AttestationInjective(r, t, s, u);
    }
  }

  /** Where each field of the signed bytes lies. */
  lemma {:induction false} CanonicalLayout(r: Request)
    ensures var b, n, h, o := Canonical(r), |r.serviceID|, |r.newHostPubkey|, |r.oldHostPubkey|;
            && |b| == 57 + n + h + o
            && b[..29] == Ascii("963causal-REBIRTH-REQUEST-V2\0")
            && b[29..33] == U32(n) && b[33..33 + n] == r.serviceID
            && b[33 + n..37 + n] == U32(h) && b[37 + n..37 + n + h] == r.newHostPubkey
            && b[37 + n + h..41 + n + h] == U32(o) && b[41 + n + h..41 + n + h + o] == r.oldHostPubkey
            && b[41 + n + h + o..49 + n + h + o] == U64(r.requestedAtMs) && b[49 + n + h + o..] == U64(r.coolDownMs)
  {
    hide U32, U64, Ascii;
    assert |REQUEST_HEADER| == 29;
    var front := REQUEST_HEADER + Prefixed32(r.serviceID);
    var hosts := Prefixed32(r.newHostPubkey) + Prefixed32(r.oldHostPubkey);
    var times := U64(r.requestedAtMs) + U64(r.coolDownMs);
    assert Canonical(r) == front + hosts + times;
  }

  lemma {:induction false} AttestationLayout(r: Request, t: Int64)
    ensures var b, n := AttestationPreimage(r, t), |Canonical(r)|;
            && |b| == 36 + n && b[..28] == Ascii("963causal-REBIRTH-ATTEST-V1\0")
            && b[28..28 + n] == Canonical(r) && b[28 + n..] == U64(t)
  {
    hide U64, Canonical, Ascii;
  }

  // What the error scans mean

  ghost predicate SignerOk(c: Primitives, s: OperatorSignature, canon: Bytes, pinned: seq<Bytes>) {
    && |s.pubkey| == PUBLIC_KEY_SIZE && |s.signature| == SIGNATURE_SIZE
    && s.pubkey in pinned && c.verify(s.pubkey, canon, s.signature)
  }

  function Pubkeys(sigs: seq<OperatorSignature>): (r: seq<Bytes>)
    ensures |r| == |sigs|
  {
    seq(|sigs|, i requires 0 <= i < |sigs| => sigs[i].pubkey)
  }

  ghost predicate NewKey(sigs: seq<OperatorSignature>, i: nat)
    requires i < |sigs|
  {
    forall j :: 0 <= j < i ==> sigs[j].pubkey != sigs[i].pubkey
  }

  lemma {:induction false} DistinctMeansNewKey(sigs: seq<OperatorSignature>)
    ensures Distinct(Pubkeys(sigs)) <==> forall j :: 0 <= j < |sigs| ==> NewKey(sigs, j)
  {
    var all := Pubkeys(sigs);
    if Distinct(all) {
      forall j, i | 0 <= i < j < |sigs| ensures sigs[i].pubkey != sigs[j].pubkey {
        assert all[i] != all[j];
      }
    } else {
      var i, j :| 0 <= i < j < |all| && all[i] == all[j];
      assert !NewKey(sigs, j);
    }
  }

  lemma {:induction false} SignerErrorMeaning(c: Primitives, sigs: seq<OperatorSignature>, canon: Bytes,
                                              pinned: seq<Bytes>, i: nat)
    requires i <= |sigs|
    ensures SignerError(c, sigs, canon, pinned, i).None?
       <==> forall j :: i <= j < |sigs| ==> SignerOk(c, sigs[j], canon, pinned) && NewKey(sigs, j)
    decreases |sigs| - i
  {
    if i < |sigs| {
      SignerErrorMeaning(c, sigs, canon, pinned, i + 1);
      if SignerOk(c, sigs[i], canon, pinned) && NewKey(sigs, i) {
        assert SignerError(c, sigs, canon, pinned, i) == SignerError(c, sigs, canon, pinned, i + 1);
      } else {
        assert SignerError(c, sigs, canon, pinned, i).Some?;
      }
    }
  }

  /** Accepted operators: at least opThreshold different pinned keys, each with a signature of these very bytes. */
  lemma {:induction false} OperatorsMeaning(c: Primitives, r: Request, pinned: seq<Bytes>, opThreshold: int)
    ensures var sigs := EffectiveSignatures(r);
            OperatorError(c, r, pinned, opThreshold).None? <==>
              (&& 1 <= opThreshold <= |sigs| && Distinct(Pubkeys(sigs))
               && forall i :: 0 <= i < |sigs| ==> SignerOk(c, sigs[i], Canonical(r), pinned))
  {
    hide Canonical, SignerOk;
    var sigs := EffectiveSignatures(r);
    SignerErrorMeaning(c, sigs, Canonical(r), pinned, 0);
    DistinctMeansNewKey(sigs);
  }

  ghost predicate AttestationOk(c: Primitives, r: Request, a: Attestation) {
    && |a.witnessPub| == PUBLIC_KEY_SIZE && |a.signature| == SIGNATURE_SIZE
    && a.observedAtMs >= EarliestExecute(r)
    && c.verify(a.witnessPub, c.sha3(AttestationPreimage(r, a.observedAtMs)), a.signature)
  }

  function Indices(atts: seq<Attestation>): (r: seq<int>)
    ensures |r| == |atts|
  {
    seq(|atts|, i requires 0 <= i < |atts| => atts[i].witnessIndex)
  }

  ghost predicate NewIndex(atts: seq<Attestation>, i: nat)
    requires i < |atts|
  {
    forall j :: 0 <= j < i ==> atts[j].witnessIndex != atts[i].witnessIndex
  }

  lemma {:induction false} DistinctMeansNewIndex(atts: seq<Attestation>)
    ensures Distinct(Indices(atts)) <==> forall j :: 0 <= j < |atts| ==> NewIndex(atts, j)
  {
    var all := Indices(atts);
    if Distinct(all) {
      forall j, i | 0 <= i < j < |atts| ensures atts[i].witnessIndex != atts[j].witnessIndex {
        assert all[i] != all[j];
      }
    } else {
      var i, j :| 0 <= i < j < |all| && all[i] == all[j];
      assert !NewIndex(atts, j);
    }
  }

  lemma {:induction false} AttestationsErrorMeaning(c: Primitives, r: Request, atts: seq<Attestation>, i: nat)
    requires i <= |atts|
    ensures AttestationsError(c, r, atts, i).None?
       <==> forall j :: i <= j < |atts| ==> AttestationOk(c, r, atts[j]) && NewIndex(atts, j)
    decreases |atts| - i
  {
    hide AttestationPreimage, EarliestExecute;
    if i < |atts| {
      AttestationsErrorMeaning(c, r, atts, i + 1);
      if AttestationOk(c, r, atts[i]) && NewIndex(atts, i) {
        assert AttestationsError(c, r, atts, i) == AttestationsError(c, r, atts, i + 1);
      } else {
        assert AttestationsError(c, r, atts, i).Some?;
      }
    }
  }

  /** Executable: at least threshold different witness indices, each attesting after the cool-down. */
  lemma {:induction false} ExecuteMeaning(c: Primitives, r: Request, atts: seq<Attestation>, threshold: int, now: Int64)
    ensures ExecuteError(c, r, atts, threshold, now).None? <==>
              (&& 1 <= threshold <= |atts| && now >= EarliestExecute(r) && Distinct(Indices(atts))
               && forall i :: 0 <= i < |atts| ==> AttestationOk(c, r, atts[i]))
  {
    hide AttestationOk, EarliestExecute;
    AttestationsErrorMeaning(c, r, atts, 0);
    DistinctMeansNewIndex(atts);
  }

  /** A signature fits at most one digest under a key. */
  ghost predicate OneDigest(c: Primitives) {
    && (forall m :: |c.sha3(m)| == 32)
    && forall key, m, n, s :: |m| == |n| == 32 && c.verify(key, m, s) && c.verify(key, n, s) ==> m == n
  }

  /** An attestation's signature serves the execution of a single rebirth, and for a single time of observation. */
  lemma {:induction false} AttestationServesOnce(c: Primitives, r: Request, a: Attestation, s: Request, b: Attestation)
    requires OneDigest(c) && Encodable(r) && Encodable(s)
    requires AttestationOk(c, r, a) && AttestationOk(c, s, b)
    requires a.witnessPub == b.witnessPub && a.signature == b.signature
    ensures (SameRebirth(r, s) && a.observedAtMs == b.observedAtMs)
         || Collide(c, r, a.observedAtMs, s, b.observedAtMs)
  {
    hide AttestationPreimage, SameRebirth, EarliestExecute;
    assert c.sha3(AttestationPreimage(r, a.observedAtMs)) == c.sha3(AttestationPreimage(s, b.observedAtMs));
    AttestationBinds(c, r, a.observedAtMs, s, b.observedAtMs);
  }

  /** So two executions that share one attestation are of the same rebirth. */
  lemma {:induction false} ExecutionsShareNoAttestation(c: Primitives, r: Request, atts: seq<Attestation>, k: int,
                                                        now: Int64, s: Request, others: seq<Attestation>, l: int,
                                                        later: Int64, a: Attestation)
    requires OneDigest(c) && Encodable(r) && Encodable(s)
    requires ExecuteError(c, r, atts, k, now).None? && ExecuteError(c, s, others, l, later).None?
    requires a in atts && a in others
    ensures SameRebirth(r, s) || Collide(c, r, a.observedAtMs, s, a.observedAtMs)
  {
    hide AttestationOk, ExecuteError, SameRebirth, OneDigest, Collide;
    ExecuteMeaning(c, r, atts, k, now);
    ExecuteMeaning(c, s, others, l, later);
    AttestationServesOnce(c, r, a, s, a);
  }

  ghost predicate RecordOk(c: Primitives, records: seq<LineageRecord>, p: Policy, i: nat)
    requires i < |records|
  {
    var r := records[i];
    && SuccessionError(records, i).None?
    && OperatorError(c, r.request, p.pinned, p.opThreshold).None?
    && ExecuteError(c, r.request, r.attestations, p.witnessThreshold, r.executedAtMs).None?
  }

  lemma {:induction false} RecordsErrorMeaning(c: Primitives, records: seq<LineageRecord>, p: Policy, i: nat)
    requires i <= |records|
    ensures RecordsError(c, records, p, i).None? <==> forall j :: i <= j < |records| ==> RecordOk(c, records, p, j)
    decreases |records| - i
  {
    hide OperatorError, ExecuteError, SuccessionError;
    if i < |records| {
      RecordsErrorMeaning(c, records, p, i + 1);
      if RecordOk(c, records, p, i) {
        assert RecordsError(c, records, p, i) == RecordsError(c, records, p, i + 1);
      } else {
        assert RecordsError(c, records, p, i).Some?;
      }
    }
  }

  /** Record i names its predecessor's host, its operators have signed it, and its attestations carry it out. */
  ghost predicate RecordProper(c: Primitives, records: seq<LineageRecord>, p: Policy, i: nat)
    requires i < |records|
  {
    var r, atts := records[i].request, records[i].attestations;
    var sigs := EffectiveSignatures(r);
    && r.oldHostPubkey == (if i == 0 then [] else records[i - 1].request.newHostPubkey)
    && 1 <= p.opThreshold <= |sigs| && Distinct(Pubkeys(sigs))
    && (forall j :: 0 <= j < |sigs| ==> SignerOk(c, sigs[j], Canonical(r), p.pinned))
    && 1 <= p.witnessThreshold <= |atts| && Distinct(Indices(atts))
    && (forall j :: 0 <= j < |atts| ==> AttestationOk(c, r, atts[j]))
    && records[i].executedAtMs >= EarliestExecute(r)
  }

  lemma {:induction false} LineageMeaning(c: Primitives, records: seq<LineageRecord>, p: Policy)
    ensures LineageError(c, records, p).None? <==>
              records != [] && forall i :: 0 <= i < |records| ==> RecordProper(c, records, p, i)
  {
    hide RecordOk, RecordProper, RecordsError;
    RecordsErrorMeaning(c, records, p, 0);
    forall i | 0 <= i < |records| ensures RecordOk(c, records, p, i) <==> RecordProper(c, records, p, i) {
      RecordMeaning(c, records, p, i);
    }
  }

  lemma {:induction false} RecordMeaning(c: Primitives, records: seq<LineageRecord>, p: Policy, i: nat)
    requires i < |records|
    ensures RecordOk(c, records, p, i) <==> RecordProper(c, records, p, i)
  {
    hide OperatorError, ExecuteError, EffectiveSignatures, SignerOk, AttestationOk, Canonical, EarliestExecute,
         Distinct;
    var r := records[i];
    OperatorsMeaning(c, r.request, p.pinned, p.opThreshold);
    ExecuteMeaning(c, r.request, r.attestations, p.witnessThreshold, r.executedAtMs);
  }

  // Prefixes and extensions

  /** Every non-empty prefix of an accepted lineage is accepted. */
  lemma {:induction false} PrefixAccepted(c: Primitives, records: seq<LineageRecord>, p: Policy, n: nat)
    requires LineageError(c, records, p).None? && 0 < n <= |records|
    ensures LineageError(c, records[..n], p).None?
  {
    hide OperatorError, ExecuteError;
    RecordsErrorMeaning(c, records, p, 0);
    RecordsErrorMeaning(c, records[..n], p, 0);
    forall j | 0 <= j < n ensures RecordOk(c, records[..n], p, j) {
      assert RecordOk(c, records, p, j);
    }
  }

  /** The host a next record must name as the one it replaces. */
  function LastHost(records: seq<LineageRecord>): Bytes {
    if records == [] then [] else records[|records| - 1].request.newHostPubkey
  }

  /** A lineage is extendable by exactly the authorised, executable records that start at its last host. */
  lemma {:induction false} ExtendedAccepted(c: Primitives, records: seq<LineageRecord>, p: Policy, r: LineageRecord)
    requires records == [] || LineageError(c, records, p).None?
    ensures LineageError(c, records + [r], p).None? <==>
              (&& r.request.oldHostPubkey == LastHost(records)
               && OperatorError(c, r.request, p.pinned, p.opThreshold).None?
               && ExecuteError(c, r.request, r.attestations, p.witnessThreshold, r.executedAtMs).None?)
  {
    hide OperatorError, ExecuteError;
    var longer := records + [r];
    RecordsErrorMeaning(c, records, p, 0);
    RecordsErrorMeaning(c, longer, p, 0);
    forall j | 0 <= j < |records| ensures RecordOk(c, longer, p, j) {
      assert RecordOk(c, records, p, j);
    }
    assert longer[|records|] == r;
    assert RecordOk(c, longer, p, |records|) <==>
      (&& r.request.oldHostPubkey == LastHost(records)
       && OperatorError(c, r.request, p.pinned, p.opThreshold).None?
       && ExecuteError(c, r.request, r.attestations, p.witnessThreshold, r.executedAtMs).None?);
  }

  /** A record is accepted a second time exactly when the lineage is back at the host it led away from. */
  lemma {:induction false} RepeatedIff(c: Primitives, records: seq<LineageRecord>, p: Policy, i: nat)
    requires LineageError(c, records, p).None? && i < |records|
    ensures LineageError(c, records + [records[i]], p).None? <==>
              LastHost(records) == if i == 0 then [] else records[i - 1].request.newHostPubkey
  {
    hide OperatorError, ExecuteError, LineageError;
    ExtendedAccepted(c, records, p, records[i]);
    SuccessionKnown(c, records, p, i);
    RecordAccepted(c, records, p, i);
  }

  lemma {:induction false} RecordAccepted(c: Primitives, records: seq<LineageRecord>, p: Policy, i: nat)
    requires LineageError(c, records, p).None? && i < |records|
    ensures RecordOk(c, records, p, i)
  {
    hide RecordOk;
    RecordsErrorMeaning(c, records, p, 0);
  }

  // Evidence and forks

  /** Among the signatures r carries there is a valid one by key. */
  ghost predicate SignedBy(c: Primitives, r: Request, key: Bytes) {
    exists s :: s in EffectiveSignatures(r) && s.pubkey == key && c.verify(key, Canonical(r), s.signature)
  }

  ghost function SignerSet(r: Request): set<Bytes> { Elements(Pubkeys(EffectiveSignatures(r))) }

  /** What every record of an accepted lineage shows. */
  lemma {:induction false} RecordEvidence(c: Primitives, records: seq<LineageRecord>, p: Policy, i: nat)
    requires LineageError(c, records, p).None? && i < |records|
    ensures var r := records[i];
            && SignerSet(r.request) <= Elements(p.pinned) && |SignerSet(r.request)| >= p.opThreshold >= 1
            && (forall key :: key in SignerSet(r.request) ==> SignedBy(c, r.request, key))
            && |Elements(Indices(r.attestations))| >= p.witnessThreshold >= 1
            && (forall a :: a in r.attestations ==> AttestationOk(c, r.request, a))
            && r.executedAtMs >= EarliestExecute(r.request)
  {
    hide OperatorError, ExecuteError, Canonical, AttestationPreimage, EarliestExecute;
    RecordsErrorMeaning(c, records, p, 0);
    assert RecordOk(c, records, p, i);
    var r := records[i];
    OperatorsMeaning(c, r.request, p.pinned, p.opThreshold);
    ExecuteMeaning(c, r.request, r.attestations, p.witnessThreshold, r.executedAtMs);
    var sigs := EffectiveSignatures(r.request);
    DistinctSize(Pubkeys(sigs));
    DistinctSize(Indices(r.attestations));
    forall key | key in SignerSet(r.request) ensures key in p.pinned && SignedBy(c, r.request, key) {
      var k :| 0 <= k < |Pubkeys(sigs)| && Pubkeys(sigs)[k] == key;
      assert SignerOk(c, sigs[k], Canonical(r.request), p.pinned) && sigs[k] in sigs;
    }
  }

  /** Sets of keys within a common universe overlap. */
  lemma {:induction false} OverlapWithin<T>(a: set<T>, b: set<T>, universe: set<T>)
    requires a <= universe && b <= universe
    ensures |a * b| >= |a| + |b| - |universe|
  {
    assert |a + b| == |a| + |b| - |a * b|;
    SubsetSize(a + b, universe);
  }

  /**
   Two accepted lineages that follow different successions from the same last host: at least 2M - |pinned| operators
   have their signatures in both, on different bytes. Nothing else of the histories before need agree.
   */
  lemma {:induction false} ForkNeedsDoubleSigners(c: Primitives, a: seq<LineageRecord>, i: nat, b: seq<LineageRecord>,
                                                  j: nat, p: Policy)
    returns (both: set<Bytes>)
    requires LineageError(c, a, p).None? && LineageError(c, b, p).None?
    requires i < |a| && j < |b| && LastHost(a[..i]) == LastHost(b[..j])
    requires Encodable(a[i].request) && Encodable(b[j].request) && !SameRebirth(a[i].request, b[j].request)
    ensures a[i].request.oldHostPubkey == b[j].request.oldHostPubkey
    ensures Canonical(a[i].request) != Canonical(b[j].request)
    ensures |both| >= 2 * p.opThreshold - |Elements(p.pinned)| && both <= Elements(p.pinned)
    ensures both == SignerSet(a[i].request) * SignerSet(b[j].request)
    ensures forall key :: key in both ==> SignedBy(c, a[i].request, key) && SignedBy(c, b[j].request, key)
  {
    hide LineageError, Canonical, SameRebirth, SignedBy, SignerSet;
    if Canonical(a[i].request) == Canonical(b[j].request) {
      CanonicalInjective(a[i].request, b[j].request);
    }
    SuccessionKnown(c, a, p, i);
    SuccessionKnown(c, b, p, j);
    RecordEvidence(c, a, p, i);
    RecordEvidence(c, b, p, j);
    both := SignerSet(a[i].request) * SignerSet(b[j].request);
    OverlapWithin(SignerSet(a[i].request), SignerSet(b[j].request), Elements(p.pinned));
  }

  /** Accepted lineages that record different rebirths anywhere have a first parting, with those double signers. */
  lemma {:induction false} DivergingLineages(c: Primitives, a: seq<LineageRecord>, b: seq<LineageRecord>, m: nat,
                                             p: Policy)
    returns (i: nat, both: set<Bytes>)
    requires LineageError(c, a, p).None? && LineageError(c, b, p).None?
    requires m < |a| && m < |b| && !SameRebirth(a[m].request, b[m].request)
    requires forall l :: 0 <= l <= m ==> Encodable(a[l].request) && Encodable(b[l].request)
    ensures i <= m && forall l :: 0 <= l < i ==> SameRebirth(a[l].request, b[l].request)
    ensures a[i].request.oldHostPubkey == b[i].request.oldHostPubkey
    ensures Canonical(a[i].request) != Canonical(b[i].request)
    ensures |both| >= 2 * p.opThreshold - |Elements(p.pinned)| && both <= Elements(p.pinned)
    ensures both == SignerSet(a[i].request) * SignerSet(b[i].request)
    ensures forall key :: key in both ==> SignedBy(c, a[i].request, key) && SignedBy(c, b[i].request, key)
  {
    hide LineageError, Canonical, SignedBy, SignerSet;
    i := 0;
    while SameRebirth(a[i].request, b[i].request)
      invariant i <= m && forall l :: 0 <= l < i ==> SameRebirth(a[l].request, b[l].request)
      decreases m - i
    {
      i := i + 1;
    }
    assert LastHost(a[..i]) == LastHost(b[..i]) by {
      if i > 0 {
        assert SameRebirth(a[i - 1].request, b[i - 1].request);
      }
    }
    both := ForkNeedsDoubleSigners(c, a, i, b, i, p);
  }

  lemma {:induction false} SuccessionKnown(c: Primitives, records: seq<LineageRecord>, p: Policy, i: nat)
    requires LineageError(c, records, p).None? && i < |records|
    ensures records[i].request.oldHostPubkey == LastHost(records[..i])
  {
    hide OperatorError, ExecuteError;
    RecordsErrorMeaning(c, records, p, 0);
    assert RecordOk(c, records, p, i);
  }
}
