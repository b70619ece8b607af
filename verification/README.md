# 963causal: verified model of the agent's cryptographic protocols

This project models, in Dafny 4.11, the parts of the 963causal agent that decide who holds a key, who may speak
for a roster and when a measurement still belongs to a machine, and proves what they guarantee over all inputs and
whole runs. `dafny verify dfyconfig.toml` checks everything.

## What is modelled

**Secret sharing and the quorum envelope** (`Gf256`, `Polynomials`, `Shamir`, `Envelope`). The multiplication of
GF(2^8) is defined independently of the program, as the carry-less product of section 4.2 of FIPS 197. The log/exp
tables are filled by the program's loop, and the table product is proved to be that multiplication, which rests on 3
generating all 255 non-zero bytes and on distributivity. On top of this field: a polynomial of length k with k roots
is zero, Lagrange interpolation at 0 is exact, any k shares restore the secret, k - 1 shares fit every secret equally,
each under exactly one draw of the random coefficients. Three levels up, any number of recoveries to new hosts and
rosters keeps the data key, and the newest host can read the data exactly when its roster size and threshold are the
original ones.

**The roster chain** (`Epochs`, `RosterChain`, `RosterSafety`, `RosterSealing`, `RosterForks`). The hash-linked list of
witness rosters with its three sealers and its one verifier. The last hash fixes the whole history. Two diverging
continuations carry the signatures of at least r + r' - n witnesses on both, r and r' being the required counts; a fork
needs such a double signer exactly when r + r' > n. A chain built by the sealers is accepted exactly when the ceremony
keys are distinct and pinned and every emergency epoch waits out its declared period.

**The attestation quorum** (`DaqProtocol`, `DaqMask`, `DaqClient`, `DaqSequential`, `DaqTicket`, `DaqQuorum`,
`DaqSkippedHop`). The agent's client, the ticket and its separate verifier. In parallel mode the outcome is a function
of the replies that get through, their order forgotten, and its tickets verify; cancelling late requests changes who
signs but never whether the round succeeds. In sequential mode a round yields a verifying ticket exactly when each of
the first k witnesses signs over the signature handed on by the one before.

**The rebirth protocol** (`Phoenix`, `PhoenixLineage`, `PhoenixRuns`). Requests sealed by M of N operators,
witness attestations after a cool-down, execution, and the lineage ledger. Accepted lineages are prefix-closed,
extendable by exactly the right records and carry the evidence they should; everything the protocol executes is
accepted; a rebirth goes through exactly when its participants follow the rules.

**The fuzzy extractor and the drift detector** (`Bits`, `Hamming`, `FuzzyExtractor`, `Statistics`, `Cusum`,
`CusumAlarms`, `DriftPipeline`). A bit-packed Hamming(7,4) stream codec in a code-offset construction: the key comes
back exactly when every group of seven bits drifted in at most one place. The CUSUM recursion equals the largest sum
over any final stretch of cycles, and every alarm is an exact bound on the flips in some window; one-pass statistics
equal the two-pass definitions; one flip vector links both halves.

`Combinatorics`, `Encoding`, `Sorting`, `Crypto` and `Wrappers` hold what several of these share.

Code that works by loops and updates is a method with invariants, proved equal to a specification function; what
the code promises is then proved about that function. `Tables`, `Detector`, `BitBuilder` and `Chain` are classes
because the program updates their state in place.

## Assumptions

- Hash, Ed25519 and BDN functions are parameters. `Crypto.Sound` says that honestly made signatures verify and have
  their sizes; `DaqMask.BdnSound` says that aligned valid signatures aggregate to one that verifies. Each theorem
  names what it uses. No hash is assumed injective: where a collision would spoil a result, the result names it.
- The sequential theorems assume that no signature counts for two hop numbers; `DaqTicket.HopsAreBound` and
  `DaqQuorum.InputsAreBound` derive this from the encoding, one message per signature, and a hash that keeps the hop
  inputs apart. Where a theorem assumes honest witnesses, they answer only requests with a valid agent signature and a
  well-formed signing input; `DaqQuorum.SequentialRoundVerifies` assumes nothing of them.
- NaCl box and the AEAD are ideal: a ciphertext is the record of how it was made and opens for exactly that.
- The HKDF commitment of the fuzzy extractor is an arbitrary function.
- Random bytes, clocks and network replies are inputs. The concurrent requests of parallel mode become an arbitrary
  arrival order and an arbitrary set of replies.
- Floating-point numbers are reals and the square root is a parameter.
- Go's `int` and `int64` timestamps are 64-bit integers; sums of timestamps wrap around as in Go.
- Three panics that inputs can reach are modelled as results: `SlicePanic` (combining with a threshold below 1),
  `KeySizePanic` (a roster key of the wrong size met while verifying a transition) and `NilKeyPanic` (listing the
  participants of a roster with a missing key).
- Library sorts are a stable insertion sort; where keys determine elements the ascending order is unique
  (`Sorting.SortUnique`), so the algorithm does not matter.
- The participation mask follows the signature library: bit i of byte i / 8, low bit first, and a mask of another
  length than the roster needs is refused.

## Where code and documentation part

- The comment on epoch witnesses asks for indices 0 to n - 1; neither sealers nor verifier check it. Signer numbers
  are list positions, not those indices. With distinct indices the order of the list leaves no trace in the hash,
  `Epochs.AgreeingEpochsEncodeAlike`; with a repeated one it does, `Epochs.RepeatedIndexShows`.
- A fork of the roster chain needs a double signer only if the threshold exceeds half of the roster, which neither
  sealers nor verifier ask for: `RosterForks.DoubleSignerIff`, and `PhoenixRuns.DisjointSuccessions` for operators.
- `VerifyChain` never looks at an epoch's own threshold. A successor always carries a signature exactly when the
  threshold before it is positive and the roster not empty, `RosterForks.SignatureDemandedIff`; the sealers see to that,
  `RosterForks.GrownThresholds`.
- `Execute` and `VerifyLineage` count witness indices and pin no witness keys; k different indices need not be k
  different keys: `PhoenixRuns.IndicesAreNotKeys`.
- `SealEmergencyTransition` does not check that activation waits out the declared period; `VerifyChain` does.
  `RosterSealing.GrownChainAcceptedIff` states the exact consequence, `RosterForks.UntimelyRefused` the failing chains
  and `RosterForks.MillisecondTooEarly` a concrete one.
- `ReSeal` to a roster of another size or threshold succeeds and leaves an envelope that cannot be opened, because
  the ciphertext stays bound to the original sizes: `Envelope.NewestHostOpens`.
- The sequential client numbers hops by roster slot, the verifier by ticket position. A skipped witness makes a ticket
  that the client returns and the verifier refuses: `DaqQuorum.SkippedWitnessRefused` for all such rounds,
  `DaqSkippedHop.ReturnedButRefused` for a concrete one with three witnesses. `DaqQuorum.SequentialRoundVerifies` gives
  the exact condition on the replies. Without slot 0 nothing is ever returned: `DaqQuorum.FirstWitnessNeeded`.
- `WitnessInput` does not bound the op id and chain name by their 16-bit length fields, as the agent's encoder does.
  Beyond the bound its encoding is not injective: `DaqProtocol.LongIdentifiersCollide`. The collision stops at the
  agent's signature check, which enforces the bound: honest witnesses make it before they sign and the verifier makes
  it first, and among requests that pass it nothing collides, `DaqProtocol.AcceptedPreimageInjective`.
- `VerifyTicket` takes the threshold from the ticket itself; it is not compared with the deployment's. What an accepted
  ticket shows is therefore relative to that field: `DaqTicket.AcceptedTicketEvidence`.
- A comment in `Observe` gives the per-bit slack as half a standard deviation; the code takes half the distance to the
  alternative rate, at least 0.01, and so does the model.
- `VerifyLineage` asks for no freshness between records: one executed earlier is accepted again as soon as the lineage is
  back at the host it led away from, `PhoenixLineage.RepeatedIff`.
- `VerifyLineage` is described as following a service; it compares hosts and never service ids:
  `PhoenixRuns.ServiceMayChange`. A grown ledger follows one service exactly when its operators named one throughout:
  `PhoenixRuns.OneServiceIff`.

## Model

| member | source | states |
|---|---|---|
| Gf256.ExpInjective | internal/qee/shamir.go:192-213 | the 255 powers of 3 met by the table loop are pairwise different |
| Gf256.LogExists | internal/qee/shamir.go:192-213 | every non-zero byte is one of those powers, so every log entry gets written |
| Gf256.MulByLog | internal/qee/shamir.go:217-222 | the carry-less product is the power of 3 whose exponent is the sum of the logs mod 255 |
| Gf256.MulDistributes | internal/qee/shamir.go:215-222 | the product distributes over gfAdd, the xor |
| Gf256.MulAssoc | internal/qee/shamir.go:217-222 | the product is associative |
| Shamir.Tables.constructor | internal/qee/shamir.go:192-213 | initialisation leaves exp[i] = 3^i, exp[255] = 1 and log its inverse |
| Shamir.Tables.Fill | internal/qee/shamir.go:192-213 | the loop fills both tables, never writing a log entry twice |
| Shamir.Tables.GfMul | internal/qee/shamir.go:217-222 | table look-up equals the field multiplication for all pairs of bytes |
| Shamir.Tables.GfInv | internal/qee/shamir.go:224-233 | the result is the multiplicative inverse of every non-zero byte |
| Shamir.EvalPoly | internal/qee/shamir.go:173-179 | Horner's loop evaluates the polynomial |
| Polynomials.RootsForceZero | internal/qee/shamir.go:173-179 | k coefficients with k distinct roots are all zero |
| Polynomials.LagrangeAtZero | internal/qee/shamir.go:139-168 | interpolation at 0 through k points of a polynomial of length k gives its constant term |
| Shamir.Split | internal/qee/shamir.go:58-105 | errors in order, else share s of every byte is its drawn polynomial at s, for s from 1 to n |
| Shamir.Combine | internal/qee/shamir.go:112-169 | errors in order, else Lagrange interpolation at 0 of the first threshold shares; the zero-denominator error never occurs |
| Shamir.IndexErrorMeaning | internal/qee/shamir.go:128-137 | the index scan passes exactly when the indices are distinct and non-zero |
| Shamir.SplitThenCombine | internal/qee/shamir.go:58-169 | any k or more shares, in any order, with the first k distinct, give back the secret |
| Shamir.EveryCandidateOnce | internal/qee/shamir.go:75-104 | given k - 1 shares of a byte, every candidate byte is explained by exactly one choice of coefficients |
| Shamir.SharesHideSecret | internal/qee/shamir.go:75-104 | the same for whole secrets: each candidate secret has exactly one table of polynomials behind the k - 1 shares |
| Shamir.DrawHidesSecret | internal/qee/shamir.go:75-104 | whatever k - 1 holders see of a split, any other secret of that length would have shown them exactly that under one choice of the random coefficients, and under one only |
| Shamir.CombinedIff | internal/qee/shamir.go:112-169 | combining succeeds exactly on at least k >= 1 shares, the first k of one length with distinct non-zero indices |
| Envelope.EnvelopeADInjective | internal/qee/envelope.go:346-351 | the authenticated data determines roster size and threshold |
| Envelope.Seal | internal/qee/envelope.go:94-161 | errors, else the data key boxed to the host and its shares boxed to the witnesses, around a ciphertext bound to (n, k) |
| Envelope.ReSeal | internal/qee/envelope.go:224-270 | the same wrapping for a new host and roster around the unchanged ciphertext and nonce |
| Envelope.RecoverDEK | internal/qee/envelope.go:195-212 | quorum check, combination and size check |
| Envelope.UnboxYieldsPick | internal/qee/envelope.go:278-287 | the witnesses who answer open exactly their own shares of the data key |
| Envelope.RecoverIff | internal/qee/envelope.go:195-287 | a round of unboxing, recovery and re-sealing succeeds exactly when k slots, the first k distinct, answer and the new sizes satisfy 1 <= k <= n <= 255 |
| Envelope.RecoverAllIff | internal/qee/envelope.go:195-287 | exactly the sequences of such rounds go through |
| Envelope.RecoverAllKeepsKey | internal/qee/envelope.go:224-270 | after any number of rounds the envelope still wraps the original data key |
| Envelope.NewestHostOpens | internal/qee/envelope.go:94-286 | the newest host gets the original plaintext if its (n, k) equal the original ones, and the AEAD error otherwise |
| Envelope.OpenSiliconIff | internal/qee/envelope.go:168-187 | any envelope opens with a key exactly when it wraps for that host the key and nonce of its own data, bound to its own sizes |
| Envelope.OtherHostRefused | internal/qee/envelope.go:168-187 | after any rounds no host but the newest opens the envelope |
| Envelope.UnboxShareIff | internal/qee/envelope.go:278-287 | a share comes out exactly of a box made for that witness that holds an index and at least one byte |
| Envelope.QuorumMinusOneLearnsNothing | internal/qee/envelope.go:94-287 | what any k - 1 witnesses open, they would have opened from a twin envelope around any other data key too |
| Epochs.CanonicalBytes | internal/daq/roster_chain.go:176-207 | the encoder writes the canonical bytes: header, numbers, length-prefixed fields, witnesses sorted by index, emergency flag |
| Epochs.CanonicalInjective | internal/daq/roster_chain.go:176-207 | equal bytes mean equal fields, witness lists up to order, for values within the encoded widths |
| Epochs.AgreeingEpochsEncodeAlike | internal/daq/roster_chain.go:176-207 | conversely epochs that agree and have distinct witness indices encode alike, in whatever order the roster is listed |
| Epochs.RepeatedIndexShows | internal/daq/roster_chain.go:176-207 | two entries with one index, listed in the two orders, make agreeing epochs that encode differently |
| Epochs.CanonicalLayout | internal/daq/roster_chain.go:176-207 | where every field lies in the canonical bytes |
| Epochs.MessagesCommit | internal/daq/roster_chain.go:209-248 | the ceremony, transition and announcement messages bind the canonical bytes, or the hash collides, and none serves as one of another kind |
| RosterChain.VerifyCeremony | internal/daq/roster_chain.go:561-580 | the ceremony loop reports the first bad signature |
| RosterChain.VerifySigners | internal/daq/roster_chain.go:606-624 | the signer loop reports the first bad signer and slices the signature blob in 64-byte steps |
| RosterChain.VerifyChain | internal/daq/roster_chain.go:543-627 | result of the replay, and the cached hash written into every epoch looked at, also on failure |
| RosterChain.CachesMeaning | internal/daq/roster_chain.go:543-627 | the replay stops behind the first bad epoch, and exactly the epochs looked at get the digest of their canonical bytes cached |
| RosterChain.AcceptedIff | internal/daq/roster_chain.go:543-627 | accepted exactly when every epoch is numbered by position, linked to its predecessor's hash and endorsed by enough distinct valid signers, an emergency one with its announcement signature verified and its waiting period over |
| RosterChain.EmergencyErrorMeaning | internal/daq/roster_chain.go:508-529 | emergency parameters pass exactly with a day's waiting, activation after it, a 32-byte key and a 64-byte signature of the announcement digest that verifies |
| RosterChain.SuperMajorityMeaning | internal/daq/roster_chain.go:590-601 | the emergency quorum is the least number of signers that makes four fifths of the roster |
| RosterSafety.LastHashFixesHistory | internal/daq/roster_chain.go:543-586 | accepted chains with equal last hashes have equal length and agree epoch by epoch, or two of their epochs collide |
| RosterSafety.ForkNeedsDoubleSigners | internal/daq/roster_chain.go:587-624 | two successors of one epoch with different bytes share at least r + r' - n signers, each with a valid signature among those both epochs carry, on messages that differ or collide |
| RosterSafety.ForkedChains | internal/daq/roster_chain.go:587-624 | where two accepted chains continue differently from the same n witnesses, in any order, and threshold t: at least 2t - n roster entries, t + ceil(4n/5) - n if one side is an emergency, have valid signatures among those carried on both sides |
| RosterSafety.DivergingChains | internal/daq/roster_chain.go:543-627 | accepted chains from the same genesis bytes that differ anywhere agree up to a first parting, where the bytes differ and at least r + r' - n entries of the last common roster have valid signatures among those carried on both sides |
| RosterSealing.SealGenesis | internal/daq/roster_chain.go:261-312 | errors in order, else the genesis epoch with one ceremony signature per key |
| RosterSealing.SealTransition | internal/daq/roster_chain.go:321-383 | errors in order, else the successor with the concatenated signatures |
| RosterSealing.SealEmergencyTransition | internal/daq/roster_chain.go:406-499 | the same with 80 percent of signers and a signed announcement |
| RosterSealing.GenesisSealsIff | internal/daq/roster_chain.go:261-312 | a genesis epoch seals exactly with 1 <= threshold <= roster size and at least two signers whose private keys match, and holds what it was given |
| RosterSealing.SealsIff | internal/daq/roster_chain.go:321-499 | a transition seals exactly with a hashed current epoch, an allowed threshold and enough distinct signers of the current roster, each with its own key; an emergency one also needs four fifths of the roster, a declaration, a day's waiting and its announcement key |
| RosterSealing.SignatureSlices | internal/daq/roster_chain.go:375-380 | slicing the concatenation in 64-byte steps returns each signature |
| RosterSealing.EmergencyAccepted | internal/daq/roster_chain.go:406-529 | a sealed emergency epoch satisfies the verifier exactly when it activates no earlier than declared plus waiting |
| RosterSealing.GrownChainAcceptedIff | internal/daq/roster_chain.go:261-627 | a chain grown by the sealers is accepted exactly when ceremony keys are distinct and pinned and all emergencies are timely |
| RosterForks.DoubleSignerIff | internal/daq/roster_chain.go:587-624 | any two different successors share an endorser exactly when the two required counts add up to more than the roster |
| RosterForks.DisjointFork | internal/daq/roster_chain.go:321-499 | otherwise the sealers make two different acceptable successors with disjoint endorsers |
| RosterForks.SignatureDemandedIff | internal/daq/roster_chain.go:587-601 | every acceptable successor carries a signature exactly when the threshold before it is positive and the roster not empty |
| RosterForks.GrownThresholds | internal/daq/roster_chain.go:321-499 | the sealers keep every threshold between 1 and the roster size |
| RosterForks.ActivationNotSealed | internal/daq/roster_chain.go:406-499 | an emergency that seals also seals with any other activation time |
| RosterForks.UntimelyRefused | internal/daq/roster_chain.go:406-529 | any grown chain ending in an emergency, grown with an untimely activation instead, still seals and is refused |
| RosterForks.MillisecondTooEarly | internal/daq/roster_chain.go:406-529 | a concrete chain: accepted when the waiting period is over, sealed but refused a millisecond earlier |
| DaqProtocol.CanonicalRequestBytes | internal/daq/protocol.go:108-136 | size errors in order, else the agent's bytes |
| DaqProtocol.WitnessInput | internal/daq/protocol.go:155-197 | size errors in order, else the hash of the preimage for the mode |
| DaqProtocol.VerifyAgentSignature | internal/daq/protocol.go:202-217 | size errors in order, then the signature over the agent's bytes |
| DaqProtocol.AgentSignatureMeaning | internal/daq/protocol.go:202-217 | a request passes exactly when key, signature, hash and beacon signature have their sizes, the identifiers fit 16 bits, and its own key verifies its signature of its bytes |
| DaqProtocol.WitnessInputMeaning | internal/daq/protocol.go:155-197 | which requests and hops have a signing input, and that it is the digest of the preimage |
| DaqProtocol.AgentLayout | internal/daq/protocol.go:108-136 | where the fields lie in the agent's bytes |
| DaqProtocol.PreimageLayout | internal/daq/protocol.go:155-197 | where the fields lie in a witness's preimage |
| DaqProtocol.AgentBytesInjective | internal/daq/protocol.go:108-136 | the agent's bytes determine every field they carry |
| DaqProtocol.WitnessPreimageInjective | internal/daq/protocol.go:155-197 | the preimage determines operation, agent key, mode, hop number and previous signature, for op id and chain name below 65536 bytes |
| DaqProtocol.LongIdentifiersCollide | internal/daq/protocol.go:155-197 | without that bound two different requests have the same preimage |
| DaqProtocol.AcceptedPreimageInjective | internal/daq/protocol.go:155-217 | for requests that pass the agent signature check the preimage determines all of this without a further bound |
| DaqMask.AggregateSigs | internal/daq/bls.go:214-255 | errors in order, else aggregate, mask of the given positions and number of set bits |
| DaqMask.VerifyAggregate | internal/daq/bls.go:264-294 | errors in order, the participant count being that of the set bits |
| DaqMask.AggregateErrorMeaning | internal/daq/bls.go:264-294 | accepted exactly with a full roster, fitting sizes, at least min bits set and an aggregate that verifies for the masked keys |
| DaqMask.AggregatedMeaning | internal/daq/bls.go:214-255 | aggregation succeeds exactly for positions within a full roster, and the returned mask has exactly those bits set |
| DaqMask.Participants | internal/daq/bls.go:299-321 | errors and the nil-key panic in order, else the positions of the set bits, ascending |
| DaqMask.ParticipantsMeaning | internal/daq/bls.go:299-321 | the errors by roster and mask size, else exactly the positions of the set bits, ascending |
| DaqMask.MaskOfMeaning | internal/daq/bls.go:229-241 | setting bits one by one leaves exactly the given positions set |
| DaqMask.EnabledOfAscending | internal/daq/bls.go:299-321 | reading a mask of ascending positions gives those positions back in that order |
| DaqClient.WithDefaults | internal/daq/client.go:61-98 | configuration errors in order |
| DaqClient.ConfigMeaning | internal/daq/client.go:61-98 | accepted exactly with distinct indices below the roster size, a key for each, 1 <= k <= n and a known mode |
| DaqClient.SortedIsIndexed | internal/daq/client.go:82-97 | an accepted roster, sorted, has index i at position i: n distinct indices below n leave no gap |
| DaqClient.SortedArrivals | internal/daq/client.go:217-237 | sorting the good replies by index forgets the order in which they arrived |
| DaqClient.RequestParallel | internal/daq/client.go:174-265 | for the replies that get through, the outcome is a function of those replies, their order of arrival forgotten |
| DaqTicket.ParallelTicketVerifies | internal/daq/client.go:174-265 | success exactly with threshold good replies; the mask names the lowest good slots in order; the ticket verifies exactly when the agent's signature does |
| DaqTicket.ParallelTicketContents | internal/daq/client.go:244-265 | the i-th witness record holds the i-th good slot, its key and the signature it posted |
| DaqSequential.RequestSequential | internal/daq/client.go:267-318 | the chain collected by walking the slots, or the stall error |
| DaqSequential.WalkMeaning | internal/daq/client.go:267-318 | every hop of the chain names its own slot, ascending, and verified over that slot's number and the previous signature; at most k hops |
| DaqTicket.VerifyTicket | internal/daq/client.go:419-474 | verification errors in order, for both modes |
| DaqTicket.TicketErrorMeaning | internal/daq/client.go:419-474 | a ticket is accepted exactly when the agent's signature verifies, 1 <= k <= n, and an aggregate over at least k roster keys verifies the parallel digest or at least k different slots sign their hops' digests in a chain |
| DaqTicket.ChainErrorMeaning | internal/daq/client.go:441-470 | a chain passes exactly when all its hops are by different roster slots and verify over their position in the ticket |
| DaqTicket.HopsAreBound | internal/daq/protocol.go:169-196 | the hop number in the preimage keeps a signature from counting for two hops |
| DaqTicket.SequentialTicketVerifies | internal/daq/client.go:267-470 | a returned ticket has k signers, the first being slot 0, and verifies exactly when its signers are slots 0 to k - 1 |
| DaqTicket.SilentWitnessSpoilsChain | internal/daq/client.go:275-309 | with one of the first k witnesses silent no returned ticket verifies |
| DaqTicket.AcceptedTicketEvidence | internal/daq/client.go:419-474 | in any accepted ticket the agent's signature verifies and there are at least its own threshold of different roster slots, behind a verifying aggregate or each with a verifying signature over its hop |
| DaqQuorum.InputsAreBound | internal/daq/client.go:288-289 | also where the client ignores an input error, a signature fits only one hop |
| DaqQuorum.SequentialRoundVerifies | internal/daq/client.go:267-470 | a sequential round yields a verifying ticket exactly when the agent signature is valid and each of the first k slots signs its own hop over the signature handed on by the slot before |
| DaqQuorum.FirstWitnessNeeded | internal/daq/client.go:274-313 | a returned ticket needs slot 0's signature; with slot 0 silent the round stalls |
| DaqQuorum.FirstWitnessesSuffice | internal/daq/client.go:267-318 | when the first k witnesses all answer, a ticket is returned and verifies |
| DaqQuorum.SkippedWitnessRefused | internal/daq/client.go:267-470 | with slot 0 and at least k witnesses answering but one of the first k silent, a ticket is returned and refused |
| DaqSkippedHop.ReturnedButRefused | internal/daq/client.go:267-470 | a concrete round of three witnesses, the second silent: the ticket is returned and refused |
| DaqQuorum.CancellationHarmless | internal/daq/client.go:219-234 | with late requests cancelled, a parallel round succeeds exactly when at least threshold witnesses would have answered well |
| DaqQuorum.RequestQuorum | internal/daq/client.go:150-166 | the result passes the verifier exactly when configuration and agent signature are in order and the mode's quorum condition holds |
| Phoenix.SealRequestMultiOp | internal/rebirth/phoenix.go:171-216 | errors in order, else the request with one signature per key, and the legacy pair for a single key |
| Phoenix.VerifyOperator | internal/rebirth/phoenix.go:229-284 | operator errors in order, with the legacy pair as fall-back |
| Phoenix.Attest | internal/rebirth/phoenix.go:319-354 | refusals in order, else the signed observation |
| Phoenix.Execute | internal/rebirth/phoenix.go:382-428 | refusals in order, else the record |
| Phoenix.VerifyLineage | internal/rebirth/phoenix.go:443-470 | first problem of the replay |
| PhoenixLineage.LineageMeaning | internal/rebirth/phoenix.go:443-470 | accepted exactly when not empty and every record names its predecessor's host, carries enough valid operator signatures and enough valid attestations, and was executed after the cool-down |
| PhoenixLineage.CanonicalInjective | internal/rebirth/phoenix.go:133-142 | the canonical bytes determine every field but the signatures |
| PhoenixLineage.AttestationInjective | internal/rebirth/phoenix.go:303-309 | the attestation preimage determines request and observation time |
| PhoenixLineage.CanonicalLayout | internal/rebirth/phoenix.go:133-142 | where every field lies in the canonical bytes |
| PhoenixLineage.AttestationBinds | internal/rebirth/phoenix.go:303-309 | what a witness signs is bound to one rebirth and one time of observation, or the hash collides on two explicit preimages |
| PhoenixLineage.ExecutionsShareNoAttestation | internal/rebirth/phoenix.go:303-428 | with one digest per signature, two executions that share an attestation are of the same rebirth, or the hash collides |
| PhoenixLineage.OperatorsMeaning | internal/rebirth/phoenix.go:229-284 | accepted exactly with at least M signatures, all by different pinned keys and valid for these bytes |
| PhoenixLineage.ExecuteMeaning | internal/rebirth/phoenix.go:382-428 | executable exactly with at least k attestations by different indices, all valid and observed after the cool-down, at a time after it |
| PhoenixLineage.PrefixAccepted | internal/rebirth/phoenix.go:443-470 | every non-empty prefix of an accepted lineage is accepted |
| PhoenixLineage.ExtendedAccepted | internal/rebirth/phoenix.go:443-470 | the accepted one-record extensions are exactly the authorised, executable records starting at the last host |
| PhoenixLineage.RepeatedIff | internal/rebirth/phoenix.go:443-470 | a record of an accepted lineage is accepted a second time exactly when the lineage is back at the host it led away from |
| PhoenixLineage.RecordEvidence | internal/rebirth/phoenix.go:443-470 | every record carries valid signatures of its bytes by at least M different pinned keys and valid attestations under at least k different indices, all after the cool-down |
| PhoenixLineage.ForkNeedsDoubleSigners | internal/rebirth/phoenix.go:443-470 | where two accepted lineages follow different successions from the same last host, at least 2M - N operators have valid signatures in both, on different bytes |
| PhoenixLineage.DivergingLineages | internal/rebirth/phoenix.go:443-470 | accepted lineages that record different rebirths anywhere have a first parting, with those double signers |
| PhoenixRuns.SealedVerifies | internal/rebirth/phoenix.go:171-284 | a sealed request verifies exactly when at least M operators with different, pinned keys sealed it |
| PhoenixRuns.SealedContents | internal/rebirth/phoenix.go:171-216 | a request seals exactly with a service id, a 32-byte host key and at least one key, all of 64 bytes, and holds one signature of its own bytes per key |
| PhoenixRuns.MillisecondsMeaning | internal/rebirth/phoenix.go:198-331 | durations become whole milliseconds, truncated toward zero |
| PhoenixRuns.LegacyPairSuffices | internal/rebirth/phoenix.go:208-256 | for a singly sealed request the legacy pair alone leads to the same verdict |
| PhoenixRuns.AttestedExecutes | internal/rebirth/phoenix.go:319-428 | signed attestations execute exactly with at least k different indices, all observed after the cool-down |
| PhoenixRuns.AttestedForOneRebirth | internal/rebirth/phoenix.go:319-428 | attestations made for one rebirth execute no other, unless the hash collides |
| PhoenixRuns.AttestIff | internal/rebirth/phoenix.go:319-345 | a witness attests exactly when the operators are in order, the cool-down meets its floor and the time lies between the request and the wrapped end of five cool-downs |
| PhoenixRuns.IndicesAreNotKeys | internal/rebirth/phoenix.go:406-422 | attestations by a single key under k indices execute |
| PhoenixRuns.UsableWindow | internal/rebirth/phoenix.go:328-345 | a witness endorses usably exactly from one to five cool-downs after the request, at or above its floor; the window is empty where its end leaves 64 bits, and for negative cool-downs except where only the fivefold sum wraps around |
| PhoenixRuns.LedgerAccepted | internal/rebirth/phoenix.go:171-470 | every ledger grown by seal, attest and execute steps is accepted by the verifier with the same policy |
| PhoenixRuns.PerformedIff | internal/rebirth/phoenix.go:171-428 | from any ledger a rebirth goes through exactly when its participants follow the stated rules |
| PhoenixRuns.ServiceMayChange | internal/rebirth/phoenix.go:443-470 | after any accepted lineage a well-conducted rebirth for another service goes through, and the verifier accepts the lineage with both service ids |
| PhoenixRuns.OneServiceIff | internal/rebirth/phoenix.go:443-470 | a grown ledger follows a single service exactly when its rebirths all name the same one |
| PhoenixRuns.DisjointSuccessions | internal/rebirth/phoenix.go:171-470 | with 2M at most the number of pinned operators, two disjoint sets of them lead any accepted lineage to two different hosts, both accepted |
| Bits.BitBuilder.AppendBit | internal/puf/quantize.go:156-166 | appends one bit to the packed contents |
| Bits.PackMeaning | internal/puf/quantize.go:151-170 | the builder's bytes carry exactly the appended bits, the unused high bits clear |
| Hamming.HammingDecode7to4 | internal/puf/hamming.go:53-78 | the result is the one nibble whose codeword differs from the input in at most one of seven bits |
| Hamming.EncodeLayout | internal/puf/hamming.go:36-46 | in every block of the stream the data bits stand at positions 3, 5, 6 and 7 and each parity bit makes its four positions even |
| Hamming.EncodeHamming74 | internal/puf/hamming.go:90-110 | the packed stream of encoded nibbles, or nothing if the length is not a multiple of 4 |
| Hamming.DecodeHamming74 | internal/puf/hamming.go:115-135 | the packed stream of decoded blocks, or nothing if the length is not a multiple of 7 |
| Hamming.BlockDecodes | internal/puf/hamming.go:36-78 | a block of the stream decodes to its data exactly when at most one of its bits was flipped |
| Hamming.StreamDecodes | internal/puf/hamming.go:90-135 | the decoded stream is the data exactly when no block has two flipped bits, for any buffer |
| FuzzyExtractor.ExtractBitsAt | internal/puf/fuzzy.go:244-252 | the packed selection of the indexed bits, 0 beyond the end |
| FuzzyExtractor.XorBytes | internal/puf/fuzzy.go:255-264 | bytewise xor, nothing for unequal lengths |
| FuzzyExtractor.Enroll | internal/puf/fuzzy.go:75-111 | errors in order, else the helper data masking the encoded secret with the selected bits |
| FuzzyExtractor.Reproduce | internal/puf/fuzzy.go:120-154 | errors in order, else the decoded secret if its commitment matches |
| FuzzyExtractor.EnrolledMeaning | internal/puf/fuzzy.go:75-111 | enrolment succeeds exactly with 224 indices and a fingerprint; bit b of the mask is code bit b xored with the bit measured at index b |
| FuzzyExtractor.ReproducedIff | internal/puf/fuzzy.go:120-154 | for any helper data, a secret is returned exactly when version, sizes and fingerprint are in order, it is the decoding of the unmasked word, and it meets the commitment |
| FuzzyExtractor.ReproducesIffTolerable | internal/puf/fuzzy.go:75-154 | the enrolled secret comes back exactly when each group of seven selected bits drifted in at most one place; otherwise an error or an explicit second preimage of the commitment |
| FuzzyExtractor.SelectReliableBits | internal/puf/quantize_v2.go:312-339 | the positions whose flip rate over the cycles is at most maxBER, none for unusable input |
| FuzzyExtractor.ReliableBitsMeaning | internal/puf/quantize_v2.go:312-339 | from at least two cycles of one length, exactly the bits that differ from the first cycle in at most maxBER times the number of later ones |
| FuzzyExtractor.ReliableBelowMembers | internal/puf/quantize_v2.go:330-338 | the selection is strictly ascending and holds exactly the reliable positions |
| FuzzyExtractor.CalibrationReproduces | internal/puf/keylife.go:220-228 | if the rate admits no flip over the cycles, enrolling the first cycle on the selected bits makes every cycle reproduce the key |
| DriftPipeline.ComputeBitDelta | internal/puf/cusum.go:331-348 | errors in order, else the vector of changed bits |
| DriftPipeline.DeltaMeaning | internal/puf/cusum.go:331-348 | succeeds exactly for fingerprints of one positive length and indices within it; entry i tells whether the bit at index i changed |
| DriftPipeline.DeltaDecidesKey | internal/puf/cusum.go:331-348 | the key comes back exactly when no group of seven of that vector holds two flips; never with more than 32 flips, always with at most one |
| Cusum.Calibrate | internal/puf/cusum.go:94-151 | errors in order, else the calibrated detector with zero sums |
| CusumAlarms.CalibrationMeaning | internal/puf/cusum.go:94-151 | Mu and the bit rates are flips counted per cycle, Sigma is the measured deviation but at least a half, K half of it and H five times it |
| Cusum.MeanIsSumOfRates | internal/puf/cusum.go:94-151 | Mu is the sum of the per-bit error rates, and K and H have their floors |
| Cusum.Detector.Observe | internal/puf/cusum.go:162-281 | the new sums and the verdict; nothing changes on a vector of the wrong width |
| CusumAlarms.BitSlackMeaning | internal/puf/cusum.go:228-238 | slack 0.0245 up to a rate of 0.001, half the distance to 0.05 up to 0.03, 0.01 from there on |
| CusumAlarms.VerdictMeaning | internal/puf/cusum.go:246-281 | the verdict's counts, peaks, alarms and level in terms of the sums |
| Cusum.Detector.ObserveBits | internal/puf/cusum.go:217-254 | the per-bit sums, their peaks with first positions, and the number of drifting bits |
| Cusum.Detector.Reset | internal/puf/cusum.go:288-298 | all sums and the counter back to zero |
| Cusum.RunIsPage | internal/puf/cusum.go:178-182 | after any run the aggregate sums are Page's recursion over the slack-adjusted deviations |
| Cusum.PageIsLargestSuffix | internal/puf/cusum.go:178-182 | from zero that recursion is the largest sum over any final stretch, the empty one included |
| Cusum.AggregateFiresIff | internal/puf/cusum.go:162-281 | the aggregate alarm holds exactly when some final stretch sums to more than H in one direction |
| CusumAlarms.AggregateAlarmIff | internal/puf/cusum.go:162-281 | in some final window of w cycles all bits' flips number more than w (Mu + K) + H or fewer than w (Mu - K) - H |
| Cusum.BitFiresIff | internal/puf/cusum.go:220-245 | a bit crosses 1.5 exactly when in some final window its flips exceed, or fall short of, what the window allows by more than 1.5 |
| CusumAlarms.BitAlarmIff | internal/puf/cusum.go:220-245 | the same with flips as sets of cycles and the window's allowance in plain numbers for every enrolled rate, upward and downward |
| CusumAlarms.StableBitAlarmIff | internal/puf/cusum.go:220-245 | a bit that never flipped in calibration alarms exactly when some final window of w cycles holds f flips with 10000 f > 15000 + 245 w, and never downward |
| CusumAlarms.TwoFlipsAlarmIff | internal/puf/cusum.go:220-245 | two flips of such a bit alarm at the second exactly when both lie within twenty cycles |
| Cusum.AlarmNeedsTwoFlips | internal/puf/cusum.go:220-245 | behind an upward crossing there is a final window with at least two flips of that bit, so short that its cycles' slack stays below the flips by more than 1.5 |
| Cusum.DownwardCanFireIff | internal/puf/cusum.go:220-245 | some run makes a bit's downward sum cross 1.5 exactly when its enrolled error rate is above 1/60; otherwise the sum never leaves zero |
| Cusum.SustainedDriftFires | internal/puf/cusum.go:178-182 | from any state, m cycles at Mu + K + eps or more with m * eps > H end in an aggregate alarm |
| Cusum.QuietRunStaysZero | internal/puf/cusum.go:178-182 | a run with every distance at most Mu + K never raises the upward sum from zero |
| Cusum.PeakMeaning | internal/puf/cusum.go:246-253 | the reported peak is the largest positive sum and its position the first that reaches it |
| Cusum.DriftCountMeaning | internal/puf/cusum.go:243-245 | the per-bit alarm holds exactly when some bit is over the threshold in one direction |
| Statistics.Mean | internal/puf/cusum.go:350-359 | the loop computes the arithmetic mean, 0 of nothing |
| Statistics.StdDev | internal/puf/cusum.go:361-371 | the loop computes the sample deviation around the given mean, 0 of fewer than two |
| Statistics.DeviationMeaning | internal/puf/cusum.go:361-371 | with a true square root, n - 1 times the squared result is the sum of squared distances, expanded in the power sums |
| Statistics.WelfordStep | internal/puf/fingerprint.go:224-243 | one turn of Welford's loop keeps mean and squared deviations exact |
| Statistics.CvOf | internal/puf/fingerprint.go:224-243 | the one-pass loop equals the two-pass deviation over the mean, with its zero cases |
| Statistics.WelfordRatio | internal/probe/mstc.go:245-267 | mean, deviation and number of exactly the ratios that are not skipped |
| Statistics.RatiosMeaning | internal/probe/mstc.go:245-267 | the kept ratios are the quotients at exactly the positions with a positive divisor, in order |
| Statistics.MedianMAD | internal/puf/fingerprint.go:198-216 | the upper median and the upper median of the absolute deviations |
| Statistics.MedianMeaning | internal/puf/fingerprint.go:198-216 | 0 of nothing, else a sample with at most half of the samples below and fewer than half above it |
| Statistics.MadMeaning | internal/puf/fingerprint.go:198-216 | the deviation is the distance of some sample from the median, with at most half of the samples nearer and fewer than half farther |
| Statistics.OrderIrrelevant | internal/puf/fingerprint.go:198-216 | both outputs are the same for every order of the samples |
| Statistics.MedianRobust | internal/puf/fingerprint.go:198-216 | with fewer than half of the samples, rounded up, replaced, the median lies between two untouched samples |

## Left out

- HTTP, JSON, drand fetching, retries, key files and the witness's handler beyond its refusals: transport around libraries.
- The insides of SHA3, HKDF, Ed25519, X25519, BLS12-381, BDN, NaCl box, ChaCha20-Poly1305 and COSE.
- Failures of the random source and of key generation, and wiping of key buffers.
- Nil pointers as arguments, and negative bit indices, which make the program panic.
- Labels, URLs and bearer tokens of witnesses, error texts, and levels as text: error kinds and levels are enumerations.
- `SealRequest`, `BuildRequest`, `Latest`: one call each to what is modelled.
- Threshold BLS (`internal/lbs`): a thin wrapper; its interpolation argument is the one proved for the secret shares.
- Time-entropy binding (`internal/teb`): simple guards around an ideal AEAD and a sine model.
- Measurement, quantisation buckets, pinning, CPU identification, eBPF sentinel, histograms and genotype.
- Statistical claims such as false-alarm rates and entropy.
- Secrecy of the ciphertexts, which is by construction of the ideal box; of the shares it is `Shamir.SharesHideSecret`.
- FuzzyExtractor.Reproduce: the constant-time comparison is plain equality.
- FuzzyExtractor.SelectReliableBits: the flip rate is compared over the reals, so rounding at the boundary is not modelled.
- PhoenixRuns.UsableWindow: for a cool-down whose fivefold leaves 64 bits, which no sealed request has, the window is given by the wrapped sums themselves.
- Cusum.Detector.Observe: sums are reals, so rounding and overflow to infinity are not modelled.
- Statistics.WelfordRatio: infinite and undefined quotients cannot occur over the reals, so only non-positive denominators are skipped.
