# CasperProver verification model

CasperProver offers verifiable computation: an engine (Go) produces range proofs, Merkle
aggregates and post-quantum signatures and tells subscribers about them by webhook; contracts
(Rust, Casper) keep a proof registry, staked collateral and governance; a TypeScript SDK checks
hashes offline. This project models the parts of it where a mistake would be hardest to see and
proves, in Dafny 4.11, what they promise. `dafny verify dfyconfig.toml` checks everything.

Each component has a pure specification (values, step functions, transitions), theorems about that
specification over all inputs and all runs, and the source's own imperative form (loops, arrays,
objects whose methods update fields) proved against the specification.

| files | component |
|---|---|
| Curve, RangeProof, RangeHiding | bit-decomposition range proof: completeness, extraction, witness hiding |
| Digests, Hex, MerkleRecursion | Merkle aggregate, inclusion proofs, binding |
| WebhookQueue, WebhookStore, WebhookHistory, WebhookRules, WebhookBreaker, WebhookBreakerRuns | delivery queue, retries, circuit breaker, dead letters |
| CasperValues, MapSums, ProofRegistry, StakeSlashing | the registry, the staking contract and its session code, as one world with money |
| Governance, GovernanceRights, GovernanceRuns | timelocked proposals, pause, guardian recovery |
| Lamport, HybridSignature, KeyRing, KeyRingRuns, KeyRingObject, KeyRingLoading | one-time signatures, hybrid encoding, key ring with rotation and snapshots |
| Words, Blake2b, Rfc7693 | 64-bit words on unbounded integers; BLAKE2b-256 against RFC 7693 |
| Numerals, Base58 | positional numerals; base58 as a bijection |
| FanOut | the concurrent fan-out over LLM providers as a state machine |
| TokenBucket, TokenBucketExact | the per-key rate limiter |
| Wrappers | Option and Result |

## What is assumed

- Curve points form a group that the order annihilates, whose encodings decode; the order is prime
  where extraction divides or a value is hidden, and G is then some multiple of H, which is not the
  identity. All points are taken to lie in that group. The laws are preconditions (`Curve.Lawful`),
  and a concrete group with a concrete fork meets all of them together (`RangeHiding.ForksExist`).
- SHA-256 and the Fiat-Shamir hash are arbitrary functions. Where security rests on one, the lemma
  returns a pair of colliding inputs instead of assuming there is none.
- Ed25519 and ML-DSA-65 are abstract schemes: signatures verify, and sizes are the standard ones.
- Randomness, clock readings, HTTP outcomes, map iteration order and goroutine scheduling are
  parameters, quantified over. Webhook clock readings do not go back; the token bucket and the
  governance theorems say so where they need a clock at all.
- The rate limiter's float64 arithmetic is over real numbers. Strings are counted in characters.
  JSON snapshots are the document value itself. Go subscription pointers are handles into a
  sequence of objects.
- A reverted deploy changes nothing. Host transfers fail exactly when the payer lacks the funds; in
  particular a transfer of zero goes through. All the money there is fits in 512 bits.
- Anyone may add money to the staking contract's purse, and only the contract's own payouts take it
  out. The entry point `get_purse` (contracts/stake-slashing/src/main.rs:134-137) hands every caller
  the stored purse reference as it is, and nothing in the source narrows its access rights;
  `AlwaysSolvent` rests on nobody withdrawing through it.
- A provider that returns no error returns a response. That every provider call returns, which the
  source leaves to the provider and its timeouts, is assumed only where `EveryRunReturns` counts on it.

## Where the code and its documentation differ

The model follows the code.

- The inclusion verifier's comment promises the leaf "at leafIndex", but the index is only
  range-checked: `InclusionAtIndexIff` gives the condition, over what the caller holds, under which
  the claim is right, `WrongIndexAccepted` shows it needed at every size, `RelabelledProof` is the
  smallest failure.
- The timelock on unpausing is there so that a legitimate pause cannot be undone at once. It runs
  from the filing of the unpause proposal, which may precede the pause: `PauseUndoneAtOnce` is such a
  run, `PauseHoldsIff` the exact condition under which a pause lasts the timelock.
- The governance header says a further signing call finalises a recovery; in the code only
  `execute_recovery` does (`OwnerChangesOnlyBy`, `ThreeSignaturesDoNotRecover`). The generic `execute`
  marks an owner transfer executed without rotating the owner (`GenericExecuteNeverRotates`,
  `TransferLost`; `TransferTookEffectIff` says when a transfer works). A gap in the guardian arguments
  hides a guardian (`EveryGuardianRecognisedIff`, `HiddenGuardian`).
- The staking contract's comment says a recording with no transfer behind it is capped at zero; it
  is capped at the surplus of the purse, whoever sent that (`RecordCommitsIff`), so any account can
  record and withdraw what any other sent (`UnbackedRecordingPaid`).
- Webhook backoff is described as capped at five minutes; no retried attempt gets beyond 64 seconds
  (`BackoffDoubles`). The random delay is described as below the cap; it is exactly when the random
  source works, and the cap itself when it fails (`Store.JitteredBackoff`).
- An open circuit is described as dispatching nothing (engine/internal/api/webhooks.go:104-106). It
  stops splits; a batch already split off still goes out (`AttemptMeetsOpenCircuit`), and
  `OpenAttemptIff` says which attempts those are. After a success "the next event is delivered right
  away" (:459-460); an event deferred during the pause keeps the end of the pause as its next try and
  waits for it all the same (`PauseOutlivesSuccess`, `DeferralOutlivesPause`).
- The fan-out's collector is described as waiting for the first success or until every goroutine
  finishes; it always waits for all of them (`ReturnsOnlyAfterAll`), so with two providers or more a
  success can be kept waiting (`WinnerWaitsIff`, `WinnerWaits`).
- The token bucket is described as 120 requests a minute; that is its rate, and the limit of a closed
  minute is exactly 240 (`MinuteLimitIs240`). A key's first call goes through whatever the bucket size, so
  both the bound and the range of the counts need a size of at least one (`LimitHoldsIff`,
  `RangeHoldsIff`).

## Model

| member | source | states |
|---|---|---|
| `RangeProof.RangeSound` | engine/internal/crypto/rangeproof.go:143-180 | Special soundness of the whole proof, for every bit count 1 to 64: an accepted proof and, for each bit on its own, a rerun under a second hash with the same commitment and first messages and a different challenge, yield, by an explicit formula, an opening of the aggregate commitment to a value in [0, 2^n). |
| `RangeProof.BitSound` | engine/internal/crypto/rangeproof.go:268-314 | Special soundness of one bit: a forked pair of accepted OR-proofs opens the bit commitment to 0 or to 1, whichever branch the fork falls on. |
| `RangeProof.SchnorrExtract` | engine/internal/crypto/rangeproof.go:297-312 | Two accepting answers with one first message and different challenges give the statement point as a computable multiple of H. |
| `RangeProof.ChallengeBinds` | engine/internal/crypto/rangeproof.go:268-369 | Fiat-Shamir binding: an accepted bit proof is accepted under another hash exactly when that hash gives the same challenge on the commitment and both first messages (or the commitment is G, where the second branch proves nothing). So all three are hashed, and nothing else counts. |
| `RangeProof.ProofBindsHash` | engine/internal/crypto/rangeproof.go:143-180 | Whether a whole proof is accepted depends on the hash only through the challenges at its own bits' commitments and first messages. |
| `RangeProof.ProverBindsHash` | engine/internal/crypto/rangeproof.go:202-266 | The prover asks for the same triple: with the same nonces it emits the same proof under two hashes if they agree there, and (unless the commitment is G) only then. |
| `RangeProof.OutOfRangeOpeningRevealsLog` | engine/internal/crypto/rangeproof.go:25-29 | What a forked prover that also opens the commitment to a value of 2^n or more (below the group order) gives away: the discrete logarithm of G to base H, by an explicit formula. |
| `RangeProof.TwoOpeningsRevealLog` | engine/internal/crypto/rangeproof.go:70-86 | Pedersen binding: two openings of one commitment with different values reveal the discrete logarithm of G to base H. |
| `RangeProof.BitComplete` | engine/internal/crypto/rangeproof.go:202-266 | The honest bit proof passes the verifier for both bits, every hash and every choice of nonces, and its commitment decodes to b*G + r*H. |
| `RangeProof.ProveRange` | engine/internal/crypto/rangeproof.go:90-140 | Completeness: the prover succeeds exactly for n in 1..64 and x below 2^n; whatever the randomness and the hash, the proof is accepted and commits to x under the weighted sum of the bit blindings. |
| `RangeProof.ProveBits` | engine/internal/crypto/rangeproof.go:124-135 | The per-bit loop: each entry is an accepted bit proof on a commitment to the matching bit of x. |
| `RangeProof.AggregateBlinding` | engine/internal/crypto/rangeproof.go:111-116 | The reduced running sum commits to the same point as the exact sum of 2^i * r_i. |
| `RangeProof.SumCommitments` | engine/internal/crypto/rangeproof.go:162-171 | The accumulator loop computes sum(2^i * C_i). |
| `RangeProof.VerifyRange` | engine/internal/crypto/rangeproof.go:143-180 | The verifier accepts exactly when every bit proof passes and the weighted sum of the bit commitments is the decoded aggregate; a rejected bit is named by its index. |
| `RangeProof.BitsAddUp` | engine/internal/crypto/rangeproof.go:11-13 | The bits of x, weighted by powers of two, add up to x modulo 2^n. |
| `RangeProof.WeightedComs` | engine/internal/crypto/rangeproof.go:17-19 | The homomorphic tie: a weighted sum of commitments is a commitment to the weighted sums. |
| `RangeHiding.EmittedIffAccepted` | engine/internal/crypto/rangeproof.go:202-314 | For either bit, the transcripts the honest prover can emit are exactly the canonically encoded transcripts the verifier accepts on its commitment. |
| `RangeHiding.BitHidden` | engine/internal/crypto/rangeproof.go:202-266 | Perfect witness hiding of one bit proof: if a commitment opens to both bits, every transcript of one prover is emitted by the other under exactly one draw of nonces. |
| `RangeHiding.ValueHidden` | engine/internal/crypto/rangeproof.go:25-140 | Perfect witness hiding of the whole proof: for any two values of n bits, every proof the prover for one can emit under randomness in range is emitted by the prover for the other under exactly one randomness in range. |
| `RangeHiding.SimulatedIsEmitted` | engine/internal/crypto/rangeproof.go:25-29 | Honest-verifier zero knowledge of a bit proof: for each challenge, every transcript a simulator writes from three scalars, knowing no opening, is emitted by the honest prover under exactly one draw of nonces. |
| `RangeHiding.EmittedIsSimulated` | engine/internal/crypto/rangeproof.go:25-29 | The converse: every transcript the honest prover emits for a challenge is the one the simulator writes from its three scalars. |
| `RangeHiding.NoncesDetermined` | engine/internal/crypto/rangeproof.go:213-257 | The nonces behind an emitted transcript are a function of it, so different nonces give different transcripts. |
| `RangeHiding.HonestForkRevealsBit` | engine/internal/crypto/rangeproof.go:182-266 | The extractor against the honest prover: answering two challenges with the same nonces is a fork of accepted proofs, and the bit extracted from it is the bit committed. |
| `RangeHiding.ForksExist` | engine/internal/crypto/rangeproof.go:182-200 | The assumptions of the soundness and hiding theorems hold together: over a concrete group of prime order there are an accepted proof and a forked rerun of its bit under a second hash. |
| `Curve.InverseCancels` | engine/internal/crypto/rangeproof.go:294-295 | Modulo a prime order the extended-remainder inverse undoes a multiplication; the division the extractor needs. |
| `Curve.ResiduesLawful` | engine/internal/crypto/rangeproof.go:43-57 | The laws assumed of the group, prime order included, are satisfiable: a concrete group meets all of them. |
| `MerkleRecursion.InclusionSound` | engine/internal/aggregator/merkle_recursion.go:187-230 | If the verifier accepts against the aggregate of a leaf list, the proof's leaf digest is the tagged digest of the leaf its Positions walk to from the root, staying on the last real node of odd levels; otherwise two colliding hash inputs are returned. |
| `MerkleRecursion.FoldSound` | engine/internal/aggregator/merkle_recursion.go:206-224 | The same at one level of digests: whatever folds up to the root is the walked-to node, or a collision. |
| `MerkleRecursion.InclusionAtIndexIff` | engine/internal/aggregator/merkle_recursion.go:174-202 | The documented claim "at leafIndex" holds of every accepted proof whose positions lead to leafIndex in a tree of agg.Count leaves, a condition on what the caller holds; where the leaves are pairwise different it holds of no other accepted proof (up to a returned collision). |
| `MerkleRecursion.WrongIndexAccepted` | engine/internal/aggregator/merkle_recursion.go:174-202 | The condition is needed at every size: for pairwise different leaves, every positions list leading elsewhere and every index in range, some accepted proof with those positions and that index does not show the leaf at it (or a collision is returned). |
| `MerkleRecursion.EveryWalkAccepted` | engine/internal/aggregator/merkle_recursion.go:187-230 | Every list of positions of the right length is accepted under every index in range, for the leaf it walks to. |
| `MerkleRecursion.HonestPositionsNameTheLeaf` | engine/internal/aggregator/merkle_recursion.go:187-230 | When Positions[k] is bit k of LeafIndex the walk ends at LeafIndex. |
| `MerkleRecursion.LeafIndexOnlyRangeChecked` | engine/internal/aggregator/merkle_recursion.go:197-199 | Replacing the index of an accepted proof leaves it accepted exactly when the new index is in range. |
| `MerkleRecursion.RelabelledProof` | engine/internal/aggregator/merkle_recursion.go:174-199 | Concrete counterexample to "at leafIndex": over two leaves, the proof of leaf 0 relabelled as leaf 1 is accepted. |
| `MerkleRecursion.BuiltProofAccepted` | engine/internal/aggregator/merkle_recursion.go:118-230 | Completeness: for every leaf list and in-range index the built proof is accepted by the verifier, and its path is as long as the tree is high. |
| `MerkleRecursion.BuiltProofIs` | engine/internal/aggregator/merkle_recursion.go:118-172 | What a built proof holds: its own index, the tagged hash of its leaf, and at each level the tree node beside the one above the leaf (that node itself where there is none beside it), with the bit of the index as its side. |
| `MerkleRecursion.WalkFoldsToRoot` | engine/internal/aggregator/merkle_recursion.go:91-106 | Every walk, those into duplicated nodes included, folds its leaf up to the root. |
| `MerkleRecursion.HeightIsCeilLog2` | engine/internal/aggregator/merkle_recursion.go:90-106 | The tree height is the binary logarithm of the leaf count, rounded up. |
| `MerkleRecursion.AggregateIsTree` | engine/internal/aggregator/merkle_recursion.go:74-112 | The aggregate of a leaf list names the leaf count, the height, and the hex of the top node of the tree defined from the top down: a zero byte and the leaf hashed at the bottom, a one byte and left and right child above, the left child taken twice where there is no right one. |
| `MerkleRecursion.LevelIsTree` | engine/internal/aggregator/merkle_recursion.go:90-106 | Level by level from the bottom, the loop arrives at the nodes of that tree. |
| `MerkleRecursion.TurnsAreBits` | engine/internal/aggregator/merkle_recursion.go:143-164 | The k-th position the builder records is bit k of the leaf index. |
| `MerkleRecursion.Binding` | engine/internal/aggregator/merkle_recursion.go:74-112 | Two leaf lists with the same aggregate (count, height and root) are equal, or a collision is returned. |
| `MerkleRecursion.BindingAt` | engine/internal/aggregator/merkle_recursion.go:74-112 | Binding element by element: equal counts and equal roots force equal leaves at every index, or a collision. |
| `MerkleRecursion.RootBinding` | engine/internal/aggregator/merkle_recursion.go:39-41 | What the domain separation is for: the root alone fixes the leaf list. Lists of any two lengths with the same root are equal once padded, or a collision is returned. |
| `MerkleRecursion.PaddedRoots` | engine/internal/aggregator/merkle_recursion.go:91-106 | The converse: leaf lists that are equal once padded have the same root. |
| `MerkleRecursion.HeightsAgree` | engine/internal/aggregator/merkle_recursion.go:39-41 | Trees of different heights with one root would make a leaf digest an interior node: a collision is returned. |
| `MerkleRecursion.RepeatedLastLeaf` | engine/internal/aggregator/merkle_recursion.go:68-73 | Why binding needs the count: repeating the last leaf of an odd list of three or more changes neither root nor height. |
| `MerkleRecursion.SamePaddingSameRoot` | engine/internal/aggregator/merkle_recursion.go:91-106 | Lists of equal height that agree along every walk (that is, once padded) have equal roots. |
| `MerkleRecursion.SameRootSameLeaf` | engine/internal/aggregator/merkle_recursion.go:91-106 | The converse: equal roots at equal height force the same node under every walk, or a collision. |
| `MerkleRecursion.AggregateMerkleRecursion` | engine/internal/aggregator/merkle_recursion.go:74-112 | The level loop returns the specified root, count and height, and fails exactly on an empty list or an empty leaf. |
| `MerkleRecursion.HashLeaves` | engine/internal/aggregator/merkle_recursion.go:79-88 | Leaf hashing fails exactly when a leaf is empty, naming the first empty one. |
| `MerkleRecursion.Compact` | engine/internal/aggregator/merkle_recursion.go:91-103 | One level up: pads an odd level with its last node and hashes the pairs. |
| `MerkleRecursion.BuildInclusionProof` | engine/internal/aggregator/merkle_recursion.go:118-172 | The builder returns the specified proof, and fails exactly on an out-of-range index or an empty leaf. |
| `MerkleRecursion.CollectPath` | engine/internal/aggregator/merkle_recursion.go:137-165 | The cursor loop collects the siblings and sides of the walk from the leaf up. |
| `MerkleRecursion.FoldPath` | engine/internal/aggregator/merkle_recursion.go:206-224 | The verifier's loop folds the siblings in, and fails exactly on the first that is not the hex of 32 bytes. |
| `MerkleRecursion.VerifyMerkleInclusion` | engine/internal/aggregator/merkle_recursion.go:187-230 | The verifier accepts exactly the specified proofs; each guard's error is reported exactly when the earlier guards pass and that one fails. |
| `Hex.EncodeAt` | engine/internal/aggregator/merkle_recursion.go:226 | Each byte is written as two lower-case hexadecimal digits, the high half first. |
| `Hex.DecodesIff` | engine/internal/aggregator/merkle_recursion.go:200-204 | Exactly the strings of an even number of hexadecimal digits, of either case, decode. |
| `Hex.DecodeAt` | engine/internal/aggregator/merkle_recursion.go:200-204 | Each byte is read from its two digits, the high half first. |
| `Hex.HexValueIs` | engine/internal/aggregator/merkle_recursion.go:200-204 | Either case of a digit counts as its place among the sixteen. |
| `WebhookQueue.EventsConserved` | engine/internal/api/webhooks.go:288-366 | In every run from the empty store each event created so far is in exactly one of queue, flight, dead list, delivered, dropped and evicted, once, and nothing else is anywhere; queued and flying events have failed at most 7 times, dead ones exactly 8; the dead list is sorted and at most 1000 long. |
| `WebhookHistory.EventOrigin` | engine/internal/api/webhooks.go:288-628 | In every run, the subscription, kind, body and creation time of whatever is queued, in flight or dead are those of the one enqueue step that created its uid, for a subscription then listening to the kind. |
| `WebhookHistory.ContentVerbatim` | engine/internal/api/webhooks.go:612-618 | Whatever two moments of a run hold under one uid agrees in subscription, kind, body and creation time: retries and replays keep the body verbatim. |
| `WebhookQueue.InvAlways` | engine/internal/api/webhooks.go:288-628 | The store invariant (conservation, attempt bounds, sorted and bounded dead list, statistics that add up) in every state of every run. |
| `WebhookQueue.FailConserves` | engine/internal/api/webhooks.go:473-518 | A booked failure moves the event to the back of the queue or to the dead list, with what the cap cuts off, without losing or copying any. |
| `WebhookQueue.SplitConserves` | engine/internal/api/webhooks.go:327-347 | Splitting the queue and evicting expired dead letters conserve the events. |
| `WebhookQueue.ReplayConserves` | engine/internal/api/webhooks.go:590-628 | Replay moves one event from the dead list to the queue without copying it. |
| `WebhookQueue.SplitRespectsCircuit` | engine/internal/api/webhooks.go:333-346 | Every event split off is due, was queued, and its subscription's circuit is not open. |
| `WebhookQueue.EvictionIsPrefix` | engine/internal/api/webhooks.go:370-382 | On a sorted dead list the expired entries are exactly a prefix, and eviction removes exactly it. |
| `WebhookQueue.EvictKeeps` | engine/internal/api/webhooks.go:370-382 | Eviction keeps the list sorted and bounded, and leaves nothing older than the 24-hour limit. |
| `WebhookQueue.DeadAppended` | engine/internal/api/webhooks.go:488-498 | Appending a dead letter at the clock and keeping the newest thousand preserves order, bound and attempt counts. |
| `WebhookQueue.TripsSpacedOut` | engine/internal/api/webhooks.go:480-484 | Two trips of one breaker with no success between them are more than two minutes apart. |
| `WebhookQueue.OpenSince` | engine/internal/api/webhooks.go:452-484 | After a trip, as long as no success is booked, the breaker stays open until at least two minutes after the trip. |
| `WebhookQueue.BackoffDoubles` | engine/internal/api/webhooks.go:530-548 | For every attempt that is retried the window is 2^(attempt-1) seconds: the documented 5-minute cap is never reached. |
| `WebhookQueue.RetryWindow` | engine/internal/api/webhooks.go:470-517 | A retried event differs only in its attempt count and next try, which is exactly the larger of its backoff and a Retry-After of up to 15 minutes after the booking: no earlier than either, no later than the larger of that and its window, strictly less than the window when the random source works. |
| `WebhookBreaker.WaitsAlwaysBounded` | engine/internal/api/webhooks.go:190-192 | In every state of every run, whatever the receivers answer, no queued event waits past 15 minutes from the clock and no circuit is open past two minutes from it. |
| `WebhookBreaker.NothingPinned` | engine/internal/api/webhooks.go:188-192 | So no receiver pins an event in the queue: in every run, an event queued at some moment is sent at the latest by the first split 15 minutes after it, as long as the splits find its circuit closed. |
| `WebhookBreaker.CircuitOpenIff` | engine/internal/api/webhooks.go:452-484 | In every run a circuit is open exactly while the cool-down of an earlier trip lasts with no success booked on the subscription since. |
| `WebhookBreaker.OpenAttemptIff` | engine/internal/api/webhooks.go:102-106 | The attempts in flight while their circuit is open are exactly those split off, the circuit closed, before a trip whose cool-down still runs with no success since. |
| `WebhookBreakerRuns.AttemptMeetsOpenCircuit` | engine/internal/api/webhooks.go:102-106 | Concrete counterexample to "no attempts are dispatched" while the circuit is open: of one batch of 21 events, twenty fail and trip the breaker with the last one still to be delivered. |
| `WebhookBreakerRuns.PauseOutlivesSuccess` | engine/internal/api/webhooks.go:459-462 | Concrete counterexample to "delivered right away": after a success has closed the circuit, no split within the two minutes of the old pause sends any of the twenty events that were due before it. |
| `WebhookBreakerRuns.DeferralOutlivesPause` | engine/internal/api/webhooks.go:333-346 | From any state: an event that was due when a split found its circuit open becomes due again exactly at the end of that pause, though a success closes the circuit in between. |
| `WebhookQueue.FanOut` | engine/internal/api/webhooks.go:288-311 | An enqueue adds exactly one event for each registered subscription that listens to the kind, and no other. |
| `WebhookRules.ValidRegistrationIff` | engine/internal/api/webhooks.go:218-232 | A registration is valid exactly with an http or https address and a non-empty list of the six known kinds. |
| `WebhookRules.RegisterAdds` | engine/internal/api/webhooks.go:233-245 | It adds one idle subscription with the caller as owner and touches nothing else. |
| `WebhookRules.UnregisterIff` | engine/internal/api/webhooks.go:247-261 | Only the owner can unregister, and that removes the one subscription and nothing else. |
| `WebhookRules.SubscriptionsAreTheirOwners` | engine/internal/api/webhooks.go:247-261 | In every run the owner, address and kinds of a subscription never change, and it leaves only by its owner's own unregister. |
| `WebhookRules.EnqueueAppends` | engine/internal/api/webhooks.go:286-311 | What an enqueue adds goes to the back of the queue, due at once and never tried, under fresh uids, for subscriptions the iteration named; nothing else changes. |
| `WebhookRules.SubscribedIff` | engine/internal/api/webhooks.go:690-697 | A subscription listens to a kind exactly when it names it or the wildcard. |
| `WebhookRules.SentIff` | engine/internal/api/webhooks.go:333-353 | A split sends exactly the queued events that are due while their circuit is not open, each with the subscription the snapshot holds. |
| `WebhookRules.StaysIff` | engine/internal/api/webhooks.go:333-346 | The others stay: one not yet due unchanged, one held back by a pause due at its end. |
| `WebhookRules.SplitsInOrder` | engine/internal/api/webhooks.go:333-346 | A split goes through the queue from the front and keeps the order of what it sends and of what it leaves. |
| `WebhookRules.KeptIff` | engine/internal/api/webhooks.go:370-382 | A dead letter is kept exactly while it is less than 24 hours old. |
| `WebhookRules.SuccessBooks` | engine/internal/api/webhooks.go:452-468 | What a delivery changes of its subscription, field by field, and that it changes no other. |
| `WebhookRules.FailureBooks` | engine/internal/api/webhooks.go:473-484 | What a failure changes, field by field: from the twentieth in a row on, unless the circuit is open, it opens it for two minutes and counts a trip. |
| `WebhookRules.EighthFailureIsFinal` | engine/internal/api/webhooks.go:485-505 | The eighth failure makes the event a dead letter with its subscription's owner and address, in a list of the newest thousand; an earlier one requeues it. |
| `WebhookRules.BackoffCapIs` | engine/internal/api/webhooks.go:518-540 | The cap of the random delay doubles from one second up to five minutes, for every attempt whose shift does not overflow (the first 34). |
| `WebhookRules.WrapsAround` | engine/internal/api/webhooks.go:534 | Beyond that the shift wraps around: the result is the one signed 64-bit number that is the same modulo 2^64. |
| `WebhookRules.ReplayIff` | engine/internal/api/webhooks.go:584-628 | A replay goes through exactly for the owner of the first dead letter with that identifier while its subscription is registered; it moves that event, untried and due at once, to the back of the queue. |
| `WebhookRules.StatisticsAddUp` | engine/internal/api/webhooks.go:452-484 | In every run a subscription's attempts are its deliveries and failures together. |
| `WebhookRules.DroppedWasOrphan` | engine/internal/api/webhooks.go:356-361 | In every run an event is dropped only if its subscription was not registered when a split sent it off. |
| `WebhookStore.Store.constructor` | engine/internal/api/webhooks.go:207-215 | A new store is empty. |
| `WebhookStore.Store.Register` | engine/internal/api/webhooks.go:218-245 | Registers exactly when the URL scheme, a non-empty list and every event kind are valid; otherwise changes nothing. |
| `WebhookStore.Store.Unregister` | engine/internal/api/webhooks.go:249-261 | Removes the subscription exactly when the caller owns it. |
| `WebhookStore.Store.Enqueue` | engine/internal/api/webhooks.go:288-311 | The map loop, in whatever order it iterates, appends one event per subscribed subscription and returns their number. |
| `WebhookStore.Store.EvictExpired` | engine/internal/api/webhooks.go:370-382 | The in-place filter keeps exactly the unexpired dead letters in order. |
| `WebhookStore.Store.SplitPending` | engine/internal/api/webhooks.go:327-353 | The locked half of a delivery round: eviction, then the partition of the queue into due and remaining events, cool-down events deferred to the end of theirs. |
| `WebhookStore.Store.DropVanished` | engine/internal/api/webhooks.go:356-361 | An event whose subscription is missing from the snapshot leaves the flight as dropped. |
| `WebhookStore.Store.RecordSuccess` | engine/internal/api/webhooks.go:452-468 | Books a delivery and clears streak and pause, touching no other subscription. |
| `WebhookStore.Store.RecordFailure` | engine/internal/api/webhooks.go:473-518 | Books a failure: statistics and breaker, then dead letter at the eighth attempt or requeue with the delay. |
| `WebhookStore.Store.CountFailure` | engine/internal/api/webhooks.go:475-484 | The subscription's half of a failure: counters, and the breaker trip with its cool-down. |
| `WebhookStore.Store.AppendDead` | engine/internal/api/webhooks.go:488-498 | Appends a dead letter and cuts the list to its newest thousand. |
| `WebhookStore.Store.JitteredBackoff` | engine/internal/api/webhooks.go:520-548 | Computes the wrapped shift and its cap, and returns the source's draw below it, the cap when the source fails, or zero: the delay is below the cap, as documented, exactly when the random source works and the cap is not zero, and never above it. |
| `WebhookStore.Store.Replay` | engine/internal/api/webhooks.go:590-628 | Finds the first dead letter with the identifier, refuses a foreign owner or a vanished subscription without a change, and otherwise requeues it at zero attempts. |
| `StakeSlashing.AlwaysSolvent` | contracts/stake-slashing/src/main.rs:145-238 | In every run of registry calls, recordings, withdrawals, slashes, session deploys, donations and payments: the recorded stakes add up to total_recorded, the purse covers it, and the money in purse and accounts is conserved. |
| `StakeSlashing.NoPayoutLacksFunds` | contracts/stake-slashing/src/main.rs:186-187 | No unstake or slash of any run fails on its transfer. |
| `StakeSlashing.WithdrawCommitsIff` | contracts/stake-slashing/src/main.rs:176-189 | An unstake commits exactly when the caller's stake covers it, and moves exactly the amount between stake, total, purse and account. |
| `StakeSlashing.RecordCommitsIff` | contracts/stake-slashing/src/main.rs:145-172 | A recording commits exactly when the claim is positive and the purse holds more than the recorded total; it credits the smaller of claim and surplus to stake and total, and changes nothing else. |
| `StakeSlashing.UnbackedRecordingPaid` | contracts/stake-slashing/src/main.rs:146-154 | Counterexample to "capped at 0", in every solvent world: for any two accounts and any positive amount the first owns, it sends the amount into the purse, the other records it without a transfer and withdraws it. |
| `StakeSlashing.SlashCommitsIff` | contracts/stake-slashing/src/main.rs:195-238 | A slash commits exactly for an unslashed, revoked proof of that agent, a stake of at least 5 and no 512-bit overflow; it moves one fifth of the stake to the caller, marks the proof, and changes nothing else. |
| `StakeSlashing.SlashRefusedFor` | contracts/stake-slashing/src/main.rs:195-222 | A refused slash reports its first failing guard. |
| `StakeSlashing.RecordIs` | contracts/stake-slashing/src/main.rs:145-172 | Recording in any state, solvent or not: the credit, both refusals, and the total capped at 512 bits. |
| `StakeSlashing.WithdrawIs` | contracts/stake-slashing/src/main.rs:176-189 | Withdrawing in any state: covered by the stake first and by the purse second, the total stopping at zero. |
| `StakeSlashing.SlashIs` | contracts/stake-slashing/src/main.rs:195-238 | Slashing in any state: the guards, the failed transfer, and the total stopping at zero. |
| `StakeSlashing.TransfersCommitIff` | contracts/stake-slashing-session/src/main.rs:31-32 | A transfer from an account, into the purse or to another account, commits exactly when the payer owns the amount, and moves exactly that. |
| `StakeSlashing.LargestU512` | contracts/stake-slashing/src/main.rs:170-172 | The bound at which the stake sum overflows and the total saturates is 2^512 - 1. |
| `StakeSlashing.SessionCommitsIff` | contracts/stake-slashing-session/src/main.rs:19-37 | The session deploy commits exactly when the caller owns the positive amount; it moves exactly that from account to purse and records it, and changes nothing else. |
| `StakeSlashing.Accountability` | contracts/stake-slashing/src/main.rs:195-238 | In every joint run: slashes of an agent are at most its failed count, which is its number of revoked proofs, at most its total, its number of proofs; the score is 50 less 5 per failure, never below zero. |
| `StakeSlashing.SlashedOnce` | contracts/stake-slashing/src/main.rs:200-204 | No proof is slashed twice in any run. |
| `StakeSlashing.StakeFallsOnlyBy` | contracts/stake-slashing/src/main.rs:31-35 | Slashing cannot hurt an agent that revoked nothing: in every run from installation a stake falls only by its owner's own unstake, or by a slash of a proof the agent itself revoked in an earlier transaction. |
| `StakeSlashing.StakeRisesOnlyBy` | contracts/stake-slashing/src/main.rs:45-47 | Nobody can credit stake to another name: in every run a stake rises only by a committed record_stake or session deploy of its owner. |
| `StakeSlashing.RevokedByItsAgent` | contracts/proof-registry/src/main.rs:118-134 | In every run from installation each revoked proof was revoked by its own agent in an earlier transaction. |
| `StakeSlashing.SubmittedByItsAgent` | contracts/proof-registry/src/main.rs:74-106 | In every run from installation each proof was submitted by its agent, with those four hashes and at that time, in an earlier transaction. |
| `StakeSlashing.ProofForever` | contracts/proof-registry/src/main.rs:74-146 | Over any stretch of any joint run a proof record is never overwritten: it stays, up to one revocation. |
| `StakeSlashing.InvStep` | contracts/stake-slashing/src/main.rs:145-238 | Every committed deploy keeps solvency, accountability and the money supply. |
| `StakeSlashing.FreshInv` | contracts/stake-slashing/src/main.rs:250-260 | The installed contracts satisfy the invariant. |
| `StakeSlashing.Bank.constructor` | contracts/stake-slashing/src/main.rs:255 | The purse is created empty beside the accounts. |
| `StakeSlashing.Bank.TransferFromPurse` | contracts/stake-slashing/src/main.rs:186-187 | A transfer out of the purse succeeds exactly when the purse holds the amount, and otherwise moves nothing. |
| `StakeSlashing.Bank.TransferToPurse` | contracts/stake-slashing-session/src/main.rs:31-32 | A transfer into the purse succeeds exactly when the account holds the amount. |
| `StakeSlashing.Contract.constructor` | contracts/stake-slashing/src/main.rs:250-260 | Installation starts with no stakes, no slashes and a zero total. |
| `StakeSlashing.Contract.DecreaseTotalRecorded` | contracts/stake-slashing/src/main.rs:100-104 | Lowers the total, stopping at zero, and nothing else. |
| `StakeSlashing.Contract.RecordStake` | contracts/stake-slashing/src/main.rs:145-172 | The entry point commits the specified state or reverts with the specified error and no change. |
| `StakeSlashing.Contract.Unstake` | contracts/stake-slashing/src/main.rs:176-189 | The same for unstake, the transfer and its undo included. |
| `StakeSlashing.Contract.ReportAndSlash` | contracts/stake-slashing/src/main.rs:195-238 | The same for report_and_slash, guards in order. |
| `StakeSlashing.Contract.SessionStake` | contracts/stake-slashing-session/src/main.rs:19-37 | Transfer then record_stake in one deploy: a failure of either undoes both. |
| `ProofRegistry.InvStep` | contracts/proof-registry/src/main.rs:73-173 | Every committed entry point keeps each agent's counters equal to the sizes of its proof sets and its score to the formula; nothing saturates or wraps. |
| `ProofRegistry.CountersOrdered` | contracts/proof-registry/src/main.rs:74-146 | Revoked proofs of an agent are at most its proofs, at most all identifiers handed out. |
| `ProofRegistry.ProofPreserved` | contracts/proof-registry/src/main.rs:90-134 | No entry point overwrites an existing proof record; at most it becomes revoked. |
| `ProofRegistry.FreshPid` | contracts/proof-registry/src/main.rs:44-53 | The next identifier is not in use. |
| `ProofRegistry.RegisterCommitsIff` | contracts/proof-registry/src/main.rs:148-173 | Registering commits exactly for a caller who is no agent, with an identifier of 1 to 64 and a hash of 1 to 128 characters; the agent starts with empty counters and a score of 50. Each refusal has its reason. |
| `ProofRegistry.SubmitCommitsIff` | contracts/proof-registry/src/main.rs:73-106 | Submitting commits exactly for an agent with four hashes of 1 to 128 characters; the proof is filed under an unused identifier, valid, with the caller and each hash in its own place, and counted. |
| `ProofRegistry.RevokeCommitsIff` | contracts/proof-registry/src/main.rs:117-146 | Revoking commits exactly for the agent that submitted the proof, once; the proof turns invalid and revoked and the agent gains a failure and loses up to five points. Each refusal has its reason. |
| `ProofRegistry.GetProofIff` | contracts/proof-registry/src/main.rs:108-115 | A proof can be read exactly under its identifier, of 1 to 128 characters. |
| `ProofRegistry.CountersAtTheirLimits` | contracts/proof-registry/src/main.rs:97-144 | At the 64-bit limits, which no run reaches, the total stays, the failures wrap around and the score stops at zero. |
| `ProofRegistry.Contract.constructor` | contracts/proof-registry/src/main.rs:184-187 | Installation starts with no proofs, no agents and a zero counter. |
| `ProofRegistry.Contract.RegisterAgent` | contracts/proof-registry/src/main.rs:149-173 | register_agent commits the specified state or reverts unchanged with the specified error. |
| `ProofRegistry.Contract.SubmitProof` | contracts/proof-registry/src/main.rs:74-106 | submit_proof likewise, returning the new identifier. |
| `ProofRegistry.Contract.RevokeProof` | contracts/proof-registry/src/main.rs:118-146 | revoke_proof likewise. |
| `Governance.EveryOwner` | contracts/governance/src/main.rs:341-448 | In every run the owner is the installer or was installed by a step justified by an owner-transfer history or by two distinct guardian signatures. |
| `GovernanceRuns.OwnerSinceInstallation` | contracts/governance/src/main.rs:341-485 | The same for every run from the installation with any guardian arguments. |
| `GovernanceRuns.OwnerChangesOnlyBy` | contracts/governance/src/main.rs:361-448 | Only execute_owner_transfer and execute_recovery ever change the owner; no signing call does. |
| `GovernanceRuns.ThreeSignaturesDoNotRecover` | contracts/governance/src/main.rs:20-23 | Concrete counterexample to finalisation by a further signing call: all three guardians sign and the owner stays, until execute_recovery. |
| `Governance.OwnerHistory` | contracts/governance/src/main.rs:361-448 | Every change of owner executes an uncancelled, unexecuted owner_transfer proposal with that payload, filed at an earlier step at least the timelock before; or a recovery that two distinct guardians signed at earlier steps. |
| `Governance.FlagsPermanent` | contracts/governance/src/main.rs:204-248 | Over any stretch of any run executed and cancelled are permanent and never both set, and a proposal's kind, payload and times never change. |
| `Governance.ExecutedAtMostOnce` | contracts/governance/src/main.rs:204-248 | A proposal is executed at most once in any run, and never after it was cancelled. |
| `Governance.Provenance` | contracts/governance/src/main.rs:179-201 | Every recorded proposal was filed with that content by an earlier transaction of the run. |
| `Governance.SignatureProvenance` | contracts/governance/src/main.rs:396-427 | Every recorded recovery signature was given by that guardian in an earlier transaction. |
| `Governance.RecoveryCommitsIff` | contracts/governance/src/main.rs:430-448 | A recovery execution commits exactly when a guardian calls it for an unexecuted candidate that two distinct accounts have signed for, and then the candidate owns. |
| `GovernanceRights.ProposeCommitsIff` | contracts/governance/src/main.rs:179-201 | A proposal is filed exactly by the owner, while live, with a kind and payload of 1 to 256 characters, under an unused identifier and executable after the timelock; nothing else changes, and each refusal has its reason. |
| `GovernanceRights.ProposeUnpauseCommitsIff` | contracts/governance/src/main.rs:281-301 | An unpause is filed exactly by the owner while paused. |
| `GovernanceRights.ProposeOwnerTransferCommitsIff` | contracts/governance/src/main.rs:341-358 | An owner transfer is filed exactly by the owner, while live, to a name of 1 to 256 characters. |
| `GovernanceRights.ExecuteCommitsIff` | contracts/governance/src/main.rs:204-230 | The generic execution commits exactly for the owner, while live, on a proposal on file, neither cancelled nor executed and past its timelock; it marks that one executed and does nothing else. |
| `GovernanceRights.ExecuteUnpauseCommitsIff` | contracts/governance/src/main.rs:304-330 | An unpause commits exactly for the owner on such a proposal of that kind, paused or not; it also clears the pause. |
| `GovernanceRights.ExecuteOwnerTransferCommitsIff` | contracts/governance/src/main.rs:361-391 | A rotation commits exactly for the owner on such a transfer proposal, paused or not; it also installs the payload. |
| `GovernanceRights.CancelCommitsIff` | contracts/governance/src/main.rs:233-248 | Cancelling commits exactly for the owner on a proposal not executed, and sets that one flag. |
| `GovernanceRights.EmergencyPauseCommitsIff` | contracts/governance/src/main.rs:274-278 | Pausing commits exactly for the owner or a guardian, and writes the pause cell only. |
| `GovernanceRights.SignRecoveryCommitsIff` | contracts/governance/src/main.rs:396-427 | Signing commits exactly for a guardian who has not signed for that candidate (or after the recovery, changing nothing); it adds the caller to the signers while a slot is free and counts one more. |
| `GovernanceRights.ExecuteRecoveryCommitsIff` | contracts/governance/src/main.rs:430-448 | A recovery commits exactly for a guardian on an unexecuted candidate with a count of two, installs the candidate and marks the record; each refusal has its reason. |
| `GovernanceRights.OnlyNamedGuardians` | contracts/governance/src/main.rs:126-130 | Nobody is recognised as a guardian but the accounts named at installation. |
| `GovernanceRights.PauseStops` | contracts/governance/src/main.rs:168-173 | A pause stops propose, execute and propose_owner_transfer, and of the others only propose_unpause looks at it at all. |
| `GovernanceRights.PausedStretch` | contracts/governance/src/main.rs:168-391 | What a pause is for, over runs: while the contract stays paused the only proposals filed are unpauses, and the only ones executed are unpauses and owner transfers, through their own entry points and by the owner of that moment. |
| `GovernanceRuns.TransferTookEffectIff` | contracts/governance/src/main.rs:204-391 | Every executed owner-transfer proposal of a run was executed by exactly one transaction, at its executedAt, and that made the payload the owner exactly when it went through execute_owner_transfer (or the payload was the owner already). |
| `GovernanceRuns.GenericExecuteNeverRotates` | contracts/governance/src/main.rs:204-230 | An owner_transfer proposal put through the generic execute is marked executed, leaves the owner as it is, and no later transaction of the run can make it rotate the owner. |
| `GovernanceRuns.TransferLost` | contracts/governance/src/main.rs:204-230 | Such a run: the transfer is filed, waits out the timelock, is executed the generic way, and execute_owner_transfer then reverts with the owner unchanged. |
| `Governance.PauseEndsAfterTimelock` | contracts/governance/src/main.rs:281-330 | A pause ends only by executing an unpause proposal filed at an earlier step at least the timelock before, be it before the pause or after. |
| `GovernanceRuns.PauseHoldsIff` | contracts/governance/src/main.rs:274-330 | How long a pause lasts: in every run from installation an effective pause at time t outlasts every transaction before the end of the timelock counted from t exactly when no uncancelled, unexecuted unpause proposal ready before that end was on file at the pause. |
| `GovernanceRuns.PauseUndoneAtOnce` | contracts/governance/src/main.rs:281-283 | Concrete counterexample to the purpose of the timelock on unpausing: an unpause proposal filed while live undoes a guardian's pause in the block that made it. |
| `Governance.PauseTakesEffectIff` | contracts/governance/src/main.rs:274-278 | An emergency pause leaves the contract paused exactly when block time is not zero, the value that marks it live. |
| `Governance.FullTimelock` | contracts/governance/src/main.rs:190-192 | The saturating sum is the full 48 hours exactly when block time is that far from the 64-bit limit. |
| `Governance.EveryGuardianRecognisedIff` | contracts/governance/src/main.rs:126-130 | Recognition is by position up to the number of non-empty arguments: every configured guardian is recognised exactly when no gap precedes one, or the hidden one is a duplicate. |
| `Governance.HiddenGuardian` | contracts/governance/src/main.rs:126-130 | Concrete case: with the first argument empty the third guardian is never recognised. |
| `Governance.InvAlways` | contracts/governance/src/main.rs:179-448 | In every run: identifiers are numbered and match their records, no proposal is both executed and cancelled, and recovery signatures are distinct and are what the count counts. |
| `Governance.FreshPid` | contracts/governance/src/main.rs:152-163 | The next proposal identifier is not in use. |
| `Numerals.DecimalReads` | contracts/governance/src/main.rs:188 | The counter in an identifier is printed as the decimal digits that add up to it by their places, without a leading zero. |
| `Governance.Contract.constructor` | contracts/governance/src/main.rs:465-485 | Installation: the caller owns, guardians are counted, the timelock is 48 hours, nothing is filed. |
| `Governance.Contract.FileProposal` | contracts/governance/src/main.rs:188-200 | Takes the next number, files the record under it, and fails only on counter overflow. |
| `Governance.Contract.Propose` | contracts/governance/src/main.rs:179-201 | propose commits exactly the transition of the transaction model that the run theorems are about, or reverts unchanged with its first failing guard's error. |
| `Governance.Contract.Execute` | contracts/governance/src/main.rs:204-230 | execute commits exactly the transition of the transaction model that the run theorems are about, or reverts unchanged with its first failing guard's error. |
| `Governance.Contract.Cancel` | contracts/governance/src/main.rs:233-248 | cancel commits exactly the transition of the transaction model that the run theorems are about, or reverts unchanged with its first failing guard's error. |
| `Governance.Contract.EmergencyPause` | contracts/governance/src/main.rs:274-278 | emergency_pause commits exactly the transition of the transaction model that the run theorems are about, or reverts unchanged with its first failing guard's error. |
| `Governance.Contract.ProposeUnpause` | contracts/governance/src/main.rs:281-301 | propose_unpause commits exactly the transition of the transaction model that the run theorems are about, or reverts unchanged with its first failing guard's error. |
| `Governance.Contract.ExecuteUnpause` | contracts/governance/src/main.rs:304-330 | execute_unpause commits exactly the transition of the transaction model that the run theorems are about, or reverts unchanged with its first failing guard's error. |
| `Governance.Contract.ProposeOwnerTransfer` | contracts/governance/src/main.rs:341-358 | propose_owner_transfer commits exactly the transition of the transaction model that the run theorems are about, or reverts unchanged with its first failing guard's error. |
| `Governance.Contract.ExecuteOwnerTransfer` | contracts/governance/src/main.rs:361-391 | execute_owner_transfer commits exactly the transition of the transaction model that the run theorems are about, or reverts unchanged with its first failing guard's error. |
| `Governance.Contract.SignRecovery` | contracts/governance/src/main.rs:396-427 | sign_recovery commits exactly the transition of the transaction model that the run theorems are about, or reverts unchanged with its first failing guard's error. |
| `Governance.Contract.ExecuteRecovery` | contracts/governance/src/main.rs:430-448 | execute_recovery commits exactly the transition of the transaction model that the run theorems are about, or reverts unchanged with its first failing guard's error. |
| `KeyRing.SignaturesPersist` | engine/internal/crypto/keyring.go:204-241 | Every signature made under an algorithm's active key, however creations interleave with the two halves of Sign, verifies under that key's identifier in all later states. |
| `KeyRing.SignReturnsActive` | engine/internal/crypto/keyring.go:204-216 | Sign returns a verifying signature and the identifier of the algorithm's highest version, the active one. |
| `KeyRingRuns.SignsIffCreated` | engine/internal/crypto/keyring.go:126-216 | A ring built by creations signs under an algorithm exactly when a key of a supported algorithm was created for it. |
| `KeyRingRuns.EntrySignsIff` | engine/internal/crypto/keyring.go:475-499 | A well-formed entry signs exactly when its private half is present. |
| `KeyRing.RunKeeps` | engine/internal/crypto/keyring.go:126-160 | Over every run of creations: versions per algorithm are exactly 1..max, one key each, only the highest active, and every earlier key keeps its material. |
| `KeyRing.CreateIsCreated` | engine/internal/crypto/keyring.go:126-160 | A creation succeeds exactly for a supported algorithm, and then adds one active key under a fresh identifier with the next version and retires the previous one. |
| `KeyRing.CreatedKeyIs` | engine/internal/crypto/keyring.go:126-160 | What a creation makes, field by field: the drawn private keys of its algorithm and their public halves, the next version, the time, an identifier of algorithm, version and four hash bytes, and the previous active key retired at that time. |
| `KeyRing.CreatedInv` | engine/internal/crypto/keyring.go:126-160 | Such a creation keeps the ring invariant. |
| `KeyRing.KeyIdInjective` | engine/internal/crypto/keyring.go:638-641 | Identifiers of supported algorithms determine algorithm and version, so no two keys of a ring collide whatever the fingerprint. |
| `KeyRing.FreshId` | engine/internal/crypto/keyring.go:131-137 | The identifier of the next key is not in use. |
| `KeyRing.EntrySignVerifies` | engine/internal/crypto/keyring.go:475-514 | Whatever a well-formed entry of any of the four algorithms signs, its verification accepts; Lamport and the hybrid layout are concrete here. |
| `KeyRing.HybridAcceptsIff` | engine/internal/crypto/pq.go:300-320 | A hybrid entry accepts exactly the strings of a version byte, 64 in two bytes and an Ed25519 signature, 3309 in two bytes and an ML-DSA signature, and anything after, of which both schemes accept their half: one forged half is refused. |
| `KeyRing.Ed25519AcceptsIff` | engine/internal/crypto/keyring.go:501-504 | An Ed25519 entry accepts exactly the 64-byte signatures the scheme accepts under its 32-byte key; the two errors are those of a wrong key and a wrong length. |
| `KeyRing.MLDSAAcceptsIff` | engine/internal/crypto/keyring.go:505-506 | An ML-DSA entry likewise, for signatures of 3309 bytes. |
| `KeyRing.LamportAcceptsIff` | engine/internal/crypto/keyring.go:507-508 | A Lamport entry accepts exactly 256 chunks of 32 bytes each hashing to the half of its public key bytes that the digest's bit selects. |
| `KeyRing.SigningIs` | engine/internal/crypto/keyring.go:475-491 | A single-scheme entry signs exactly when it holds its private key, and with that key. |
| `KeyRing.LamportSigningIs` | engine/internal/crypto/keyring.go:488-491 | A Lamport entry reveals, for every bit of the digest, the matching half of its private key bytes. |
| `KeyRing.HybridSigningIs` | engine/internal/crypto/keyring.go:492-496 | A hybrid entry writes version 1 and both schemes' signatures behind their lengths. |
| `KeyRing.UnsupportedEntries` | engine/internal/crypto/keyring.go:404-514 | Of an algorithm the ring does not know nothing is generated, written, signed or accepted. |
| `KeyRing.MigrationVerifies` | engine/internal/crypto/keyring.go:250-263 | A migration succeeds only if the old signature verified; whatever creations fall between its verification, its key lookup and its signing, or after it, both signatures then verify, the new one under a key of the target algorithm that was its highest, active version at the lookup. |
| `KeyRingRuns.MigratesIff` | engine/internal/crypto/keyring.go:250-263 | On a ring built by creations a migration succeeds exactly when the old signature verifies at its first step and a key of a supported target algorithm was created before its lookup. |
| `KeyRing.PublicRoundTrip` | engine/internal/crypto/keyring.go:590-632 | The hex of an entry's public bytes hydrates back to exactly its public material, the hybrid length prefix and the Lamport layout included. |
| `KeyRing.FullRoundTrip` | engine/internal/crypto/keyring.go:519-588 | An entry's full material loads back to exactly the entry, its private half present or absent. |
| `KeyRing.InstallAllRebuildsRing` | engine/internal/crypto/keyring.go:389-396 | Re-adding the entries of a ring in any order rebuilds keys, active identifiers and version counters exactly. |
| `KeyRing.FullSnapshotRoundTrip` | engine/internal/crypto/keyring.go:325-398 | Loading a full snapshot of any ring satisfying the invariant gives back the same ring. |
| `KeyRing.PublicSnapshotRoundTrip` | engine/internal/crypto/keyring.go:268-302 | Loading a public snapshot gives the ring with its private halves removed. |
| `KeyRing.VerifyOnlyBehaviour` | engine/internal/crypto/keyring.go:204-302 | That ring verifies identically and can never sign: every signing attempt reports a missing private key (or the same missing entry). |
| `KeyRing.VerifyOnlyInv` | engine/internal/crypto/keyring.go:276-302 | That ring still satisfies the invariant, so it can go on creating keys. |
| `KeyRingLoading.LoadPublicEntryIff` | engine/internal/crypto/keyring.go:284-292 | A published entry loads exactly when its key is hexadecimal of the right size for its algorithm; it then has those public bytes and no private half. |
| `KeyRingLoading.LoadFullEntryIff` | engine/internal/crypto/keyring.go:367-387 | A full entry loads exactly when its public half does and its private half is absent or hexadecimal of the right size (for a hybrid key, both halves); it then holds those bytes. |
| `KeyRingLoading.LoadPublicIff` | engine/internal/crypto/keyring.go:284-302 | A public document loads exactly when every entry does, to the ring that adding them in order leaves. |
| `KeyRingLoading.LoadFullIff` | engine/internal/crypto/keyring.go:355-398 | A full document likewise, if its version is 1. |
| `KeyRingLoading.LastEntryWins` | engine/internal/crypto/keyring.go:389-396 | Whatever a document holds, the last entry with an identifier and the last active one of an algorithm win, and no version exceeds the counter. |
| `KeyRingLoading.NothingElse` | engine/internal/crypto/keyring.go:389-396 | Every key, active identifier and counter of the loaded ring comes from some entry. |
| `KeyRingLoading.ListedInOrder` | engine/internal/crypto/keyring.go:189-197 | Neighbours of a listing are ordered by algorithm name and then by version. |
| `KeyRingLoading.StrLessIff` | engine/internal/crypto/keyring.go:189-197 | That name order is the lexicographic one. |
| `KeyRingLoading.MigrateIs` | engine/internal/crypto/keyring.go:250-263 | With no creation in between, a migration is a verification of the old signature and then a signing, with their errors. |
| `KeyRingLoading.Be32RoundTrip` | engine/internal/crypto/keyring.go:456-468 | The four-byte length prefix reads back to every length below 2^32. |
| `KeyRingObject.LiveRing.constructor` | engine/internal/crypto/keyring.go:95-102 | A new ring is empty. |
| `KeyRingObject.LiveRing.CreateKey` | engine/internal/crypto/keyring.go:114-160 | createLocked updates the three maps and retires the previous entry as specified, and returns the new metadata; an unsupported algorithm changes nothing. |
| `KeyRingObject.LiveRing.Sign` | engine/internal/crypto/keyring.go:204-216 | Signs under the active key or reports that there is none. |
| `KeyRingObject.LiveRing.SignWithKey` | engine/internal/crypto/keyring.go:220-228 | Signs under the named key. |
| `KeyRingObject.LiveRing.Verify` | engine/internal/crypto/keyring.go:233-241 | Verifies under the named key. |
| `KeyRingObject.LiveRing.MigrateSignature` | engine/internal/crypto/keyring.go:250-263 | Verifies, then signs again, with the errors in that order. |
| `KeyRingObject.LiveRing.List` | engine/internal/crypto/keyring.go:184-198 | Lists every key once, ordered by algorithm and version. |
| `KeyRingObject.LiveRing.MarshalPublic` | engine/internal/crypto/keyring.go:268-272 | The public document is the metadata of such a listing. |
| `KeyRingObject.LiveRing.MarshalFull` | engine/internal/crypto/keyring.go:325-350 | The full document holds the material of every key in such a listing. |
| `KeyRingObject.LiveRing.Add` | engine/internal/crypto/keyring.go:293-299 | One loaded entry takes its place in the three maps. |
| `KeyRingObject.LoadPublicKeyRing` | engine/internal/crypto/keyring.go:276-302 | Rebuilds a ring from a public document, or reports the first bad entry's error. |
| `KeyRingObject.LoadFullKeyRing` | engine/internal/crypto/keyring.go:355-398 | Rebuilds a ring from a full document, or reports the first bad entry's error. |
| `KeyRingObject.SaveAndRestore` | engine/internal/crypto/keyring.go:319-398 | Saving a ring in full and loading it back restores its whole state. |
| `KeyRingObject.PublishAndRestore` | engine/internal/crypto/keyring.go:268-302 | Publishing a ring and loading the publication gives the verify-only ring. |
| `Lamport.SignedVerifies` | engine/internal/crypto/pq.go:198-230 | A Lamport signature verifies under the matching public key, for every key, message and hash function. |
| `Lamport.SignatureUnique` | engine/internal/crypto/pq.go:213-230 | A signature accepted under a key is the one the private key produces, or a hash collision is returned. |
| `Lamport.TwoSignaturesOpenAPair` | engine/internal/crypto/pq.go:119-122 | Two accepted signatures on messages with different digests reveal preimages of both halves of some key pair: why a key is one-time. |
| `Lamport.SplicedVerifies` | engine/internal/crypto/pq.go:119-122 | What two signatures give away: every message whose digest agrees bit by bit with one of the two digests has an explicit signature, spliced from the two, that verifies. |
| `Lamport.VerifiesIff` | engine/internal/crypto/pq.go:213-230 | Verification on the wire: chunk i hashes to the 32 bytes at 64i of the public key, or at 64i + 32 when bit i of the digest, most significant first, is set; for all 256 chunks. |
| `Lamport.SignatureAt` | engine/internal/crypto/pq.go:198-210 | Signing on the wire: chunk i is the 32 bytes of the private key that the same rule selects. |
| `Lamport.DigestsDifferInABit` | engine/internal/crypto/pq.go:205 | Different digests differ in a bit, in the order the signer reads them. |
| `Lamport.UnflattenFlatten` | engine/internal/crypto/pq.go:135-155 | A key's bytes read back to the key. |
| `Lamport.FlattenUnflatten` | engine/internal/crypto/pq.go:145-165 | Every byte string of the right length is the bytes of the key it reads as. |
| `Lamport.KeyBytes` | engine/internal/crypto/pq.go:135-142 | The append loop writes the pairs in order. |
| `Lamport.KeyFromBytes` | engine/internal/crypto/pq.go:145-155 | Reads a key exactly from 16384 bytes. |
| `Lamport.SignSPHINCS` | engine/internal/crypto/pq.go:198-210 | Signs with a key, and refuses exactly a missing one. |
| `Lamport.VerifySPHINCS` | engine/internal/crypto/pq.go:213-230 | Reports a missing key and a wrong length exactly, and otherwise whether all 256 revealed halves match. |
| `HybridSignature.DecodeEncode` | engine/internal/crypto/pq.go:245-284 | Decoding an encoding, with or without trailing bytes, restores both parts. |
| `HybridSignature.DecodesIff` | engine/internal/crypto/pq.go:261-284 | Exactly the strings decode that are some encoding with any version byte and any trailing bytes. |
| `HybridSignature.ReencodeIff` | engine/internal/crypto/pq.go:261-284 | A decoded string re-encodes to itself exactly when its version byte is 1 and nothing trails. |
| `HybridSignature.DecodedShape` | engine/internal/crypto/pq.go:261-284 | Whatever decodes is the encoding of its parts, up to version byte and trailing bytes. |
| `HybridSignature.FailedDecoding` | engine/internal/crypto/pq.go:261-284 | What a failed decoding leaves in the receiver: itself, except that its first part is replaced when that one fits and the second does not. |
| `HybridSignature.Signature.MarshalBinary` | engine/internal/crypto/pq.go:245-258 | The buffer writes produce the encoding, and fail exactly when a part is over 65535 bytes. |
| `HybridSignature.Signature.UnmarshalBinary` | engine/internal/crypto/pq.go:261-284 | The receiver ends as specified, also where a failure leaves the first part already replaced. |
| `Blake2b.Blake2b256` | sdk-ts/verify.ts:135-160 | For inputs of every length the masked loop computes the digest of section 3.3 of RFC 7693: zero-padded 128-byte blocks, exact byte counters, final flag on the last block only, 32-byte output. |
| `Rfc7693.DigestIsRfc` | sdk-ts/verify.ts:106-160 | The specification of that loop is the digest written a second time as sections 2 and 3 of RFC 7693 write it: mixing as eight assignments, columns and diagonals, counter and flag, input and output byte by byte. |
| `Rfc7693.InitialVector` | sdk-ts/verify.ts:54-57 | The eight constants are the first 64 fraction bits of the square roots of the first eight primes (section 2.6). |
| `Rfc7693.SigmaInRange` | sdk-ts/verify.ts:59-72 | Every row of the message schedule is a permutation of 0 to 15. |
| `Blake2b.Compress` | sdk-ts/verify.ts:106-129 | Twelve rounds on the working vector update the chaining value as the compression function F of section 3.2. |
| `Blake2b.OneRound` | sdk-ts/verify.ts:117-127 | One round is the eight mixings of section 3.2 under the message schedule. |
| `Blake2b.Mix` | sdk-ts/verify.ts:81-90 | The in-place mixing on unbounded integers with masks is G of section 3.1 on 64-bit words. |
| `Blake2b.Schedule` | sdk-ts/verify.ts:59-72 | The twelve-row schedule of the source is the ten-row SIGMA of section 2.7 taken modulo ten. |
| `Blake2b.ParameterBlock` | sdk-ts/verify.ts:136-138 | The constant folded into h[0] is the parameter block of an unkeyed 32-byte digest. |
| `Blake2b.LoadVector` | sdk-ts/verify.ts:107-112 | The working vector: state, constants, both counter words and the inverted final word. |
| `Blake2b.LoadBlock` | sdk-ts/verify.ts:114-115 | The sixteen message words of a block, little endian. |
| `Blake2b.ReadU64LE` | sdk-ts/verify.ts:92-98 | Shifts and ors read the little-endian value of eight bytes. |
| `Blake2b.WriteU64LE` | sdk-ts/verify.ts:100-104 | Shifts and masks write the eight little-endian bytes of a word, touching no other byte. |
| `Words.ShiftOrMaskRotates` | sdk-ts/verify.ts:76-79 | Shift, or and mask on unbounded integers rotate a 64-bit word. |
| `Words.RotrBits` | sdk-ts/verify.ts:76-79 | Rotation bit by bit: bit i of the result is bit (i + n) mod 64. |
| `Words.XorBits` | sdk-ts/verify.ts:83-89 | The arithmetic exclusive-or works bit by bit. |
| `Words.MaskIsMod` | sdk-ts/verify.ts:74 | Masking with 2^k - 1 is reduction modulo 2^k. |
| `Words.DisjointSum` | sdk-ts/verify.ts:92-98 | Or and exclusive-or of values on disjoint bits are their sum. |
| `Words.LERoundTrip` | sdk-ts/verify.ts:92-104 | Writing little-endian bytes and reading them restores every value that fits. |
| `Base58.DecodeEncode` | engine/internal/chainadapter/solana_stub.go:67-91 | The specification decoder recovers every byte string exactly, leading zero bytes included. |
| `Base58.EncodeDecode` | engine/internal/chainadapter/solana_stub.go:67-91 | Every string over the alphabet is the encoding of what it decodes to: encoding is a bijection. |
| `Base58.EncodeIff` | engine/internal/chainadapter/solana_stub.go:67-91 | What the encoding is: the one string over the Bitcoin alphabet that begins with as many 1s as the bytes with zeros and whose digits add up, by powers of 58, to what the bytes do by powers of 256. |
| `Base58.EncodeInjective` | engine/internal/chainadapter/solana_stub.go:70-91 | Different byte strings have different encodings. |
| `Base58.AlphabetRuns` | engine/internal/chainadapter/solana_stub.go:71 | The alphabet, as its runs of consecutive characters, has 58 characters. |
| `Base58.EncodeBytes` | engine/internal/chainadapter/solana_stub.go:70-91 | The source's algorithm (divide, append, reverse in place) computes the specified encoding. |
| `Base58.DivisionDigits` | engine/internal/chainadapter/solana_stub.go:77-80 | The division loop yields the minimal base-58 digits, least significant first. |
| `Base58.ReverseInPlace` | engine/internal/chainadapter/solana_stub.go:86-88 | The swap loop reverses the array. |
| `FanOut.ReturnsFirstSuccess` | engine/internal/llm/runner.go:200-256 | Under every interleaving the attempt log has one row per fast provider, with what its call came back with, in the order of the sends; the response is the first success in that order; and there is one exactly when some call succeeded. |
| `FanOut.EveryRunReturns` | engine/internal/llm/runner.go:200-256 | Every schedule in which the provider calls return ends: a run has returned exactly after 5n + 3 steps of its own, none is longer, and until then a step is possible, a provider's return being the only one left when every live goroutine is inside a call. |
| `FanOut.InvAlways` | engine/internal/llm/runner.go:200-256 | In every state of every run nothing sent is lost or doubled, no send meets a full or closed channel, and the winner is the first success received. |
| `FanOut.SendNeverFails` | engine/internal/llm/runner.go:219-222 | A provider's send is taken by the buffer at once; the default branch is dead. |
| `FanOut.CancelledIffWon` | engine/internal/llm/runner.go:233-240 | Until the return the calls' context is done exactly when a success has been received or the parent's budget has expired. |
| `FanOut.LogIsTranscript` | engine/internal/llm/runner.go:233-246 | At every moment the log and the buffer are the calls' outcomes in the order of the sends. |
| `FanOut.SomeStep` | engine/internal/llm/runner.go:200-256 | No deadlock: an unfinished fan-out has a step it can take, and that is a provider's return only when every live goroutine is inside a call and nothing waits to be received. |
| `FanOut.ReturnsOnlyAfterAll` | engine/internal/llm/runner.go:233-256 | Nothing is returned before every provider's call has come back. |
| `FanOut.WinnerWaitsIff` | engine/internal/llm/runner.go:227-248 | A received success can be kept waiting for another provider's call exactly when there are at least two providers. |
| `FanOut.WinnerWaits` | engine/internal/llm/runner.go:227-248 | Counterexample, for every number of providers from two on, to waiting "for the first success or until every goroutine finishes": a success has been received and the fan-out cannot return, since another provider is still in its call. |
| `FanOut.FirstSuccessIff` | engine/internal/llm/runner.go:233-246 | The first success of a log is preceded by failures only, and exists exactly when the log holds one. |
| `FanOut.CollectResults` | engine/internal/llm/runner.go:233-256 | The collector's nested loops log every message received, in order, and return the first success: a response that only failures precede, and none exactly when all failed. |
| `TokenBucket.LimitHoldsIff` | engine/internal/api/ratelimit_apikey.go:46-71 | The rate bound (at most maxTokens + refillRate * length allowed calls per key in every closed interval, in every run with a nondecreasing clock) holds exactly when maxTokens is at least 1, since the first call of a key ignores the size. |
| `TokenBucket.WithinPotential` | engine/internal/api/ratelimit_apikey.go:46-71 | The bound from any state with sane buckets, by what the bucket can still let through. |
| `TokenBucket.CallSpendsPotential` | engine/internal/api/ratelimit_apikey.go:55-70 | No call raises that potential, and an allowed one inside the interval costs one token. |
| `TokenBucket.StretchBound` | engine/internal/api/ratelimit_apikey.go:46-71 | On a clock that may run backwards, with maxTokens of at least 1, the bound still holds for every stretch of consecutive calls. |
| `TokenBucket.TokensStayInRange` | engine/internal/api/ratelimit_apikey.go:46-71 | With maxTokens of at least 1, tokens stay in [0, maxTokens] along every run from such a state. |
| `TokenBucket.RangeHoldsIff` | engine/internal/api/ratelimit_apikey.go:54-71 | Tokens stay in [0, maxTokens] in every state reachable from an empty limiter exactly when maxTokens is at least 1; below, a first call leaves a negative count. |
| `TokenBucket.BoundAttained` | engine/internal/api/ratelimit_apikey.go:46-71 | The bound cannot be lowered: for every whole bucket size, every positive rate and every j there is a run that gets exactly the bound through in an interval in which j tokens flow in. |
| `TokenBucketExact.RefusedIff` | engine/internal/api/ratelimit_apikey.go:46-71 | On a nondecreasing clock a call is refused exactly when, for some earlier call of its key, maxTokens plus what flowed in since is less than what has been let through since and one more. |
| `TokenBucketExact.NoLimiterDoesBetter` | engine/internal/api/ratelimit_apikey.go:46-71 | The limiter is as generous as its bound allows: whatever choice of calls keeps the bound over every stretch, with foreknowledge or without, has at no point let more of a key through. |
| `TokenBucketExact.KeepsItself` | engine/internal/api/ratelimit_apikey.go:46-71 | And the limiter keeps that bound itself. |
| `TokenBucketExact.TakeIff` | engine/internal/api/ratelimit_apikey.go:55-70 | One call on an existing bucket: let through exactly when the smaller of maxTokens and tokens plus rate times elapsed is at least one, leaving exactly that, less the token. |
| `TokenBucketExact.IdleBurst` | engine/internal/api/ratelimit_apikey.go:55-70 | After a drained bucket of whole size m has been idle while j tokens flow in, a burst of n calls gets exactly the smallest of n, j and m through. |
| `TokenBucket.LimitIs` | engine/internal/api/ratelimit_apikey.go:46-71 | For a whole bucket size m and an interval in which j tokens flow in, n is a limit on the allowed calls of every such closed interval in every run exactly when n is at least m + j. |
| `TokenBucket.MinuteLimitIs240` | engine/internal/api/ratelimit_apikey.go:16-35 | For the configured limiter, described as 120 requests a minute, n limits the calls allowed in every closed minute exactly when n is at least 240. |
| `TokenBucket.PerKeyLimiter.constructor` | engine/internal/api/ratelimit_apikey.go:37-44 | A new limiter has no buckets. |
| `TokenBucket.PerKeyLimiter.Allow` | engine/internal/api/ratelimit_apikey.go:48-71 | The call answers and updates its bucket as the potential argument assumes, leaving other keys alone. |

## Left out

- `RangeProof.ProveRange`: the errors of the random source are not modelled; the drawn scalars are parameters, and the three the bit prover draws are assumed in range where they are sent unreduced.
- `RangeProof.VerifyRange`: a nil proof pointer is not modelled, and neither are the texts of the decoding errors, which all reject the bit.
- `RangeHiding.ValueHidden`: probability is not modelled; equal distributions follow from the one-to-one correspondence for uniform randomness. The simulator of `RangeHiding.SimulatedIsEmitted` is for one bit proof under a given challenge; programming the hash for a whole proof is not modelled.
- `WebhookStore.Store.RecordFailure`: the last error text, the HMAC secret and the metrics are not modelled, and the dead-letter identifier is an arbitrary function of subscription and creation time.
- `WebhookStore.Store.Replay`: the field documented as a replay counter is never changed by the source and is not modelled.
- `KeyRingObject.LiveRing.CreateKey`: a failing random source is not modelled; the lock is, by making each method one step, and by the two separate steps of Sign in `KeyRing.SignaturesPersist`.
- `StakeSlashing.Contract.ReportAndSlash`: every revert of the registry call is one error, since the host reports it as such.
- `WebhookStore.Store.Enqueue`: the uid an event carries, and the counter it comes from, exist only in the model; events are values that methods return, so neither can be ghost.
- `FanOut.CollectResults`: takes the sequence the channel yields before it is closed; that the channel yields it is proved on the state machine.
- Goroutines and channels: one state machine on values, whose steps the scheduler interleaves freely; only the collector loop is also written as a loop. Latencies and the error details of an attempt row are not modelled.
- Sharing of slices: `UnmarshalBinary` keeps views into its input, and replay copies the event by value; the model copies everywhere.
- The Lamport public-key codec is the private-key one again and is modelled once; key arrays are values, since no method updates them.
- The body of an HTTP delivery, its headers, its timeout and `Retry-After` parsing: I/O; the outcome and the parsed delay are parameters.
- Casper storage, cross-contract call encoding and CLValue serialisation: I/O; dictionaries are maps. Read-only entry points would only add easy members.
- The sequential fallback over reliable providers and the fixture after the fan-out: a plain loop beside the concurrent part.
- Curve arithmetic, SHA-256 and SHA-512, Ed25519, ML-DSA, SLH-DSA and HMAC internals: foreign libraries.
- The other proof systems of the engine (VRF, Pedersen folding, Nova, STARK hash chains) and the remaining contracts: the same techniques with easier claims.
- The SDK's comparison of server proofs: it hashes with BLAKE2b where the engine hashes with SHA-256, so nothing is claimed across the two.
- HTTP routing, authentication, storage backends, metrics, the frontend and the scripts: plumbing.
