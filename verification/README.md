# A verified model of picomint

This project models the parts of picomint whose correctness rests on arguments
that span many functions, and proves those arguments.

- **Ordering** (`Dag`, `Voting`, `Election`, `Ordering`, `Discovery`,
  `Extension`, `Protocol`): the graph of hash-pinned units with up to `f`
  forking creators among `3f + 1`, virtual votes, decisions, round heads,
  batches and the total order, and the whole mint as a state machine of forging, delivery, creation,
  crash and replay. A world is all well-placed units ever signed; a node holds
  any parent-closed part of it. Nothing is assumed about the seeded bits of the
  common vote.
- **The ordering engine** (`Storing`, `Deciding`, `Emitting`, `Creating`,
  `Replaying`, `Walking`, `Engine`): the class with the program's own fields,
  each method proved against the functions above, so that the caches, the
  early-stopping sweep, the queue, the creation loop and the replay are exactly
  their specifications.
- **Threshold signatures** (`Field`, `Interpolation`, `Scalars`, `Frost`,
  `FrostProofs`, `BlindSignatures`): Fermat inversion, the byte loops, Lagrange
  interpolation at zero, FROST signing against the "Verification" algorithm of
  BIP 340, and blind BLS signatures. Points are represented by their discrete
  logarithms, the parity of a point is any predicate that flips under negation.
- **Fountain codes** (`Fountain`, `Peeling`, `Transmission`): partition, the
  encoder, the peeling decoder and whole transmissions.
- **Encoding and tables** (`BigEndian`, `Codec`, `WireFormat`, `Unicode`,
  `Truncation`, `KeyOrder`, `Streams`, `ByteTables`, `Transactions`): a
  canonical codec over a universe of types, and typed tables over ordered byte
  strings.
- **Query fan-out** (`FanOut`) and **the gateway's settlement** (`Settlement`,
  `Gateway`).

## Where the code and its documentation differ

- picomint-bft/README.md:300-304 says two same-round units can vote differently
  only if both have unanimous parents. `Voting.MixedAndUnanimousDiffer` is a
  fork-free graph where one of the two is mixed; what the code needs and what
  holds is `Voting.UnanimityCannotClash`, and `Voting.VotesDifferIff` says
  exactly when two votes differ.
- Of the pairs cached in `decided` only the bit is stable: a unit of a lower
  round that also decides may arrive later, so the model ties the bit, not the
  round, to the specification.
- picomint-fountain/src/fountain.rs:133-139 truncates counts to 32 bits:
  `Transmission.DeliveredIffBelow4GiB` is the exact condition and
  `Transmission.OversizedIsReturnedWrong` an input beyond it.
- A refused lightning send leaves its payment-hash row behind
  (picomint-gateway-daemon/src/lib.rs:237-256). If the operator later pays that
  invoice by hand, its success settles the refunded contract a second time;
  `Settlement.HandPayKeepsInvIff` says this is the only way.
- picomint-bft/src/extender.rs:37-46 argues that a candidate outside the
  ancestry of a unit three rounds up is never decided 1. More holds: that unit
  itself decides it 0 (`Voting.UnseenIsExcluded`), which is why units arriving
  later cannot leave an elected head waiting and replay reproduces the order.

## Model

| member | source | states |
|---|---|---|
| `Dag.AncestryViewFree` | picomint-bft/src/engine.rs:75-80 | Ancestry reads the same in any parent-closed view as in the whole graph |
| `Dag.ClosedHoldsAncestry` | picomint-bft/src/engine.rs:75-80 | A parent-closed set holding a unit holds all of its ancestry |
| `Dag.RoundsGapFree` | picomint-bft/src/engine.rs:590-598 | A unit at some round in a parent-closed set has an ancestor there at every lower round |
| `Dag.RoundsBounded` | picomint-bft/src/engine.rs:590-598 | An extended round number is below the number of extended units, whatever rounds forged units claim |
| `Dag.AdmitsIff` | picomint-bft/src/engine.rs:416-441 | A unit is admitted exactly if its creator is of the mint and, above round 0, it names exactly 2f+1 parent creators of the mint |
| `Dag.QuorumIsExact` | picomint-core/src/node.rs:70-88 | 2f+1 is the one number of nodes that can be met with f silent and of which any two share more than f |
| `Voting.VoteViewFree` | picomint-bft/src/extender.rs:91-94 | A vote is the same in every view that holds the two units, so memoizing it never goes stale |
| `Voting.DecidesViewFree` | picomint-bft/src/extender.rs:231-236 | Whether a unit decides a candidate, and as what, does not depend on the view |
| `Voting.CommonParent` | picomint-bft/README.md:296-299 | Two units of one round share a parent unit made by an honest creator |
| `Voting.UnanimityCannotClash` | picomint-bft/src/extender.rs:13-18 | Two same-round units with unanimous parent votes vote alike |
| `Voting.VotesDifferIff` | picomint-bft/README.md:300-304 | Two same-round units vote differently exactly if one and only one has unanimous parents against the common vote |
| `Voting.MixedAndUnanimousDiffer` | picomint-bft/README.md:300-304 | A fork-free four-node graph in which a mixed and a unanimous same-round unit vote differently: the design note is too strong |
| `Voting.VotesPropagate` | picomint-bft/src/extender.rs:19-24 | Unanimity of one round is inherited by every round above |
| `Voting.CertificateIsUnanimous` | picomint-bft/src/extender.rs:254-271 | The 2f+1 matching parents of a deciding unit are all of its parents |
| `Voting.DecisionForcesRound` | picomint-bft/src/extender.rs:19-24 | One deciding unit makes every unit of its round vote the decided value |
| `Voting.DecisionPropagates` | picomint-bft/src/extender.rs:19-24 | From the deciding round up, every unit of the world votes the decided value |
| `Voting.DecisionsAgree` | picomint-bft/src/extender.rs:231-236 | No two units, of whatever rounds, decide a candidate differently |
| `Voting.ViewsDecideAlike` | picomint-bft/src/extender.rs:231-236 | No two views hold contrary decisions on a candidate |
| `Voting.UnseenIsExcluded` | picomint-bft/src/extender.rs:37-46 | A unit three rounds above a candidate outside its ancestry itself decides it 0 |
| `Voting.Coverage` | picomint-bft/src/extender.rs:37-46 | Once a view holds a round R+3 unit, a round R candidate it has not heard of is never decided 1 anywhere |
| `Voting.SeededVote` | picomint-bft/src/extender.rs:76-88 | Four or more rounds up, a unit with mixed parents votes the bit seeded by its own round and the candidate |
| `Voting.FreshBitDecides` | picomint-bft/src/extender.rs:76-88 | Over a unanimous round a unit decides exactly if its round's bit agrees: 1, then 0, then a bit seeded by the round, fresh at every round |
| `Election.Head` | picomint-bft/src/extender.rs:198-227 | The head of a round, defined without walk or cache |
| `Election.HeadsAgree` | picomint-bft/src/extender.rs:31-46 | Two views that both elect a head for a round elect the same one |
| `Election.HeadStays` | picomint-bft/src/extender.rs:184-197 | An elected head stays elected when more units arrive, lower-hash candidates among them |
| `Election.HeadIff` | picomint-bft/src/extender.rs:198-227 | The head is the one candidate decided 1 by some held unit with every lower-hash one decided 0 by some, once a round R+3 unit is held |
| `Election.HeavyColumn` | picomint-bft/src/extender.rs:191-197 | Double count: if every honest unit references more than f honest creators, some creator is referenced more than f times |
| `Election.WellReferencedIsVoted` | picomint-bft/src/extender.rs:191-197 | A candidate named by f+1 honest next-round units is voted 1 by every unit two rounds up |
| `Election.SomeCandidateSurvives` | picomint-bft/src/extender.rs:191-197 | If every honest node has a round R+1 unit, some round R candidate is voted 1 from R+2 up and never decided 0 |
| `Election.WalkNeverExhausted` | picomint-bft/src/extender.rs:191-197 | Under that condition the walk over the candidates never finds all of them decided 0 |
| `Ordering.BatchIsAncestry` | picomint-bft/src/extender.rs:278-316 | A batch is exactly the head's ancestors not emitted yet, each once, rounds ascending |
| `Ordering.SweepViewFree` | picomint-bft/src/extender.rs:278-287 | The sweep from a head is the same in every view that holds it |
| `Ordering.EmitUnderway` | picomint-bft/src/extender.rs:288-316 | A next-round head is never emitted before, and emitting it keeps every unit once and after its parents |
| `Ordering.RunUnderway` | picomint-bft/src/extender.rs:156-182 | The whole drain keeps emission causal and only appends |
| `Ordering.RunResumes` | picomint-bft/src/extender.rs:156-182 | Draining incrementally over a growing view reaches what one drain over the final view reaches |
| `Ordering.RunExhausts` | picomint-bft/src/extender.rs:156-182 | The drain passes exactly the rounds that have a head and stops at the first that has none |
| `Ordering.RunEmitsAncestry` | picomint-bft/src/extender.rs:156-182 | What a drain has emitted is exactly the ancestry of the heads of its rounds |
| `Discovery.BatchDiscovery` | picomint-bft/src/extender.rs:288-316 | Read backwards a batch is its head and then the breadth-first discovery of its ancestry, parents by ascending creator |
| `Discovery.DiscoveryDetermined` | picomint-bft/src/extender.rs:278-287 | That order is determined by the head and the set discovered |
| `Ordering.OrdersAgree` | picomint-bft/src/extender.rs:156-182 | Total-order agreement: two views of one world emit prefixes of one another, the one that resolved fewer rounds the shorter |
| `Extension.ExtendedFixpoint` | picomint-bft/src/engine.rs:590-619 | What a table lets a node extend is a fixpoint of the extension rule |
| `Extension.ExtendedLeast` | picomint-bft/src/engine.rs:590-619 | It is the least set closed under the rule |
| `Extension.ExtendedGreatest` | picomint-bft/src/engine.rs:590-619 | It is the greatest well-placed parent-closed part of the table |
| `Extension.ExtendedGrows` | picomint-bft/src/engine.rs:561-564 | More stored units never retract an extension |
| `Extension.UnplacedChangesNothing` | picomint-bft/src/engine.rs:565-568 | If the new unit is not placed, nothing else becomes extendable |
| `Extension.PlacedIsExtendable` | picomint-bft/src/engine.rs:599-619 | With the rounds below complete, the rule applied at a round is exact |
| `Extension.IdleRoundCutsOff` | picomint-bft/src/engine.rs:570-588 | A round above the new unit's that gains nothing cuts all higher rounds off from it |
| `Extension.CascadeDone` | picomint-bft/src/engine.rs:565-588 | The early-stopping sweep ends at the full fixpoint |
| `Protocol.StepKeepsInv` | picomint-bft/src/engine.rs:248-260 | Forging, delivery, creation and crashes, each keep single-voiced durable own columns and canonical progress at every node |
| `Protocol.RunKeepsInv` | picomint-bft/src/engine.rs:248-260 | So does every run |
| `Protocol.AgreementOverRuns` | picomint-bft/src/extender.rs:156-182 | What one honest node has emitted at one time and another at any later time are prefixes of one another, through forks, losses, crashes and replays |
| `Protocol.NoHonestFork` | picomint-bft/src/engine.rs:521-526 | No honest node publishes two units of one round in any run |
| `Protocol.OwnUnitsSurvive` | picomint-bft/src/engine.rs:253-260 | A published own unit is durable, extended, and rests on its predecessor after any crashes |
| `Protocol.CrashKeepsInv` | picomint-redb/src/lib.rs:262-268 | A crash that loses only relaxed commits keeps the own column whole |
| `Protocol.ReplayReproducesLive` | picomint-bft/src/engine.rs:211-221 | Replay over the stored units emits exactly the live sequence; over what a crash left, a prefix of it |
| `Protocol.EmissionIsCausal` | picomint-bft/src/extender.rs:278-287 | At every reachable state each unit was emitted at most once and after its parents |
| `Storing.StoredUnderHash` | picomint-bft/src/engine.rs:281-290 | The duplicate check through the round index is a lookup by hash |
| `Deciding.CachesGrow` | picomint-bft/src/engine.rs:86-101 | Memoized votes and cached decision bits stay right when more units are extended |
| `Deciding.WalkBlocked` | picomint-bft/src/extender.rs:207-226 | A walk that meets an undecided candidate, or only excluded ones, has no head |
| `Deciding.FirstIncluded` | picomint-bft/src/extender.rs:207-222 | The first included candidate after only excluded ones is the head |
| `Deciding.GapEndsScan` | picomint-bft/src/extender.rs:248-249 | An empty extended round ends the scan: no unit above it can decide |
| `Deciding.TallyIsVote` | picomint-bft/src/extender.rs:122-138 | The aggregated parent votes are the vote |
| `Engine.EnginesAgree` | picomint-bft/src/extender.rs:156-182 | Of two nodes of one session the one that resolved fewer rounds has sent a prefix, item by item, of what the other has, as long as payload digests do not collide |
| `Emitting.PendingOne` | picomint-bft/src/extender.rs:175-177 | Emitting an own unit settles exactly its round among those awaiting ordering |
| `Emitting.SentCarries` | picomint-bft/src/extender.rs:167-173 | The channel carries the payloads of the order item by item, each with its unit's round and creator |
| `Engine.ChannelCarries` | picomint-bft/src/extender.rs:156-182 | A node has handed on the payloads of its order, item by item and in payload order, with round and creator |
| `Engine.ProgressIs` | picomint-bft/src/extender.rs:156-182 | Every round below the next to decide has a head, that one has none, and what is handed on is the ancestry of those heads |
| `Engine.PendingOwn` | picomint-bft/src/engine.rs:543-549 | Our rounds awaiting ordering are those of our units with a payload not handed on |
| `Engine.NextRoundIs` | picomint-bft/src/engine.rs:481-482 | The next round to create in is the least above all of our own units |
| `Engine.Engine.VoteOf` | picomint-bft/src/extender.rs:104-141 | The memoized vote is the vote |
| `Engine.Engine.Matching` | picomint-bft/src/extender.rs:254-265 | The count is the number of parents supporting the bit |
| `Engine.Engine.Decide` | picomint-bft/src/extender.rs:237-276 | The answer is a decision some extended unit makes, none exactly if no extended unit makes one |
| `Engine.Engine.ChooseHead` | picomint-bft/src/extender.rs:198-227 | The walk returns the round's head, with caches kept sound |
| `Engine.Engine.BfsBatch` | picomint-bft/src/extender.rs:288-316 | The queue loop returns the batch and marks exactly it; its head assertion holds |
| `Engine.Engine.RunExtender` | picomint-bft/src/extender.rs:156-182 | The drain reaches the specified progress and sends its payloads in order, caches and pending own rounds kept right |
| `Engine.Engine.MaybeExtend` | picomint-bft/src/engine.rs:599-619 | A unit is added exactly if stored, new and placed |
| `Engine.Engine.SweepRound` | picomint-bft/src/engine.rs:574-582 | One sweep completes its round |
| `Engine.Engine.TryExtend` | picomint-bft/src/engine.rs:565-588 | The cascade ends with exactly what the table lets the node extend |
| `Engine.Engine.StoreUnit` | picomint-bft/src/engine.rs:462-479 | Tables, round index and own cursor agree after a store |
| `Engine.Engine.HandleUnit` | picomint-bft/src/engine.rs:261-305 | Admission, the walk for missing ancestors, duplicate check and install: the node receives the unit as the protocol says, none of it before validation |
| `Engine.Engine.ParentsFor` | picomint-bft/src/engine.rs:631-657 | Our own unit and the lowest other creators' lowest branches, a threshold in all, none exactly if there are not that many |
| `Engine.Engine.TryCreateUnit` | picomint-bft/src/engine.rs:481-541 | A unit is made exactly if the round below is ready and there is work, and is one an honest node may sign, with the parents the rule picks |
| `Engine.Engine.CreateUnits` | picomint-bft/src/engine.rs:207-209 | The loop ends with nothing left to create, one unit a round |
| `Engine.Engine.Replay` | picomint-bft/src/engine.rs:222-246 | Rebuilding from the tables yields a restarted node with sound caches, the order sent anew |
| `Engine.Engine.Reindex` | picomint-bft/src/engine.rs:225-239 | Index, own cursor and pending rounds agree with the table |
| `Engine.Engine.ExtendSeeds` | picomint-bft/src/engine.rs:241-243 | Cascading from the round-0 units extends everything extendable |
| `Engine.Engine.CascadeParents` | picomint-bft/src/engine.rs:349-369 | The units asked for are exactly those reached through held, unextended ancestors, not held, and not asked for within the last second |
| `Engine.Engine.TrySendRequest` | picomint-bft/src/engine.rs:318-341 | A request is sent exactly if the unit was not asked for within the last second, and is noted with its time |
| `Creating.PickedIsChoice` | picomint-bft/src/engine.rs:651-656 | The first of ourselves followed by the others ascending are what the parent rule asks for |
| `Creating.AheadShrinks` | picomint-bft/src/engine.rs:207-209 | Each own unit uses up a round others had reached, so the creation loop ends |
| `Creating.ChosenMayCreate` | picomint-bft/src/engine.rs:621-630 | What the parent rule picks is extended, one round down, by its key's creator, our own unit among it |
| `Creating.ChosenParentsAre` | picomint-bft/src/engine.rs:621-657 | The parents of a created unit in full: ourselves and the lowest other creators, a threshold, each by its lowest-hash unit a round down |
| `Replaying.NothingWithoutSeeds` | picomint-bft/src/engine.rs:216-221 | Without round-0 units nothing is extendable |
| `Walking.WalkEnds` | picomint-bft/src/engine.rs:342-369 | A finished walk has asked for exactly the missing frontier |
| `Walking.QuietWalkExtends` | picomint-bft/src/engine.rs:342-348 | If the walk asks for nothing and no held ancestor is misplaced, the unit extends the moment it is stored |
| `Field.Euclid` | picomint-tss/src/lib.rs:437-439 | A prime dividing a product of nonzero scalars divides a factor |
| `Field.Fermat` | picomint-tss/src/lib.rs:437-439 | Fermat's little theorem |
| `Field.InverseInverts` | picomint-tss/src/lib.rs:437-439 | The power q-2 of a nonzero scalar is its inverse |
| `Interpolation.LambdaIsWeight` | picomint-tss/src/lib.rs:408-425 | The multiplier times its denominator is its numerator, and it is not zero |
| `Interpolation.WeightsSumToOne` | picomint-tss/src/lib.rs:14-17 | The multipliers of any node set sum to one, so an additive tweak passes through |
| `Interpolation.Interpolates` | picomint-tss/src/lib.rs:381-404 | Multipliers combine the values of any polynomial of degree below the node count to its value at zero |
| `Scalars.ScalarModOrder` | picomint-tss/src/lib.rs:361-379 | The borrow loop leaves the value modulo the order |
| `Scalars.OneSubtractionSuffices` | picomint-tss/src/lib.rs:361-363 | One subtraction reduces every input exactly if the order is at least half the range |
| `Scalars.TopBitSuffices` | picomint-tss/src/lib.rs:361-363 | An order with its top bit set is at least half the range |
| `Scalars.Invert` | picomint-tss/src/lib.rs:437-461 | The bit loop computes the inverse; no product on the way is zero |
| `Scalars.LagrangeMultiplier` | picomint-tss/src/lib.rs:406-425 | The loop computes the multiplier; nothing on the way is zero |
| `Frost.AggregateNonceHalves` | picomint-tss/src/lib.rs:286-307 | The loop computes the coordinate-wise sums, none at infinity |
| `FrostProofs.SignerComputes` | picomint-tss/src/lib.rs:98-142 | What a signer computes, panics on zero included, as one scalar |
| `FrostProofs.VerifierExpects` | picomint-tss/src/lib.rs:146-193 | What the verifier expects is the same scalar |
| `FrostProofs.ShareVerifies` | picomint-tss/src/lib.rs:144-193 | A share verifies if and only if it is what the node's signer computes |
| `FrostProofs.GroupNonceIs` | picomint-tss/src/lib.rs:316-332 | The group nonce is the sum of the bound nonces, or the generator if they cancel |
| `FrostProofs.GroupNonceValue` | picomint-tss/src/lib.rs:316-332 | The group nonce in numbers, the generator exactly if the bound nonces sum to zero, a panic exactly on a zero binding coefficient |
| `FrostProofs.BindingIs` | picomint-tss/src/lib.rs:237-270 | The binding coefficient hashes the sorted signing set, both summed halves, the x-only key and the message |
| `FrostProofs.AddUpIff` | picomint-tss/src/lib.rs:206-216 | Adding shares up panics exactly where a sum on the way is zero, and else reaches their sum |
| `FrostProofs.OneResponse` | picomint-tss/src/lib.rs:226-234 | With one nonce part at most one response verifies |
| `FrostProofs.OutsiderRejected` | picomint-tss/src/lib.rs:154-156 | A node outside the signing set has no valid share |
| `FrostProofs.AggregateVerifies` | picomint-tss/src/lib.rs:195-233 | The aggregate exists exactly if no sum of the shares on the way is zero, and verifies under the mint's key for every parity combination exactly if the bound nonces do not cancel |
| `FrostProofs.KeyRecovered` | picomint-tss/src/lib.rs:381-404 | Any set of at least a threshold of shares recovers the same key, exactly if no weighted sum on the way is zero |
| `FrostProofs.TweakPasses` | picomint-tss/src/lib.rs:14-17 | Tweaking every share tweaks the recovered key by exactly as much, each recovered exactly if no weighted sum on the way is zero |
| `FrostProofs.TweakedPolynomial` | picomint-tss/src/lib.rs:14-17 | Tweaking the polynomial tweaks each share and the key |
| `BlindSignatures.MultiplierIsWeight` | picomint-tbs/src/lib.rs:143-155 | The factor-by-factor multipliers are the same scalars as those of the Schnorr scheme |
| `BlindSignatures.AggregateIsSignature` | picomint-tbs/src/lib.rs:107-141 | Combined shares, the lone share of a one-of-one mint included, are the mint's signature on the blinded nonce |
| `BlindSignatures.BlindRoundTrip` | picomint-tbs/src/lib.rs:88-172 | Blind, sign, aggregate and unblind yield a signature that verifies; only a zero blinding key panics |
| `BlindSignatures.ShareVerifies` | picomint-tbs/src/lib.rs:99-105 | A share verifies if and only if it is the node's signature on the blinded nonce |
| `BlindSignatures.SignatureVerifies` | picomint-tbs/src/lib.rs:170-172 | A signature verifies if and only if it is the nonce signed with the key |
| `BlindSignatures.BlindingHides` | picomint-tbs/src/lib.rs:88-92 | Each nonce is taken to each blinded nonce by exactly one blinding key |
| `Fountain.FragmentLengthAgrees` | picomint-fountain/src/fountain.rs:85-87 | The chosen length is within the maximum and is what the decoder computes back |
| `Fountain.FragmentLengthLeast` | picomint-fountain/src/fountain.rs:85-87 | It gives the fewest fragments any length within the maximum does, and is the shortest that gives as few |
| `Fountain.PartitionJoins` | picomint-fountain/src/fountain.rs:89-95 | Cutting gives the expected number of equal fragments, whose concatenation is the message and then zeros |
| `Fountain.DropOne` | picomint-fountain/src/fountain.rs:252-257 | Xoring one fragment out of a combination leaves the others combined |
| `Peeling.Encoder.NextFragment` | picomint-fountain/src/fountain.rs:64-82 | Each call emits the specified fragment of its index |
| `Peeling.FragmentOf` | picomint-fountain/src/fountain.rs:64-82 | Fragment i is the i-th part with the message's metadata, and past the parts a sample of the degree drawn for its checksum and index |
| `Peeling.ChoiceDrawn` | picomint-fountain/src/fountain.rs:97-114 | Simple indexes choose themselves; the others a sample of the degree drawn from the seed of checksum and index |
| `Peeling.OutcomeIs` | picomint-fountain/src/fountain.rs:208-232 | A fragment is invalid exactly by zero counts or a wrong length, inconsistent exactly by other metadata |
| `Peeling.XorInto` | picomint-fountain/src/fountain.rs:116-122 | In-place exclusive or |
| `Peeling.Decoder.Receive` | picomint-fountain/src/fountain.rs:208-239 | Outcome and new state of one fragment, errors changing nothing |
| `Peeling.Decoder.ProcessSimple` | picomint-fountain/src/fountain.rs:241-267 | Peeling ends with no buffered combination holding a decoded fragment, nothing decoded or said by a combination lost, and everything faithful if it was |
| `Peeling.Decoder.PeelOut` | picomint-fountain/src/fountain.rs:246-265 | One turn of the queue: afterwards a buffered combination holds only undecoded or queued fragments, nothing is lost, and queue plus buffer do not grow |
| `Peeling.Decoder.ProcessComplex` | picomint-fountain/src/fountain.rs:269-291 | The combination is all decoded, or what is left of it is buffered under its two or more remaining indexes; no other is lost |
| `Transmission.NeverCorrupted` | picomint-fountain/src/fountain.rs:184-239 | No loss, reordering or repetition makes the decoder return anything but the original |
| `Transmission.SimpleFragmentsSuffice` | picomint-fountain/src/fountain.rs:192-206 | All simple fragments, in any order and among anything, are enough |
| `Transmission.NothingLost` | picomint-fountain/src/fountain.rs:241-291 | At any later time every fragment received is all decoded, or what is left of it is buffered, or the message is out |
| `Transmission.PeeledIsComplete` | picomint-fountain/src/fountain.rs:241-267 | After peeling no combination is one fragment short of telling something new |
| `Transmission.DeliveredIffBelow4GiB` | picomint-fountain/src/fountain.rs:133-139 | After all simple fragments the decoder has the original exactly if the message is below 4 GiB |
| `Transmission.OversizedIsReturnedWrong` | picomint-fountain/src/fountain.rs:133-139 | One byte over 4 GiB in one-byte fragments: the first fragment alone is returned as the message |
| `Codec.RoundTrip` | picomint-encoding/src/lib.rs:129-466 | Decoding an encoding, whatever follows it, yields the value and exactly what follows |
| `Codec.Canonical` | picomint-encoding/src/lib.rs:129-466 | Bytes that decode to a value are exactly its encoding, maps and sets in strict key order |
| `Codec.DecodesExactlyEncodings` | picomint-encoding/src/lib.rs:80-91 | A whole buffer decodes to a value if and only if it is the value's encoding |
| `Codec.BytesAtOnce` | picomint-encoding/src/lib.rs:295-342 | Writing and reading a byte vector at once is the same as byte by byte |
| `Codec.TextIsBytes` | picomint-encoding/src/lib.rs:262-281 | A string is written as the byte vector of its UTF-8 |
| `Codec.PrefixFree` | picomint-redb/src/lib.rs:13-19 | No encoding starts another of the same type |
| `WireFormat.UnsignedOnWire` | picomint-encoding/src/lib.rs:131-156 | Unsigned integers are their big-endian bytes |
| `WireFormat.SignedOnWire` | picomint-encoding/src/lib.rs:131-156 | Signed ones are four bytes in two's complement |
| `WireFormat.TagsOnWire` | picomint-encoding/src/lib.rs:160-260 | Flags, options and results lead with 1 for true, a value or success and 0 for the others |
| `WireFormat.ItemsOnWire` | picomint-encoding/src/lib.rs:301-370 | A vector is its count in four bytes and its items in order, an array its items alone |
| `WireFormat.TextOnWire` | picomint-encoding/src/lib.rs:262-281 | A string is its byte count in four bytes and its bytes |
| `WireFormat.MapOnWire` | picomint-encoding/src/lib.rs:394-409 | A map is its count in four bytes and its rows in key order, each key before its value |
| `Unicode.Utf8Iff` | picomint-encoding/src/lib.rs:270-275 | Bytes pass for UTF-8 exactly if they are the encoding of some sequence of code points |
| `Truncation.CutEnds` | picomint-encoding/src/lib.rs:129-466 | A cut-off encoding of any type ends early wherever it is cut |
| `Truncation.TrailingInvalid` | picomint-encoding/src/lib.rs:80-91 | Bytes after a whole encoding make it invalid |
| `KeyOrder.LessTotal` | picomint-encoding/src/lib.rs:411-466 | Keys of one type are totally ordered |
| `KeyOrder.BytesCompare` | picomint-encoding/src/lib.rs:411-466 | Strings compare at the first byte they differ in, the shorter first |
| `KeyOrder.ItemsCompare` | picomint-encoding/src/lib.rs:411-466 | Vectors compare at the first item they differ in, the shorter first |
| `KeyOrder.RowsCompare` | picomint-encoding/src/lib.rs:411-466 | Maps compare at the first row they differ in, keys before values |
| `KeyOrder.KeysAscend` | picomint-encoding/src/lib.rs:411-431 | Every key of a decoded map is above all before it |
| `KeyOrder.OrderPreserved` | picomint-encoding/src/lib.rs:655-664 | Byte order of encodings is the order of the keys, for tuples of unsigned integers, flags, options and fixed arrays |
| `KeyOrder.SignedKeysDisorder` | picomint-redb/src/lib.rs:13-19 | A signed key breaks the order |
| `Streams.Writer.Write` | picomint-encoding/src/lib.rs:129-446 | The writer grows by exactly the encoding |
| `Streams.Reader.Read` | picomint-encoding/src/lib.rs:129-466 | The reader yields the decoded value and advances past exactly its bytes, or fails with the specified kind of error |
| `Streams.Reader.ReadRows` | picomint-encoding/src/lib.rs:411-431 | The map loop is the specified decoding; its duplicate check never fires |
| `Streams.ConsensusDecode` | picomint-encoding/src/lib.rs:80-91 | Trailing bytes make a whole-buffer decode fail |
| `Streams.ConsensusEncodeToVec` | picomint-encoding/src/lib.rs:42-48 | The encoding as a new buffer |
| `ByteTables.PrefixUpperBound` | picomint-redb/src/lib.rs:169-187 | The loop computes the upper bound of a prefix |
| `ByteTables.PrefixBoundsExact` | picomint-redb/src/lib.rs:158-167 | A key is within the bounds of a prefix if and only if it starts with it |
| `ByteTables.UpperBoundLeast` | picomint-redb/src/lib.rs:169-172 | The upper bound is the least string above everything that starts with the prefix |
| `ByteTables.PrefixExact` | picomint-redb/src/lib.rs:58-63 | A tuple's bytes start with a prefix's exactly if its first elements are the prefix's |
| `ByteTables.RangeExact` | picomint-redb/src/lib.rs:143-156 | A byte range over encoded keys is the typed range |
| `ByteTables.InRangeIff` | picomint-redb/src/lib.rs:143-156 | A typed range keeps out exactly what is beyond an included bound or not strictly within an excluded one |
| `ByteTables.RemovePrefixTyped` | picomint-redb/src/lib.rs:622-633 | Dropping the byte range of a prefix removes exactly its rows from the typed map |
| `Transactions.WriteTx.Get` | picomint-redb/src/lib.rs:527-533 | The typed lookup |
| `Transactions.WriteTx.Insert` | picomint-redb/src/lib.rs:587-598 | The typed update, the previous value returned, other tables unchanged |
| `Transactions.WriteTx.Remove` | picomint-redb/src/lib.rs:612-620 | The typed removal, the previous value returned |
| `Transactions.WriteTx.RemovePrefix` | picomint-redb/src/lib.rs:622-633 | Exactly the rows that start with the prefix go |
| `Transactions.WriteTx.Scan` | picomint-redb/src/lib.rs:498-521 | Stored bytes always decode, and a scan lists exactly the selected rows, each once, ascending or descending by key |
| `Transactions.WriteTx.Iterate` | picomint-redb/src/lib.rs:535-542 | All rows, each once, ascending or descending |
| `Transactions.WriteTx.PrefixScan` | picomint-redb/src/lib.rs:544-568 | Exactly the rows that start with the prefix, ascending or descending |
| `Transactions.WriteTx.RangeScan` | picomint-redb/src/lib.rs:570-580 | Exactly the rows in the typed range |
| `FanOut.ThresholdConsensus.Process` | picomint-rpc/src/query.rs:108-124 | Success means a threshold of latest answers equal the value; the retry assertion is the caller's duty |
| `FanOut.FilterMapThreshold.Process` | picomint-rpc/src/query.rs:71-87 | Checked answers are collected, the latest of each node, until a threshold of nodes |
| `FanOut.HonestBacking` | picomint-rpc/src/api.rs:133-176 | Whichever f nodes lie, a returned value has more than f honest nodes behind it |
| `FanOut.ReturnsAgree` | picomint-rpc/src/api.rs:133-176 | Where honest nodes keep to their answers any two returned values are the same |
| `FanOut.NeverRunsOut` | picomint-rpc/src/api.rs:147-151 | While neither bound is reached some request is under way |
| `FanOut.RequestConsensus` | picomint-rpc/src/api.rs:133-176 | For any arrivals: a request to wait for always exists, no node is retried twice, the fan-out ends with the first arrival that gives a value 2f+1 latest answers or brings the failed nodes to f+1 |
| `FanOut.RequestFiltered` | picomint-rpc/src/api.rs:133-176 | The fan-out always ends, with a threshold of checked answers exactly if that many nodes give one |
| `FanOut.RequestFilteredRetry` | picomint-rpc/src/api.rs:179-208 | The retrying fan-out returns exactly if a threshold of nodes give a checked answer; else it waits forever |
| `Settlement.StepKeepsInv` | picomint-gateway-daemon/src/lib.rs:90-362 | Every request and event keeps each contract at one outcome or one payment under way, and each funding paired with one claim |
| `Settlement.OneOutcome` | picomint-gateway-daemon/src/lib.rs:82-89 | Over every interleaving a contract taken on gets exactly one outcome, a claim with the right preimage if it was priced or a forfeit, unless its payment is under way |
| `Settlement.ClaimedOncePerHash` | picomint-gateway-daemon/src/db.rs:43-52 | Over every interleaving no hash claims two outgoing contracts: the one claimed is swapped with the incoming contract of the hash, or is the one its one payment was made for |
| `Settlement.FundedAndClaimedOnce` | picomint-gateway-daemon/src/db.rs:54-62 | Over every interleaving a funded contract is funded once, and as much is claimed for it with its preimage once: of the one outgoing contract it is swapped with, or of one inbound payment and no outgoing contract; its hash is never paid |
| `Settlement.UnfundedIsUnclaimed` | picomint-gateway-daemon/src/main.rs:390-405 | Over every interleaving nothing is claimed over an issued hash before its contract is funded |
| `Settlement.PaymentIsCovered` | picomint-gateway-daemon/src/lib.rs:184-256 | Over every interleaving a hash is paid only for a contract of the invoice's amount that pays the fee, and never issued |
| `Settlement.PaymentIsNew` | picomint-gateway-daemon/src/lib.rs:214-256 | In every reachable state a payment asked for is over a hash not held before, and is then under way for its contract |
| `Settlement.PaidIff` | picomint-gateway-daemon/src/lib.rs:184-256 | A contract newly taken on is paid over lightning exactly if it passes every check, its hash was never taken on, issued or sent, and the lightning node accepts |
| `Settlement.SwappedIff` | picomint-gateway-daemon/src/lib.rs:258-298 | It is swapped exactly if it passes every check, is for our own invoice, the unfunded contract registered is of its amount, and the mint client funds it; its claim is that contract's preimage |
| `Settlement.RefundedElse` | picomint-gateway-daemon/src/lib.rs:90-169 | Otherwise, and only then, it is forfeited on arrival; contract, outpoint and invoice are kept |
| `Settlement.RegisteredIff` | picomint-gateway-daemon/src/lib.rs:307-362 | A contract is registered and its invoice issued exactly under the fee, hash, mint and node checks |
| `Settlement.RedeemedIff` | picomint-gateway-daemon/src/main.rs:355-419 | An inbound payment is funded and claimed exactly if its event is new and the contract registered is of exactly its amount and funded |
| `Settlement.SettledIs` | picomint-gateway-daemon/src/main.rs:424-473 | A lightning outcome becomes the outcome of the contract whose payment it ends, and of no other |
| `Settlement.OutcomesStand` | picomint-gateway-daemon/src/db.rs:32-40 | An outcome once given is never changed nor added to |
| `Settlement.HandPayKeepsInvIff` | picomint-gateway-daemon/src/main.rs:424-453 | A payment the operator makes by hand keeps this exactly if the gateway was not refused on that hash before |
| `Settlement.RefusedThenPaidSettlesTwice` | picomint-gateway-daemon/src/main.rs:424-453 | Otherwise its success claims a contract already forfeited |
| `Settlement.RefusalReachable` | picomint-gateway-daemon/src/lib.rs:236-256 | A run of one refused send and a hand payment with that end |
| `Gateway.Gateway.SendPayment` | picomint-gateway-daemon/src/lib.rs:90-169 | A funded contract is paid, under way or refunded; a repeated request changes nothing |
| `Gateway.Gateway.StartPaymentOf` | picomint-gateway-daemon/src/lib.rs:178-298 | The payment attempt, the direct swap included |
| `Gateway.Gateway.RegisterReceive` | picomint-gateway-daemon/src/lib.rs:307-362 | A contract is registered only for a hash neither paid nor issued before |
| `Gateway.Gateway.HandlePaymentClaimable` | picomint-gateway-daemon/src/main.rs:355-419 | An inbound payment funds the registered contract of its exact amount and is claimed, once |
| `Gateway.Gateway.HandlePaymentSuccessful` | picomint-gateway-daemon/src/main.rs:424-453 | A success claims the contract its hash was taken on for, once |
| `Gateway.Gateway.HandlePaymentFailed` | picomint-gateway-daemon/src/main.rs:457-473 | A failure forfeits it, once |

## Left out

- Signatures, hashes, pairings and curve arithmetic: hashes are injective, a valid signature means the unit was signed, groups are their discrete logarithms.
- Engine.Engine.HandleUnit: keeps no signature table and answers no requests, because a signature is read back only to send a unit on.
- Engine.Engine.CascadeParents: the clock is read through a function of the unit asked for, at most once a walk; whom the requests go to is not modelled.
- Engine.Engine.TryCreateUnit: takes the payload as given, because what the data provider draws is outside the engine.
- Engine.Engine.CreateUnits: needs at least four nodes, as the program does; the smallest allowed mint has four.
- Round numbers are unbounded; `Dag.RoundsBounded` shows an extended round never exceeds the number of extended units, so 32 bits overflow only after as many units. A unit that merely claims a high round is stored and never extended.
- Transport, timing, the one-second push, expected latency and probabilistic liveness of the ordering engine.
- A node wiped and restored in mid-session: own durable commits are assumed to survive a crash, relaxed ones may be lost in any combination.
- Frost.AggregateNonceHalves: points are their discrete logarithms and the two tagged hashes are functions of what is hashed; key generation and nonce derivation are not modelled.
- FrostProofs.AggregateVerifies: speaks of signing sets whose every node computes its share; `FrostProofs.SignerComputes` says when one panics, as the program says with negligible probability.
- BlindSignatures.AggregateIsSignature: takes sums and products of scalars as a whole, because their order does not matter in a field.
- Peeling.Encoder.NextFragment: takes the seed hash and the two draws of the seeded generator as given, and does not model the overflow of the 32-bit index after 2^32 fragments.
- Peeling.Decoder.ProcessSimple: visits buffered combinations in any order rather than by key, because the result claimed does not depend on it.
- Codec.RoundTrip: the derive macros and the encodings of curve points, hashes and network keys are not in the universe of types; a tuple is a chain of pairs and a set of keys a map to nothing, which encode to the same bytes. A string is its UTF-8 bytes, compared as such.
- Streams.Reader.Read: says nothing of where the reader stands after a failure.
- Transactions.WriteTx.Scan: table clearing, snapshots and commit notification are not modelled.
- FanOut.RequestConsensus: is about any number of arrivals in any order; whether nodes come to agree is up to them.
- Gateway: the mint client's writes and the lightning node's answers are inputs; a request or event is one atomic step; the mint of a contract is not removed while it is unsettled, because removal deletes payment-hash rows by hash.
- Gateway.Gateway.SendPayment: the wait for the outcome and the event log are not modelled; funding, claiming and forfeiting are recorded as having been written.
- Base32, amounts, session state, analytics, command lines, HTTP routes, peer connections and the lnurl daemon: plumbing or easier members.
