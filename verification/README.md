# A Dafny model of midnight-node

This project models the parts of midnight-node where two programs, two versions or many threads have
to agree, and proves that they do:

- **The ledger 8 -> 9 migration.** The Merkle-Patricia trie rewrite, the translation table, every order in
  which the scheduler may work through a content-addressed state, the budgeted driver loop with its
  reported cost, and the reads that a client makes before and after.
- **The BEEFY authority sets.** Stakes and keyset commitments in the runtime, the payload between node and
  relay, and the proof the relay encodes for Cardano.
- **The JSON byte-array transformer**, the **finality subscription limiter**, the **git-pin printer and
  parser**, the **AURA-to-BABE keystore wrapper** and the **verifier-key slots** of contract operations.

`dafny verify dfyconfig.toml` checks everything. The modules, bottom up:

| module | models |
|---|---|
| `Trie`, `TrieLaws` | tries as values, their translation, and what it keeps |
| `ContractState` | contract states, their rebuild loop, verifier-key slots |
| `TranslationTable` | type tags, translation ids, the table |
| `LedgerTypes`, `LedgerLaws` | ledger states of both versions and what a client can observe of them |
| `Translation`, `TranslationLaws` | child translations and `finalize` |
| `Schedule` | every schedule of attempts: correctness, progress, counting |
| `Migration` | state keys, the arena, the driver, its cost and convergence |
| `HostReads` | the read accessors and their ledger-8 path |
| `Json`, `JsonLaws` | the transformer, its iterations and its inverse |
| `Scale`, `BeefyStakes`, `BeefyPayload`, `CardanoEncoding` | the BEEFY pipeline from stakes to Plutus data |
| `Subscriptions` | the limiter as interleaved atomic steps, and as an object |
| `Strings`, `GitPin` | splitting at separators; the printer and the parser |
| `Keystore` | the wrapper and the fallback over runs of inserts |

## Modelling decisions

- A stored pointer is the value it points at. The translation cache is keyed by translation id and content
  address; `Schedule.CollisionFree` says no two objects met in one translation share an address. Equal
  subtrees are therefore one cache entry, which is what sharing means here.
- The scheduler is not part of this repository. The model lets it attempt any reachable pair, in any order,
  any number of times, split over any number of `run` calls; an attempt is one call of `finalize`.
- The two rewritten tries share one node type and differ in their `Kind`; `TypedNode` is the Rust type of a
  trie. A failed downcast is the outcome `TypePanic`, and is proved never to happen.
- `recast` and `recast_base` return the same content when the two tags agree and fail otherwise. The tag pairs
  are inputs of the model, so the failing case is part of it.
- Amount reads decode the address first and then load the ledger, in that order of errors; decoding an address and
  hashing the shielded pool are inputs of the model.
- A trie annotation is any monoid (`Trie.Lawful`). Reading a key follows the usual Merkle-Patricia rules.
- A state key and a verifier-key file are modelled by what their decoders see: an optional tag and an optional
  body.
- `push_raw` keeps payload entries sorted by id, and stakes and sets use the SCALE layout visible in the encoded
  payloads of the relay's own test data. The Merkle tree is any function of the hashed leaves, shared by runtime
  and relay; an empty tree has no root on the relay side.
- Relaxed loads of the subscription counter may return any earlier value of it. Everything that happens around one
  `try_acquire` is a list of moments; a call that never returns is not described by any such list.
- A key is taken for an sr25519 key if it has 32 bytes. A wrapped keystore whose listing fails lists no sr25519 keys,
  while signing and `has_keys` look up single keys. Whether it accepts an insert is an input.
- A validator set has at least one validator, as its constructor demands (relay/src/helper.rs:58); the list of validators
  a request finds may be empty. The code takes a stored next set with an all-zero commitment for "not set". For an
  announced set that needs a hash and tree that give a non-empty list the all-zero root: the model states exactly what
  happens then (`BeefyStakes.AsksKeepNextIff`), and that otherwise the handover holds over every run
  (`BeefyStakes.HandoverAlwaysHolds`).
- `AuthoritiesProvider` is modelled as the component it is; the runtime configuration wires a different one
  (runtime/src/lib.rs:469).

Where code and its description differ, the model follows the code:

- The transformer is described as turning every array of numbers into hex; it turns non-empty arrays of bytes,
  and leaves the second half of a verification key alone on the first pass only. It is idempotent exactly when no
  verification key has two byte halves (`JsonLaws.IdempotentIff`).
- The keystore wrapper is described as using AURA keys when no BABE key was inserted; `has_keys` keeps accepting
  them afterwards, although they no longer sign (`Keystore.HasKeyPromisesSigning`,
  `Keystore.AcceptedButCannotSign`).
- The payload is described as carrying at most five entries; a payload without the two "next" entries is refused by
  the relay (`BeefyPayload.RelayReadsWhatNodePacked`).

## Model

| member | source | states |
|---|---|---|
| TrieLaws.LookupTranslated | ledger/helpers/src/state_translation_v8_to_v9.rs:134-197 | for every trie and every key, looking up the translated trie gives the translated value of the source lookup: no key is gained, lost or moved |
| TrieLaws.EntriesTranslated | ledger/helpers/src/state_translation_v8_to_v9.rs:154-197 | the translated trie lists the same keys in the same order, each value translated |
| TrieLaws.EntriesInKeyOrder | ledger/helpers/src/state_translation_v8_to_v9.rs:162-172 | the order in which a branch folds its children is lexicographic key order |
| TrieLaws.DistinctIff | ledger/helpers/src/state_translation_v8_to_v9.rs:154-197 | no key is listed twice if and only if no mid-branch value has another value behind it |
| TrieLaws.RootFoldsEachKeyOnce | ledger/helpers/src/state_translation_v8_to_v9.rs:158-196 | what a parent sees of a translated trie is the fold of its entries in key order; the keys are distinct exactly when the source trie has no shadowed value, and then the entries are the lookups, each key folded once |
| TrieLaws.LookupIsFind | ledger/helpers/src/state_translation_v8_to_v9.rs:140-152 | the entry list is the trie's meaning: reading a key finds its first entry, and nothing when it has none |
| TrieLaws.TranslatedIsWellAnnotated | ledger/helpers/src/state_translation_v8_to_v9.rs:158-196 | every node of a translated trie carries the monoid fold, in key order, of the translated values below it, whatever the old annotations were |
| TrieLaws.TranslatedIsWellShaped | ledger/helpers/src/state_translation_v8_to_v9.rs:162-172 | translated branches keep their 16 children |
| TrieLaws.TranslateIsTheOnlyImage | ledger/helpers/src/state_translation_v8_to_v9.rs:154-197 | the translated trie is the only trie of the same shape, node for node, with the translated values, in which every node carries the fold of the values below it |
| TranslationTable.TableTagsMatchTypes | ledger/helpers/src/state_translation_v8_to_v9.rs:500-603 | every id literal of the table is the id its translation builds from the tags of its types |
| TranslationTable.DispatchFindsTranslator | ledger/helpers/src/state_translation_v8_to_v9.rs:500-603 | looking up a translation's id finds exactly that translation |
| TranslationTable.DispatchIff | ledger/helpers/src/state_translation_v8_to_v9.rs:500-603 | an id is dispatched to a translation exactly when it is the id of that translation's types; every other id is unknown |
| TranslationTable.TableIsClosed | ledger/helpers/src/state_translation_v8_to_v9.rs:632-637 | every id a registered translation requires is registered |
| TranslationLaws.ChildrenAreTyped | ledger/helpers/src/state_translation_v8_to_v9.rs:126-153 | every child is sent, well typed, to the id of its own source type, and that id was declared as required |
| TranslationLaws.RequiredIsUsed | ledger/helpers/src/state_translation_v8_to_v9.rs:126-153 | no translation declares more than it uses: for every declared id some well-typed object has a child sent to it |
| TranslationLaws.FinalizeIsPlain | ledger/helpers/src/state_translation_v8_to_v9.rs:103-316 | `finalize` waits exactly while a child is missing, fails exactly when a recast compares unequal tags, never downcasts wrongly, and otherwise yields the plain recursive translation |
| TranslationLaws.FinalizeOverAnyCache | ledger/helpers/src/state_translation_v8_to_v9.rs:103-316 | whatever a cache holds: an object is finalised only from children all cached with the types their ids promise, waits only for a missing child, and a translation applied to an object of another type panics |
| TranslationLaws.FillBranch | ledger/helpers/src/state_translation_v8_to_v9.rs:162-172 | the loop that overwrites 16 empty children, given up at the first missing one, computes the branch case of `finalize` |
| Schedule.WorkIsTyped | ledger/helpers/src/state_translation_v8_to_v9.rs:91-153 | every pair reachable from the root has the source type of the id it is sent to and is dispatched to that type's translation |
| Schedule.UnknownIdAborts | ledger/helpers/src/state_translation_v8_to_v9.rs:500-603 | an attempt fails for an unknown id exactly if the id is no translation's own |
| Schedule.RunKeepsInv | ledger/helpers/src/state_translation_v8_to_v9.rs:103-197 | every schedule keeps the cache sound and closed under children; the only way to end early is a tag mismatch of some reachable object |
| Schedule.EveryEntryIsPlain | ledger/helpers/src/state_translation_v8_to_v9.rs:103-316 | in every reachable cache every entry is the plain translation of its object and has the type its id promises |
| Schedule.SchedulesAgree | ledger/src/host_api/migration_8_to_9.rs:127-145 | any two schedules that finish give the same v9 state, the plain translation |
| Schedule.RunSplits | ledger/src/host_api/migration_8_to_9.rs:127-145 | splitting a schedule over several budgets changes nothing |
| Schedule.SomethingIsReady | ledger/helpers/src/state_translation_v8_to_v9.rs:134-153 | while a pair is missing, some missing pair below it is ready |
| Schedule.StoreShrinksRemaining | ledger/helpers/src/state_translation_v8_to_v9.rs:154-197 | storing a missing pair takes exactly one key off what remains |
| Schedule.CanFinish | ledger/src/host_api/migration_8_to_9.rs:127-145 | from any reachable cache some schedule finishes, in at most one attempt per missing key |
| Schedule.FinishesIffRecastsAgree | ledger/helpers/src/state_translation_v8_to_v9.rs:68-75 | an object can be translated if and only if every recast of every object reachable from it compares equal tags |
| Schedule.FinishesIffTagsAgree | ledger/helpers/src/state_translation_v8_to_v9.rs:68-75 | a ledger state can be translated if and only if the ledger and parameter tags agree, and the contract tags too if some address holds a contract |
| Schedule.ProductiveBalances | ledger/src/host_api/migration_8_to_9.rs:127-145 | in every run the attempts that stored something and the keys still missing add up to the keys missing before: nothing is translated twice, nothing is lost |
| LedgerLaws.BridgeIsKept | ledger/helpers/src/state_translation_v8_to_v9.rs:571-601 | every beneficiary keeps its bridge amount, none appears, and the new root annotation is the fold of all entries |
| LedgerLaws.ContractsAreKept | ledger/helpers/src/state_translation_v8_to_v9.rs:520-570 | every address holds the image of the contract it held, none appears, and the trie is correctly annotated |
| LedgerLaws.LedgerIsKept | ledger/helpers/src/state_translation_v8_to_v9.rs:298-315 | the translated state keeps all pools, stable maps and opaque parts, all surviving parameters, all bridge amounts and all contracts; only the new parameters take their initial values |
| LedgerLaws.LedgerIsTheOnlyImage | ledger/helpers/src/state_translation_v8_to_v9.rs:298-315 | the translated state is the only v9 state that shows all this of the old one |
| LedgerLaws.MigratedOperationsReportTheirKey | ledger/helpers/src/state_translation_v8_to_v9.rs:425-493 | every entry point of every contract is found again after the migration, reports slot V3, and that slot holds its old key |
| ContractState.RebuildState | ledger/helpers/src/state_translation_v8_to_v9.rs:464-492 | the rebuild loop gives the pointwise image of the operations for every iteration order |
| ContractState.TranslateStateIsTheOnlyImage | ledger/helpers/src/state_translation_v8_to_v9.rs:454-493 | the result is the only v9 contract with the same entry points and keys, the same committee in order and all Schnorr, and the same threshold, counter, data and balance |
| ContractState.TranslatedOperationSlot | ledger/helpers/src/state_translation_v8_to_v9.rs:425-433 | a translated operation reports slot V3, which holds its key if it had one, and one removal empties it |
| ContractState.ReportedSlotIsPopulated | ledger/helpers/src/lib.rs:469-482 | a removal aimed at the reported slot succeeds exactly when the operation has a key, and touches nothing else; with keys in both slots the new one is reported |
| ContractState.RemovalTakesOneKey | ledger/helpers/src/lib.rs:469-482 | a removal aimed at any slot succeeds exactly if that slot holds a key, and takes only that key |
| ContractState.DrainEmpties | ledger/helpers/src/lib.rs:474-482 | removing at the reported slot empties any operation in at most two removals |
| ContractState.BuildOperation | ledger/helpers/src/lib.rs:426-444 | building from a key file puts the key in the slot a maintenance update with that file would use, keeps the zkir, and fails in the same cases |
| ContractState.KeyFileAcceptedIff | ledger/helpers/src/lib.rs:452-467 | a key file is accepted exactly with a v6 or v7 tag and a well-formed body, which becomes the key; an unknown tag is reported as such, anything else is an I/O error |
| ContractState.TagDecidesSlot | ledger/helpers/src/lib.rs:452-467 | a v6 tag means slot V3 and a v7 tag slot V4, and a v6 file builds the very operation a migrated contract with that key has |
| ContractState.OnlyKeyIsReported | ledger/helpers/src/lib.rs:452-482 | an operation with one key reports the slot of that key, and one removal there empties it |
| Migration.Drive | ledger/src/host_api/migration_8_to_9.rs:127-145 | the loop yields the plain translation, after the first run that finishes, exactly when one of the first MAX_STEPS runs finishes; never with unequal tags, and always with equal ones if the state has at most MAX_STEPS distinct objects and every unfinished run stores one |
| Migration.AfterIsOneRun | ledger/src/host_api/migration_8_to_9.rs:127-145 | any number of budgeted runs is one run over all their attempts |
| Migration.KeyTagsNameTypes | ledger/src/lib.rs:219-230 | the tag of a state key of either version names the source or the target type of the ledger translation |
| Migration.Migrate | ledger/src/host_api/migration_8_to_9.rs:75-181 | a well-formed v9 key comes back unchanged at no cost; a key that does not decode and one that points at no v8 state give their errors; otherwise the call succeeds exactly when the translation finishes within 100,000 runs, so always for equal tags, a storing scheduler and at most that many distinct objects, and never for unequal tags; it reports 10 ms per run without 64-bit wrap, stores the plain translation, which keeps everything `LedgerIsKept` says, with an empty block, and returns its v9 key; a failure leaves the arena alone |
| Migration.ReportedCostIsTight | ledger/src/host_api/migration_8_to_9.rs:146-152 | the reported cost is at least the true cost and at most one budget above; the gap is what the last run left unspent |
| Migration.Converges | ledger/src/host_api/migration_8_to_9.rs:129-145 | if tags agree and every unfinished run stores something, the root is done after at most one run per distinct object |
| Migration.Storage.Alloc | ledger/src/host_api/migration_8_to_9.rs:162-165 | as every object sits under its own address, storing one disturbs nothing stored before unless another content has its address |
| HostReads.MigrationIsInvisible | ledger/src/host_api/ledger_9.rs:82-93 | for every v8 root, bridge amounts, unclaimed amounts, bridge minimum and zswap root read the same, errors included, through the old key before and the new key after the migration |
| HostReads.ReadsUseTheirOwnPart | ledger/src/versions/common/mod.rs:829-871 | two roots of either version answer a query alike on every host if and only if they agree on the part of the state it is about, entry by entry for the tries |
| HostReads.ReadAnswers | ledger/src/host_api/ledger_9.rs:457-529 | what every read answers for every key and arena: a bad address, a key that does not decode and a missing ledger in that order, then the amount at the decoded address, the bridge minimum or the root of the shielded pool |
| HostReads.OtherReadsAreUndisturbed | ledger/src/host_api/ledger_9.rs:457-529 | a read that worked gives the same answer in any larger arena |
| HostReads.MigrateTwice | ledger/src/host_api/migration_8_to_9.rs:94-100 | after a migration all reads through the new key answer as the old key did, every other read that worked is undisturbed, the new key is never served through the ledger-8 path, and migrating it again returns it at zero cost and changes nothing |
| JsonLaws.EncodedIffBytes | ledger/src/json.rs:16-21 | the values that are encoded are exactly the non-empty byte strings |
| JsonLaws.BytesBecomeText | ledger/src/json.rs:33-46 | a non-empty byte string becomes `0x` and two lower-case hex digits per byte, in order, high digit first |
| JsonLaws.WhatIsTransformed | ledger/src/json.rs:47-77 | other arrays keep length and order and have their items transformed, objects keep keys and order, and all other values stay |
| JsonLaws.KeysKeepTheirSecondHalf | ledger/src/json.rs:23-27 | for any two arrays of numbers a member `vk` of these two has its first half transformed and its second one kept |
| JsonLaws.OtherMembersAreTransformed | ledger/src/json.rs:70-71 | every other member has its value transformed |
| JsonLaws.EveryByteArrayIsEncoded | ledger/src/json.rs:30-77 | after one pass no byte array is left, except as second half of a verification key |
| JsonLaws.IdempotentIff | ledger/src/json.rs:30-77 | a second pass changes nothing if and only if no verification key has two non-empty byte halves |
| JsonLaws.OnePassBreaksDoubleKeys | ledger/src/json.rs:56-63 | one pass leaves no such key |
| JsonLaws.ThreePassesAreTwo | ledger/src/json.rs:30-77 | a third pass never changes anything |
| JsonLaws.SecondPassCounterexample | ledger/src/json.rs:56-63 | a concrete verification key that a second pass changes |
| JsonLaws.HexRoundTrip | ledger/src/json.rs:34-45 | the hex text of a byte array is lower-case hex and decodes to it |
| JsonLaws.UndoneIff | ledger/src/json.rs:30-77 | decoding hex strings back recovers the input if and only if it held no string of that form |
| JsonLaws.Injective | ledger/src/json.rs:30-77 | on inputs without such strings the transformer is injective; with them a byte array and the string that spells it collide (`JsonLaws.Collision`) |
| BeefyStakes.ComputeStakes | runtime/src/beefy.rs:122-151 | every validator gets stake 1, in order, whatever the committee; warned about are, in order, the validators of whom as many came before as there are seats for them |
| BeefyStakes.GreedyIsMaximal | runtime/src/beefy.rs:130-148 | the greedy search matches exactly the multiset intersection of validators and seats, each seat at most once |
| BeefyStakes.LeafIsInjective | runtime/src/beefy.rs:161-171 | 33 key bytes and 8 little-endian stake bytes determine key and stake |
| BeefyStakes.CommitmentBindsStakes | runtime/src/beefy.rs:153-179 | two different equally long lists with one commitment exhibit a collision: of the tree on their two lists of leaf hashes, or of the hash on their leaves at one position |
| BeefyStakes.Authorities.NextStakes | runtime/src/beefy.rs:43-71 | returns unit stakes; if the stored next commitment is 32 zero bytes the next set gets the following id, the number of validators and the root over their keys and stakes, otherwise it stays |
| BeefyStakes.Authorities.OnNewValidatorSet | runtime/src/beefy.rs:95-119 | whatever was stored and whatever the committees, each stored set has the id and the size of its validator set and the root over the hashes of each key followed by the stake 1 in eight bytes |
| BeefyStakes.Handover | runtime/src/beefy.rs:94-120 | if an announcement's current set is the previous one's next set, the stored current set is the previous stored next set, in id, length and commitment |
| BeefyStakes.HandoverAcrossAsks | runtime/src/beefy.rs:43-120 | across any requests the announced next set is the one that becomes current if and only if its commitment is not all zeros, or nobody asks, or every request computes an all-zero commitment and the last one the same id and length |
| BeefyStakes.AsksFromZero | runtime/src/beefy.rs:53-68 | from an all-zero commitment on, requests overwrite the next set one after the other until one computes another commitment, which ends it for good |
| BeefyStakes.AsksKeepNextIff | runtime/src/beefy.rs:53-68 | a run of requests leaves the stored next set alone exactly under that condition, and never touches the current set |
| BeefyStakes.NoZeroRootMeansZeroFree | runtime/src/beefy.rs:94-120 | if the tree gives no non-empty list of leaves the all-zero root, no set announced in any run has an all-zero commitment |
| BeefyStakes.AsksAreInvisible | runtime/src/beefy.rs:43-71 | once a next set is stored and no announced commitment is all zeros, any run leaves in storage what its announcements alone leave |
| BeefyStakes.HandoverAlwaysHolds | runtime/src/beefy.rs:43-120 | in every run without all-zero announced commitments, whatever the requests, what was announced as next is what becomes current, and in a chained run the two stored sets mirror the last two announcements at every point |
| BeefyStakes.HypotheticalZeroRootIsOverwritten | runtime/src/beefy.rs:53-68 | the condition is needed: with a hypothetical tree that gives the announced set the all-zero root, the first request that finds other validators overwrites it |
| BeefyStakes.ChainedRun | runtime/src/beefy.rs:94-120 | at every point of a chained run the current set is the one announced as next one announcement earlier, and the next set is the one last announced as next exactly when the requests since leave it alone |
| BeefyPayload.StakesDecodeIff | relay/src/justification.rs:38-40 | bytes are read as a list of stakes exactly if they start with its encoding |
| BeefyPayload.StakesLayout | node/src/payload.rs:121 | after the compact length, 41 bytes per stake: the key, then the amount in eight little-endian bytes |
| BeefyPayload.SetDecodesIff | relay/src/justification.rs:41-43 | bytes are read as an authority set exactly if they start with its encoding |
| BeefyPayload.SetLayout | node/src/payload.rs:122 | the id in eight bytes, the length in four, then the commitment |
| Scale.CompactDecodesIff | relay/src/justification.rs:38-40 | a compact length is read exactly if it is in its shortest form, with nothing taken from what follows |
| Scale.CompactLayout | node/src/payload.rs:121 | the sizes and values of the four forms of a length |
| Scale.LaterBytesWeighMore | runtime/src/beefy.rs:166 | integers are little-endian: a byte weighs 256 times the one before it |
| BeefyPayload.RelayReadsWhatNodePacked | node/src/payload.rs:100-133 | the relay unpacks exactly what the node packed; a payload packed without next stakes is refused for that reason |
| BeefyPayload.ProvidesExpected | node/src/payload.rs:100-133 | there is a payload exactly if there is a root in the digest or from the runtime, current stakes and their set, and a set for the next stakes if there are any; it is then the expected entries in the order cb, cs, mh, nb, ns, with the root of the digest first |
| BeefyPayload.UnpackIff | relay/src/justification.rs:35-58 | any payload is unpacked exactly if all four entries are there and well formed; otherwise the first that is not is named |
| BeefyPayload.GetRawIsFirst | relay/src/justification.rs:38-49 | reading an id finds its first entry |
| BeefyPayload.GetAllRawAppends | relay/src/cardano_encoding.rs:190-196 | reading all entries of an id finds every one of them, in order |
| BeefyPayload.PayloadCarriesMmrRoot | node/src/payload.rs:52-57 | the payload carries exactly one root, that of the digest if there is one and that of the runtime otherwise |
| BeefyPayload.SameLeafHashes | relay/src/authorities.rs:75-106 | relay and runtime hash the same leaves in the same order |
| BeefyPayload.RelayRootIsCommitment | relay/src/authorities.rs:44-54 | for any hash and tree the relay's root is the packed keyset commitment, under the packed id and over as many leaves as the set says; an empty list has no root |
| CardanoEncoding.SignersIncrease | relay/src/authorities.rs:126-132 | the collected indices are strictly increasing and are exactly the positions with a signature |
| CardanoEncoding.VotesAreSigners | relay/src/cardano_encoding.rs:202-223 | votes have strictly increasing indices, those of the validators who signed; each carries its validator's key and its signature without the last byte; the vote indices are the collected ones exactly when no signature stands beyond the validators |
| CardanoEncoding.I64RoundTrip | relay/src/cardano_encoding.rs:146-162 | the signed cast loses nothing, stays in 64 bits, and yields the id itself exactly below 2^63 |
| CardanoEncoding.NodeRoundTrip | relay/src/cardano_encoding.rs:244-251 | every recursive proof tree is read back from its encoding |
| CardanoEncoding.NodeLayout | relay/src/cardano_encoding.rs:244-251 | a leaf is its hash, a node the list of its children in order |
| CardanoEncoding.SignedRoundTrip | relay/src/cardano_encoding.rs:146-184 | every signed commitment is read back from its encoding |
| CardanoEncoding.RelayProofRoundTrip | relay/src/cardano_encoding.rs:54-65 | the whole relay proof is read back from its encoding |
| CardanoEncoding.RelayProofLayout | relay/src/cardano_encoding.rs:54-184 | every record of the encoded proof has tag 121 and its fields in the order of the format |
| CardanoEncoding.GenerateOutcome | relay/src/cardano_encoding.rs:37-51 | for any justification: unverified signatures, missing payload entries and an empty list of stakes give their errors in that order; otherwise the proof holds all roots of the payload, block, set, votes and the root over the packed stakes |
| CardanoEncoding.ProofMatchesCommitment | relay/src/cardano_encoding.rs:37-51 | for a payload packed from the signing validators, the signed commitment is the block's MMR root, number and set id, the proof's root is the packed commitment, it covers all validators, it is made for exactly the voters' leaves, and the leaf at each vote's index belongs to that vote's key |
| Subscriptions.RunKeepsInv | node/src/subscription_bounds.rs:81-127 | every interleaving keeps counter, gauge and rejection count in balance with guards and calls in flight |
| Subscriptions.NeverMoreThanMax | node/src/subscription_bounds.rs:81-127 | the counter is live guards plus acquisitions past their compare-exchange, never exceeds the limit, and neither it nor the gauge wraps |
| Subscriptions.QuietCountersAreExact | node/src/subscription_bounds.rs:90-126 | with no call in flight the counter and the gauge are the guards out, and the rejection count is the number of refusals |
| Subscriptions.RefusalsAreHonest | node/src/subscription_bounds.rs:83-94 | every refusal loaded exactly the limit, a value the counter really had at some point of the run |
| Subscriptions.AloneItDecides | node/src/subscription_bounds.rs:82-106 | a call left alone wins exactly when a slot is free and is refused exactly when none is |
| Subscriptions.LostRaceMeansProgress | node/src/subscription_bounds.rs:82-106 | between a load of the current value and an exchange that fails because the counter moved, another call exchanged successfully or dropped a guard |
| Subscriptions.LostRacesArePaidFor | node/src/subscription_bounds.rs:82-106 | lock-freedom: in every run a call with current loads has lost at most as many races as the others have made successful exchanges and drops |
| Subscriptions.Tracker.TryAcquire | node/src/subscription_bounds.rs:81-107 | amid any steps of other calls, stale loads and spurious failures, the call decides at one step of its own: it takes a slot free at that moment or is refused on a value the counter has had; with fresh loads it gets a guard exactly if a slot is free then, undisturbed exactly if one is free at the start, with exact counters |
| Subscriptions.Tracker.Drop | node/src/subscription_bounds.rs:120-127 | dropping a guard gives its slot back and lowers the gauge |
| GitPin.ParseIff | ledger/helpers/src/utils.rs:64-83 | a string parses to a pin exactly when it is a version without " (" followed by the print of that pin, its commit is forty hex digits of either case, and its ref, if any, is a tag or branch with a non-empty name free of ", " |
| GitPin.FormatPrintsPin | ledger/helpers/build.rs:69-82 | printing a git dependency gives the print of its first tag or branch and its commit |
| GitPin.PrintedForms | ledger/helpers/build.rs:73-81 | the three forms in full: a tag, a branch, and a commit alone |
| GitPin.RoundTripIff | ledger/helpers/src/utils.rs:64-83 | for every source locked to a full commit, the parser returns the printed ref and commit exactly when the ref's name is non-empty and free of ", " |
| GitPin.NameSurvivesIff | ledger/helpers/build.rs:73-81 | a tag or branch name survives printing and parsing exactly when it is non-empty and free of "#", "&" and ", " |
| GitPin.UnlockedHasNoPin | ledger/helpers/build.rs:73 | a git source without a locked commit is printed with the commit `unknown` and parses to no pin |
| GitPin.RegistryHasNoPin | ledger/helpers/build.rs:70-72 | a registry or path dependency is printed as its version, which parses to no pin |
| Keystore.MigrationKeystore.HasKeys | node/src/aura_to_babe_migration_keystore.rs:190-206 | true exactly when every requested key is present, BABE ones possibly as AURA keys |
| Keystore.MigrationKeystore.Insert | node/src/aura_to_babe_migration_keystore.rs:168-170 | reports what the wrapped keystore says; a refused insert changes nothing; an accepted one files the key, and ends the fallback exactly when it is an sr25519 BABE key that can be listed |
| Keystore.ListedIffSigns | node/src/aura_to_babe_migration_keystore.rs:47-86 | the sr25519 keys listed for a type are exactly those that can sign under it, while listing works, and each passes `has_keys` |
| Keystore.OnlyBabeFallsBack | node/src/aura_to_babe_migration_keystore.rs:47-206 | requests for any other key type never fall back |
| Keystore.FailedListingIsReported | node/src/aura_to_babe_migration_keystore.rs:172-188 | a failed listing is reported as such and no AURA keys are offered instead |
| Keystore.HasKeyPromisesSigning | node/src/aura_to_babe_migration_keystore.rs:190-206 | `has_keys` promises a signature except for a BABE request about a key filed under one of the two types only: as AURA once an sr25519 BABE key is listed, or as BABE while listing fails |
| Keystore.AcceptedButCannotSign | node/src/aura_to_babe_migration_keystore.rs:190-206 | both exceptions at concrete runs of inserts |
| Keystore.ListingsDisagreeIff | node/src/aura_to_babe_migration_keystore.rs:172-188 | `keys` and `sr25519_public_keys` fall back together unless there are keys filed as BABE and all are of another length than 32 bytes |
| Keystore.FallbackOverRuns | node/src/aura_to_babe_migration_keystore.rs:47-86 | over any run of inserts, accepted or refused, BABE listing and signing use the AURA keys exactly until the first accepted sr25519 BABE key that can be listed, and the BABE keys ever after |
| Keystore.HasKeyNeverStopsFallingBack | node/src/aura_to_babe_migration_keystore.rs:190-206 | an AURA key passes `has_keys` as a BABE key after any run of inserts, and signs as one exactly while the fallback lasts or if it is filed as BABE too |

## Left out

- The bodies of the ledger crates, the arena's persistence and flushing, the scheduler itself, Merkle proof
  construction, CBOR bytes and signature verification: outside this repository; they enter as inputs with the
  assumptions above.
- The cost of single attempts: the model takes what each `run` spent as given, because the cost model is not part
  of this repository.
- `get_contract_state`, `get_zswap_chain_state`, `get_ledger_parameters` and `get_ledger_state_root`: their answers
  are version-specific serialisations.
- The separate and unified storage modes of the host API: both call the same operation.
- `pallet_midnight`'s migration hook: it stores the returned key and caps the reported cost.
- Keystore: ed25519 and ECDSA operations and key generation are plain delegation.
- Startup, networking, RPC registration, metrics registration, logging and configuration.
