# Verified model of the ledger core

A Dafny model of the ledger's cryptographic encodings, money arithmetic, booking lifecycle, posting
rules and balance caches, with proofs about all of them. `dafny verify dfyconfig.toml` checks it.

| file | models |
|---|---|
| `Options`, `ByteCodes`, `Digests` | optional values; big-endian and length-prefixed framing; the nine hashed contents and the injectivity of their preimages |
| `Layouts`, `WireFormats` | a reader for every kind of preimage, taking its fields off in the documented order; what it reads of postings, attested entries and attestation rows |
| `Decimals`, `Amounts` | decimals as coefficient and exponent read as exact reals; the fixed-width amount code |
| `Merkle`, `MerkleProofs`, `MerkleLocate` | the RFC 6962 tree (section 2.1), inclusion proofs, localisation of differing leaves |
| `JournalDigest`, `Attestation` | the digest of a posting intent; batch and verdict digests, root hashes v1 to v3, the attestation chain |
| `Allocation`, `Sequences` | splitting an amount by weights; sums, permutations and in-place sorting |
| `Lifecycles`, `Bookings`, `BookingRuns` | lifecycle validation by breadth-first search; bookings as a store and as interleaved transactions |
| `BookingEvents`, `BookingCalls` | what rows and events say, read off the calls that made them; what every call is answered |
| `BookingReturns`, `BookingRetries`, `BookingRaces` | which calls may still apply later; what a repeated creation gets back; creations and larger transactions interleaved statement by statement, explained by runs of whole calls |
| `Freeform`, `Journals`, `Policies`, `Legs` | bounds on source and metadata; the sign rule and balanced journals; freeze, close and floor enforcement; the checks on exchange and capture legs |
| `DimCache`, `DimLookups` | the dimension cache as an object and as interleaved lookups; lookups that run on their own |
| `Checkpoints`, `RollupQueue`, `Rebuilds` | balance checkpoints as an object and as interleaved workers; rows given up on; when a rebuilt checkpoint lasts |

Conventions:

- SHA-256 is a parameter `sha` with 32-byte results. A binding theorem concludes "equal, or `Collides`", where
  `Collides` ranges over the finite sets of strings actually hashed on the two sides, never over all strings.
- The timestamp formatter is a parameter `fmt` that is injective on microseconds (`Faithful`). That the renderings of the
  instants used are short is asked of those instants only; `FormatterExists` shows that both can be met.
- Decimals keep their spelling, so equal values with different exponents stay different inputs. NUMERIC columns are reals.
- A transaction is one step where the code holds a lock for its whole length. Everywhere else each query, each
  locked read and each write is its own step and all interleavings are covered.

Six promises turned out not to hold on every input. Each is kept as the code has it, with the inputs that
break it and the exact condition under which it holds:

- `SplitLoopTerminatesIff`: the split loop returns exactly for sizes up to 2^62.
- `SharedTagOverlap`, `SharedTagOverlapAnySeqno`, `OverlappingClaimExists`: the v2 root and the discharge claim share the
  byte 0x11, although the allocation table at core/auth.go:186-197 gives each byte to one construction.
- `LookupExact`, `SecondReadExact`, `CommittedRowMissed`: a lookup can miss a row its caller could see, exactly when older
  listings are still to be installed: one if the cache lacks the key, two if it has it.
- `LockExact`, `RebuildExact`, `RebuildUndone`, `ResetReopens`: a rebuilt checkpoint stays right exactly when, at the
  moment pending rows are counted, it was right already, or no worker of that classification holds an unsafe copy and
  nobody can read the checkpoint before it is overwritten. Refusing pending rows is not enough: a worker may still hold
  a copy under a lapsed or re-dirtied claim, a worker that has marked its row may enqueue it again, and a row given up
  on may be reset between the count and the overwrite.
- `ComparedCallAppliesIff`, `CallReplayedThenApplied`, `ComparedKeyNeverSpent`: a transition answered by comparing states
  leaves no receipt. The same call may apply later exactly when the lifecycle leads from the requested status away and
  back; its key is never spent, because it can always still apply on another booking.
- `CreateRetryExact`, `NoteRefusesRetry`, `FractionRefusesRetry`: postgres/booking_store.go:79-80 promises the existing
  booking for the same key and payload. A creation repeated as it was gets it exactly when the metadata merged by the
  booking's transitions agrees with the creation's outside the observation keys and its expiry is a whole number of
  microseconds; otherwise it is refused.

Two smaller ones: `UnsizedLeafExact` (without a collision, inclusion proofs can be met by something other than the leaf
exactly for starting hashes of at most 64 bytes that are not 32, in trees of two or more leaves whose own strings do not
collide) and `LeafHashRootsConfuseSizes` (lists of ready-made leaf hashes can share a root through the same hashed strings
exactly when their sizes differ, an empty list only with a single leaf; by `EqualRootsShared` there is no other way short
of a collision).

The policy query also matches a row for (holder, any currency, classification), which the comment on the Go
function leaves out; the model follows the query.

## Model

| member | source | states |
|---|---|---|
| ByteCodes.PeelLP | core/auth.go:335-351 | a length-prefixed field followed by anything can be read back in one way only, for fields under 2^32 bytes |
| ByteCodes.PeelBE64 | core/auth.go:347-351 | eight big-endian bytes followed by anything determine the int64 and the rest |
| ByteCodes.BE64Bytes | core/auth.go:347-351 | the eight bytes written for an int64, one by one |
| ByteCodes.LPBytes | core/auth.go:335-345 | the four length bytes, one by one, and then the string |
| ByteCodes.LexExact | core/auth.go:319-333 | one string sorts before another exactly when they agree up to a place where the first ends or has the smaller byte |
| Decimals.MagnitudeExact | core/limits.go:135-199 | by value: a non-zero amount is storable exactly below 10^12 either way with at most 18 fractional digits, and computable with at most 36; a zero with an exponent below 12 |
| Amounts.ScaledSpec | core/auth.go:87-104 | scaling by 10^18 succeeds exactly when the value is a whole number of units, and yields that number |
| Amounts.FillTwosComplement | core/auth.go:111-131 | filling a fixed-width array gives the two's complement of every value that fits and refuses every other |
| Amounts.FromTwosComplementInverts | core/auth.go:111-131 | decoding the two's complement bytes gives the value back |
| Amounts.TwosComplementDigits | core/auth.go:111-131 | each byte is a base-256 digit of the value modulo 2^(8 size), the most significant first |
| Amounts.EncodeAmountSpec | core/auth.go:78-107 | encoding succeeds exactly for rescalable amounts of whole units, and a two's-complement decoder recovers value times 10^18 |
| Amounts.EncodeAmountFaithful | core/auth.go:78-107 | two encodable amounts have the same bytes if and only if they have the same value |
| Amounts.StorableEncodes | core/limits.go:168-199 | every amount that passes the magnitude check encodes without error |
| Amounts.PrecisionExact | postgres/precision.go:17-25 | truncating at some places leaves exactly the whole numbers of units at those places alone |
| Merkle.LargestPowerOfTwoLessThan | core/merkle.go:82-88 | the doubling loop finds the split point |
| Merkle.SplitUnique | core/merkle.go:79-88 | the split is the largest power of two below n and the only one in its range |
| Merkle.SplitLoopTerminatesIff | core/merkle.go:82-88 | with 64-bit wrap-around the loop ends if and only if n is at most 2^62 |
| Merkle.TreeHashOfRFC | core/merkle.go:48-88 | the equations of RFC 6962 section 2.1 with literal bytes: hash of nothing, of 0x00 and the payload, of 0x01, left and right part cut at the power of two |
| Merkle.LeafTreeHashOfRFC | core/merkle.go:181-195 | the same equations over leaf hashes |
| Merkle.MTHOfPayloads | core/merkle.go:181-195 | hashing payloads bottom-up over leaf hashes is the recursive tree hash of RFC 6962 section 2.1 |
| Merkle.SubtreeCaches | core/merkle.go:181-195 | every cached node of a built tree holds the tree hash and the size of the leaves below it |
| Merkle.BuildMerkleTreeFromLeafHashes | core/merkle.go:149-161 | refused exactly when some leaf hash is not 32 bytes; otherwise the cached root is the tree hash |
| Merkle.BuildMerkleTreeFromPayloads | core/merkle.go:168-177 | the cached root is the tree hash of the payloads, for every size including 0 |
| Merkle.RootBinding | core/merkle.go:65-195 | payload lists of any two lengths with one root are equal, or strings hashed for them collide |
| MerkleProofs.ComputeMerkleDirections | core/merkle.go:322-336 | the loop yields the path of an index from root to leaf |
| MerkleProofs.VerifyInclusion | core/merkle.go:281-313 | true exactly when the path has the right length and folds from the leaf to the root |
| MerkleProofs.FoldOfRFC | core/merkle.go:298-313 | each step hashes 0x01, the left and the right hash, the sibling on the side the turn leaves |
| MerkleProofs.TurnsOfRFC | core/merkle.go:322-336 | the turn is left below the cut and right from it on, and then the same in that part |
| MerkleProofs.GenerateInclusionProof | core/merkle.go:242-267 | refused exactly for an index out of range; otherwise the audit path of that index |
| MerkleProofs.InclusionComplete | core/merkle.go:242-267 | the generated path verifies and has at most ceil(log2 n) siblings |
| MerkleProofs.InclusionSound | core/merkle.go:281-313 | any proof that verifies a 32-byte hash at an index forces it to be that leaf, or hashed strings collide |
| MerkleProofs.PayloadInclusionSound | core/merkle.go:269-313 | the same from a payload: it is the payload at that index, or hashed strings collide |
| MerkleProofs.UnsizedLeafExact | core/merkle.go:281-313 | at every index of every tree whose own strings do not collide, something other than the leaf verifies without a collision if and only if there are two or more leaves and its length is at most 64 and not 32 |
| MerkleProofs.LongLeafCollides | core/merkle.go:281-313 | a starting hash above 64 bytes verifies only if hashed strings collide |
| MerkleProofs.ShortLeafVerifies | core/merkle.go:281-313 | for every tree, index and length up to 64 a starting hash verifies by the tree's own strings |
| MerkleProofs.LeafHashBinding | core/merkle.go:149-161 | equally long lists of leaf hashes with one root are equal, or hashed strings collide |
| MerkleProofs.LeafHashRootsConfuseSizes | core/merkle.go:149-161 | different lists of two sizes can share a root through the same strings if and only if the sizes differ, an empty list only with one leaf |
| MerkleProofs.SharedRoots | core/merkle.go:149-161 | lists that share their hashed strings have one root |
| MerkleProofs.EqualRootsShared | core/merkle.go:149-161 | lists of any sizes, empty ones included, with one root share their hashed strings, or hashed strings collide |
| MerkleProofs.EmptyAgainstMany | core/merkle.go:149-161 | the empty tree and one of two or more leaves share a root only through a collision |
| MerkleLocate.EqualSizesShareTopology | core/merkle.go:360-386 | trees of one size have one shape, so the walk never meets a leaf opposite an inner node |
| MerkleLocate.LocateMismatches | core/merkle.go:360-386 | refused exactly for different sizes; indices ascend without repeats, all differ, none is missed unless hashed strings collide, and at most 1 + 2k ceil(log2 n) pairs are compared |
| MerkleLocate.MissedMeansCollision | core/merkle.go:371-386 | a differing leaf the walk does not report gives a collision of two hashed node strings |
| MerkleLocate.VisitsBound | core/merkle.go:371-386 | pairs compared are bounded by the differing leaves times the depth |
| Digests.EncodeInjective | core/attestation.go:120-126 | equal preimages across all nine kinds of content mean equal contents |
| Digests.SharedTagSeparates | core/reservation_auth.go:76-76 | a v2 root below 2^32 never has the preimage of a discharge claim with a non-empty uid |
| Digests.SharedTagOverlap | core/reservation_auth.go:141-158 | a discharge claim has the preimage of such a v2 root if and only if its uid is empty and it is 113 bytes long |
| Digests.SharedTagOverlapAnySeqno | core/attestation.go:272-293 | with unbounded sequence numbers the overlap is exactly the claims of 113 bytes |
| Digests.OverlappingClaimExists | core/reservation_auth.go:141-158 | such claims exist for every operation and instant of at most 80 bytes together |
| Digests.FormatterExists | core/auth.go:172-174 | a faithful formatter exists that renders every int64 instant in eight bytes |
| Layouts.JournalReads | core/auth.go:287-317 | a posting's preimage reads 0x10, type, key, actor, source, time, reversal link, count, entries in this order, and ends there |
| Layouts.BatchReads | core/attestation.go:171-222 | a batch preimage reads 0x02, the count and the rows field by field, and ends there |
| Layouts.VerdictsRead | core/attestation.go:366-381 | a verdict preimage reads 0x13, the count and each id with its verdict, and ends there |
| Layouts.RootV1Reads | core/attestation.go:241-258 | the v1 preimage reads 0x03, sequence number, previous root, batch digest, count |
| Layouts.RootV2Reads | core/attestation.go:272-293 | the v2 preimage reads 0x11, sequence number, previous root, batch digest, Merkle root, count |
| Layouts.RootV3Reads | core/attestation.go:406-431 | the v3 preimage reads 0x12, sequence number, previous root, batch digest, Merkle root, verdict digest, count |
| Layouts.ClaimReads | core/reservation_auth.go:141-158 | a discharge preimage reads 0x11, uid, operation, key, time, amount, and ends there |
| Layouts.TreeStringsAreContents | core/merkle.go:65-77 | the strings the tree hashes are the leaf and node contents |
| JournalDigest.CanonicalJournalDigest | core/auth.go:287-317 | fails exactly when an amount does not encode; otherwise hashes the fields and the entries in sorted order |
| JournalDigest.EntryOrder | core/auth.go:319-333 | the comparison is a weak order, so every sort may use it |
| JournalDigest.OrderExact | core/auth.go:319-333 | the first of holder, currency, classification, type and amount that differs decides |
| JournalDigest.TiesEncodeAlike | core/auth.go:319-333 | entries the sort cannot tell apart have the same bytes |
| JournalDigest.SortedOnce | core/auth.go:298-300 | two sorted arrangements of one multiset of entries are the same list |
| JournalDigest.JournalPreimageCanonical | core/auth.go:172-351 | preimages are equal if and only if the intents agree: fields, microsecond, and entries as multisets with amounts by value |
| JournalDigest.JournalDigestBinds | core/auth.go:287-317 | equal digests mean equal intents, or the two hashed strings collide |
| WireFormats.PostingReads | core/auth.go:287-317 | what is hashed for a posting reads back as its own fields, its microsecond and its sorted entries with amounts in units |
| WireFormats.AttestedEntryReads | core/attestation.go:207-222 | an entry's payload reads back as its five ids, type, amount in units and microsecond |
| WireFormats.BatchOfEntriesReads | core/attestation.go:171-186 | what is hashed for a batch reads back as the entries in order |
| WireFormats.RootRowReads | service/attest_verify.go:455-469 | what a row's hash is taken over reads back as the row's own columns, by version |
| WireFormats.RootRowRefused | service/attest_verify.go:455-469 | a row is refused exactly when one of the columns its version needs is not 32 bytes |
| Attestation.CanonicalBatchDigest | core/attestation.go:171-186 | fails exactly when an amount does not encode; otherwise hashes count and rows |
| Attestation.EncodedEntryIsRow | core/attestation.go:207-222 | an entry's encoding is the row content with its amount in units and its time in microseconds |
| Attestation.BuildMerkleTree | core/merkle.go:116-132 | refused exactly when an amount does not encode; otherwise the tree over the entries' encodings |
| Attestation.AuthVerdictDigest | core/attestation.go:366-381 | refused exactly when counts differ; otherwise hashes each entry id with its verdict |
| Attestation.AttestationRootHash | core/attestation.go:241-258 | refused exactly for inputs that are not 32 bytes; otherwise hashes the v1 content |
| Attestation.AttestationRootHashV2 | core/attestation.go:272-293 | the same for v2, with the Merkle root |
| Attestation.AttestationRootHashV3 | core/attestation.go:406-431 | the same for v3, with the verdict digest |
| Attestation.CanonicalReservationDischargeDigest | core/reservation_auth.go:141-158 | fails exactly when the amount does not encode; otherwise hashes the claim |
| Attestation.RootContentInjective | service/attest_verify.go:455-469 | rows of any versions with one root preimage agree in every column but the hash |
| Attestation.LinkBinding | core/attestation.go:171-293 | two accepted rows with one root hash have the same columns, entries and verdicts, or hashed strings collide |
| Attestation.HistoryBinding | core/attestation.go:241-431 | two accepted chains with one head, mixing versions freely, are the same history at every sequence number; or strings collide, or one chain is empty and a hashed string has the all-zero hash |
| Attestation.ChainExtends | service/attestation.go:222-290 | any batch in any version, attested on top of an accepted chain, gives an accepted chain |
| Attestation.ChainsExist | service/attestation.go:222-290 | every list of batches, in any mix of versions, has an accepted chain that covers exactly them, each in its version |
| Attestation.AttestedEntryIncluded | core/merkle.go:269-313 | a proof that verifies against an accepted row's Merkle root shows the entry, every column the same, or hashed strings collide |
| Allocation.Allocate | core/money.go:138-227 | refused exactly when an input check fails; otherwise a largest-remainder split of the total |
| Allocation.AllocationConserves | core/money.go:201-227 | the shares add up to exactly the total |
| Allocation.AllocationProportional | core/money.go:182-199 | each share is its exact proportion rounded down or up by less than a unit; zero weights get zero |
| Allocation.AllocationOrdered | core/money.go:206-216 | a larger weight, or an earlier equal one, never gets the smaller share |
| Allocation.AllocationByRemainder | core/money.go:182-227 | whenever one share is rounded up and another that is not whole is rounded down, the first has the larger fraction, or the same one and the earlier position |
| Allocation.AllocationOfNegation | core/money.go:169-227 | negating the total negates every share |
| Allocation.LeftoverSmall | core/money.go:201-204 | what the floors leave over is below the number of weights and at most the number of positive remainders |
| Lifecycles.Validate | core/types.go:28-98 | accepts exactly the well-formed lifecycles |
| Lifecycles.WellFormedExact | core/types.go:28-98 | well-formed, spelled out on the map of transitions |
| Lifecycles.Visit | core/types.go:71-85 | the breadth-first search ends and its visited set is the set of reachable statuses |
| Lifecycles.CanTransition | core/types.go:101-108 | true exactly for the lifecycle's edges |
| Bookings.BookingStore.Transition | postgres/booking_store.go:233-394 | one transition is refused, replayed or applied as decided, a channel reference taken by another booking and a falling settled amount being refused, and only an applied one changes the tables |
| Bookings.BookingStore.CreateBooking | postgres/booking_store.go:81-182 | creation by idempotency key: a new booking with its expiry floored to microseconds, the old one, or refused |
| BookingRuns.BookingHistory | postgres/booking_store.go:233-394 | after any interleaved run each booking's events are a lifecycle walk ending at its status, none leaves a terminal status or stays in place after the first, and the settled amount is the last non-zero one |
| BookingRuns.RunKeeps | postgres/booking_store.go:233-447 | every step of every interleaving keeps tables, receipts and in-flight decisions consistent |
| BookingRuns.KeysApplyOnce | postgres/booking_store.go:389-447 | no key ever produces two events, on one booking or across bookings |
| BookingRuns.ReplaySafe | postgres/booking_store.go:259-269 | once a key has applied, every later call with it gets that event back exactly when it is valid and matches the receipt, is refused otherwise, and nothing with that key commits again |
| BookingRuns.LockExcludes | postgres/booking_store.go:248-257 | until the transition holding a booking's lock ends, nothing takes its place and nobody changes the booking |
| BookingEvents.RunTellsAll | postgres/booking_store.go:330-393 | after any run every booking row and every event carry exactly the amount, settled amount, reference, metadata, actor and source that the creation step and the logged calls say |
| BookingEvents.MergedIsLatest | postgres/booking_store.go:330-338 | a merged metadata key has the value of the last call that carried it |
| BookingCalls.ValidCreateExact | core/booking.go:46-69 | a creation is valid exactly with a positive amount below 10^12 of at most 18 fractional digits and every field given |
| BookingCalls.ValidTransitionExact | core/booking.go:125-150 | the same for a transition, whose amount may be zero |
| BookingCalls.PrecisionOkExact | postgres/precision.go:17-25 | the check passes exactly for a known currency and a whole number of its units |
| BookingCalls.CreateAnswer | postgres/idempotency_match.go:103-146 | after any run, a creation with a used key returns the booking exactly when every field agrees with what that creation's have become, the observer's keys aside; a diverging one is refused |
| BookingCalls.FreshCreation | postgres/booking_store.go:103-182 | a creation with a new key makes a booking exactly when it is valid, has a well-formed lifecycle and a whole amount |
| BookingCalls.AnsweredInPlaceExact | postgres/booking_store.go:449-463 | from any reachable world, a call on a booking already there gets its last event exactly when reference and amount are left out or equal, and is refused otherwise |
| BookingCalls.ProceedsExact | postgres/booking_store.go:271-358 | otherwise it proceeds exactly when the lifecycle lists the move, the reference is free and the settled amount does not fall |
| BookingRuns.RetryReturnsEvent | postgres/booking_store.go:259-269 | a call that applied a transition, repeated as it was after any later run, gets the very event it produced |
| BookingRuns.RunKeepsRefs | postgres/sql/migrations/001_baseline.up.sql:582-587 | through every interleaving no two bookings of one channel come to share a reference |
| BookingRuns.RunGrowsSettled | postgres/sql/migrations/027_unlink_event_journal.up.sql:117-131 | through every interleaving no booking's settled amount ever falls |
| BookingReturns.ComparedCallAppliesIff | postgres/booking_store.go:449-463 | from any reachable world, a call answered by comparing states applies, repeated as it was, in some later run if and only if the lifecycle leads from the requested status away and back |
| BookingReturns.CallReplayedThenApplied | postgres/booking_store.go:233-463 | a run in which one call is answered by comparison and the same call later applies a transition |
| BookingReturns.ComparedKeyNeverSpent | postgres/booking_store.go:449-463 | from any reachable world, some later run applies the key of a call answered by comparing states, if need be on another booking |
| BookingRuns.CreateReplays | postgres/booking_store.go:81-182 | after any run a creation key that made a booking never makes another: every call with it returns that booking or is refused, and changes nothing |
| BookingRetries.CreateRetryExact | postgres/idempotency_match.go:103-145 | a creation that made a booking, repeated as it was after any run, returns it if and only if the metadata merged by the booking's transitions agrees outside the observation keys and the expiry is whole microseconds; otherwise it is refused |
| BookingRetries.NoteRefusesRetry | postgres/booking_store.go:78-182 | a run of one creation and one transition carrying a note, after which the creation repeated is refused |
| BookingRetries.FractionRefusesRetry | postgres/idempotency_match.go:128-128 | a creation whose expiry has a fraction of a microsecond is refused when repeated at once |
| BookingRaces.RacesAreRuns | postgres/booking_store.go:67-232 | with the key check and the insert of creations as separate statements, and transitions joined into larger transactions, every interleaving has a run of whole calls with the same tables, locks and answers |
| Journals.SignedAmount | core/account_policy.go:144-169 | fails exactly for an unknown side; otherwise the amount on the normal side and its negation on the other |
| Journals.Delta | core/account_policy.go:178-196 | fails exactly for an unknown side or an oversized sum; otherwise debits less credits on a debit-normal side and the reverse on a credit-normal one |
| Journals.DeltaIsEntrySum | core/account_policy.go:178-196 | the delta of bucketed sums is the entry-by-entry sum of signed amounts |
| Journals.BalanceBySides | core/account_policy.go:112-156 | a debit-normal balance is the dimension's debits less its credits, a credit-normal one the reverse |
| Journals.Totals | core/journal.go:112-124 | the two running sums are the debit and the credit total |
| Journals.TotalsByCurrency | core/journal.go:131-144 | the map holds exactly the currencies used, with their totals |
| Freeform.ValidateFreeformFields | core/limits.go:44-65 | accepts exactly sources and metadata within every bound, the common one included |
| Freeform.FreeformExact | core/limits.go:27-65 | those bounds in numbers |
| Journals.Validate | core/journal.go:146-205 | accepts exactly the postings with a key, bounded fields, accepted quotes, a timely date and valid entries that balance in every currency |
| Journals.ValidEntryExact | core/journal.go:162-184 | an entry passes exactly with an amount above zero and below 10^12 of at most 18 fractional digits, a known side and every field given |
| Journals.ValidJournalDigests | core/journal.go:162-184 | digesting a posting whose entries passed validation never fails |
| Journals.AccountingEquation | core/journal.go:146-205 | after any run of accepted journals, debit-normal and credit-normal balances of every currency cancel |
| Policies.EffectiveIsFirst | postgres/sql/queries/account_policies.sql:47-56 | the policy resolved is the first matching row in the query's order, and none exactly when no row matches |
| Policies.GatherDeltas | postgres/account_policy_enforce.go:66-105 | the loop nets every dimension and every frozen policy row per currency, or stops at a real offence |
| Policies.EnforceAccountPolicies | postgres/account_policy_enforce.go:65-155 | accepts exactly when no line closes, drains or breaks anything; each refusal names one that does |
| Policies.AcceptanceIgnoresOrder | postgres/account_policy_enforce.go:65-155 | acceptance does not depend on the order of the entries |
| Policies.RunKeepsPolicies | postgres/account_policy_enforce.go:93-155 | over any run closed slots are never touched and touched slots stay at or above their floors |
| Policies.RunKeepsFrozen | postgres/account_policy_enforce.go:100-115 | over any run what a frozen row governs in one currency never goes down |
| Policies.AcceptsByRows | postgres/account_policy_enforce.go:65-155 | told from the rows: accepted exactly when sides are known, nothing under a closed row is touched, nothing under a frozen row loses in any currency and no enforced floor is broken |
| Policies.RowsHoldOverRuns | postgres/account_policy_enforce.go:65-155 | through any run a closed row's slots stay untouched, touched slots keep their floors, and what a frozen row rules never falls |
| Policies.NetIsSumOfBalances | postgres/account_policy_enforce.go:45-59 | that quantity is the sum of the balances of the slots the row governs |
| Legs.HolderLegNet | exchange.go:345-377 | error exactly for an unreadable entry met first; clean exactly when the leg is confined and every non-available classification nets to zero; then the net is the change of the available total |
| Legs.MirrorOfInt64 | core/types.go:146-148 | the counterpart is the int64 that adds up with the holder to zero modulo 2^64, and is an involution |
| Legs.CheckLegs | exchange.go:257-285 | accepts exactly when every leg is clean and moves the wanted amount |
| Legs.ExchangeMovesExactly | exchange.go:252-285 | on any ledger an accepted exchange changes the available totals by exactly minus quantity and plus target, and nothing else outside the mirror |
| Legs.ValidateCaptureEntries | capture.go:152-175 | accepts exactly the confined entry lists on available classifications with net minus amount |
| Legs.CaptureIsAvailableOnlyLeg | capture.go:152-175 | those are exactly the legs accepted with net minus amount that touch only available classifications |
| DimCache.Cache.Refresh | postgres/dims.go:131-169 | whatever the cache held is replaced by exactly the listed rows, under both keys |
| DimCache.Cache.Lookup | postgres/dims.go:177-200 | a hit, in the cache first and then in the one behind it, changes nothing; after a miss the answer is found exactly when the listing has the key |
| DimCache.RunKeepsCaches | postgres/dims.go:79-200 | over every interleaving the pool-wide cache holds only committed rows and a view only committed rows and its own inserts |
| DimCache.HitIsTheRow | postgres/dims.go:177-200 | a hit is the one visible row of that key |
| DimCache.LookupExact | postgres/dims.go:177-200 | before the call, for every key the caller can see: it can never miss if and only if no older listing is outstanding on the cache, or the key is there and at most one is, or the pool-wide cache behind a view keeps it |
| DimCache.SecondReadExact | postgres/dims.go:177-187 | after installing, a lookup can never miss if and only if the key is kept: present and with no older listing still to be installed |
| DimCache.SequentialMissIsHonest | postgres/dims.go:177-187 | used by one lookup at a time, a cache never misses a key its listing had |
| DimCache.CommittedRowMissed | postgres/dims.go:131-187 | for every key, a run in which a lookup started after the commit misses the committed row |
| DimLookups.UndisturbedLookup | postgres/dims.go:131-200 | from any reachable state a lookup that runs on its own ends with the row its caller can see, committed or of its own transaction, and with nothing exactly when there is none |
| DimLookups.OnlyCommitsPublish | postgres/dims.go:79-122 | a run without a commit makes no row visible to others |
| Checkpoints.RunKeepsBalance | service/rollup.go:198-385 | from a good state, through every interleaving, checkpoint plus later entries equals the recompute from entry 0 |
| Checkpoints.RunForgetsNothing | postgres/sql/queries/checkpoints.sql:131-188 | through every interleaving, entries a checkpoint does not cover yet have a queue row, so nothing posted during processing is lost |
| Checkpoints.RunFromStart | service/rollup.go:198-385 | from an empty ledger every run keeps every balance equal to its recompute and every uncovered entry queued |
| RollupQueue.GivenUpAfterTen | postgres/sql/queries/checkpoints.sql:143-204 | every failed round counts; a row can be claimed through ten failures and holds up no rebuild afterwards |
| RollupQueue.GivenUpStays | postgres/sql/queries/checkpoints.sql:131-217 | a row given up on stays queued and unclaimed through every run that does not reset it |
| RollupQueue.StrangerFails | postgres/sql/queries/checkpoints.sql:175-188 | a worker that has lost its claim changes nothing in the queue by failing |
| Rebuilds.RebuildExact | postgres/checkpoint_integrity_store.go:150-259 | a rebuild over any checkpoint is right at once, and for good if and only if no worker holds an unsound copy the upsert lets through |
| Rebuilds.LockExact | postgres/checkpoint_integrity_store.go:150-259 | from the count of pending rows on, through every window, overwrite and later run, the rebuild lasts if and only if the balance was good already, or every copy is safe and nobody can read before the overwrite |
| Rebuilds.RebuildLastsUnderClaims | postgres/sql/queries/integrity_checkpoint.sql:34-58 | while workers touch a classification only under a pending row, an accepted rebuild of an unsound checkpoint lasts if and only if no row of it is left in the queue |
| Rebuilds.ResetReopens | postgres/sql/queries/checkpoints.sql:206-217 | the run in which a row given up on is reset after the count, claimed and read: every copy is held under a pending row throughout, the rebuild gives the right balance, and a post later it is undone |
| Rebuilds.RebuildUndone | postgres/sql/queries/checkpoints.sql:143-173 | a run with a lapsed claim in which a completed rebuild is undone |
| Checkpoints.UpsertKeepsGood | postgres/sql/queries/checkpoints.sql:6-18 | the monotonic upsert never replaces a sound checkpoint by an unsound one |
| Checkpoints.SumKeepsGood | postgres/rollup_adapter.go:204-275 | summing since a sound copy up to the pair's last id gives a sound value |
| Checkpoints.CheckpointStore.RecomputeBalance | postgres/checkpoint_integrity_store.go:60-83 | the sum of all entries of the classification, whatever the checkpoint says |
| Checkpoints.CheckpointStore.GetBalance | postgres/ledger_store.go:1478-1541 | the stored checkpoint plus the entries after its watermark |
| Checkpoints.CheckpointStore.RebuildCheckpoint | postgres/checkpoint_integrity_store.go:150-259 | refused exactly while a row is pending; otherwise recompute, overwrite and audit row with the drift, after which the balance is the recompute |

## Left out

- MerkleProofs.VerifyInclusion: for an index in range takes tree sizes up to 2^62 only, because above that the source's loop never returns.
- MerkleProofs.ComputeMerkleDirections: takes tree sizes up to 2^62 only, for the same reason.
- Merkle.LargestPowerOfTwoLessThan: takes sizes up to 2^62 only, for the same reason.
- Journals.Validate: the verdict on conversion quotes in the metadata and the clock are inputs; strings are counted in characters.
- Policies.EnforceAccountPolicies: balances come in as a function, and the per-call memo of resolved policies is not kept, because resolution is a pure function of fixed policies.
- Policies.RunKeepsPolicies: policies stay fixed during a run; changing them is not modelled.
- JournalDigest.CanonicalJournalDigest: the sort is an in-place insertion sort; the result does not depend on the algorithm.
- DimCache.Cache.Refresh: the six maps are two keyed by table.
- DimCache.RunKeepsCaches: transactions see what is committed at each statement; repeatable-read readers and savepoints are not modelled.
- Checkpoints.RunKeepsBalance: entries carry signed values, one (holder, currency) pair at a time; time is not modelled, so any claim may lapse at any moment.
- Bookings.BookingStore.Transition: event uids, timestamps and the unique index on the deposit identity in the metadata are not modelled; a failed commit is an abort.
- Bookings.BookingStore.CreateBooking: the same index is not modelled.
- BookingReturns.ComparedCallAppliesIff: nor is it here, so a call whose metadata names the deposit of another booking counts as any other.
- BookingRaces.RacesAreRuns: creations joined into a larger transaction are not modelled; a transaction's writes appear when it commits.
- SHA-256 and signatures: parameters or absent, with no hardness claim.
- SQL text, connection pools, advisory-lock mechanics and error codes: each query is the step its caller relies on.
- Reservations, templates, event delivery, chain cursors, platform balances, reconciliation and period close.
- Rounding modes, currency conversion and the JSON codecs of rates and quotes, which are thin over their libraries.
- Plain input validators, HTTP, webhooks, metrics, tracing, presets and the user interface.
