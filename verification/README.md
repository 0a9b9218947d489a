# The crank's off-chain engine, modelled in Dafny

The `crank/` service settles, winds down and sweeps the vaults of an options protocol. This project
models the parts of it that carry state or arithmetic and proves what they are for. The loops that
update state are methods with invariants and the objects are classes with fields; each is proved against
a function of its inputs or its old state, and the properties below are proved about that function, for
all inputs and all runs. `dafny verify dfyconfig.toml` checks the whole project.

| file | what it models |
|---|---|
| `WindDown.dfy` | the post-void merge and the sequential payouts of one vault, with their rounding drift |
| `Reclaim.dfy`, `ReclaimSweep.dfy` | the two-phase void/reclaim protocol, stopped and resumed anywhere, and the sweep around it |
| `Ed25519SelfPack.dfy`, `Ed25519Decode.dfy` | the N-signature precompile payload: packer into a buffer, decoder, round trip |
| `PhantomShift.dfy` | the audit of those offsets in a whole transaction, before and after an insertion |
| `QuoteCapture.dfy` | the capture hook as enter/call/exit steps, and the swap of the packed instruction |
| `SettlePlan.dfy`, `SettleRun.dfy` | planning, batching and running the settle fan-out while others settle the same vaults |
| `SettleDrain.dfy` | how a backlog drains over the ticks, with and without vaults that never settle |
| `FinalizeCache.dfy`, `FinalizeSweep.dfy` | the disk-backed finalize cache and the sweep that fills it, over crashes |
| `LivenessProbe.dfy` | the recursive split that isolates unknown feed ids |
| `RateLimiter.dfy` | the self-pruning per-IP limiter against one that never prunes |
| `TokenIdentity.dfy`, `TokenResolver.dfy` | the bounded TTL cache against an unbounded map, and its use by overlapping requests |
| `AccountCache.dfy` | the miss-or-age account cache, with overlapping asynchronous gets |
| `HermesBackoff.dfy` | the adaptive delay: the helper and the settle loop's inline copy |
| `Prelude.dfy`, `Arith.dfy`, `StableSort.dfy`, `JsMap.dfy`, `JsString.dfy` | shared vocabulary: integer division, sums, stable sorting, insertion-ordered maps, trimming |

## What turned out otherwise

Where the code does less than its documentation or a first reading suggests, the model keeps the code,
shows the failing inputs, and proves exactly when the expected property holds.

- A payload of more than 255 signatures is packed without complaint and its count byte wraps
  (`crank/ed25519SelfPack.ts:164`). Decoding is complete if and only if there are at most 255;
  256 to 595 are accepted silently.
- A prepended instruction does not always break the packed offsets: the shifted instruction still
  passes if and only if whatever slid into its old place is long enough.
- `sendBatch` ignores what `confirmTransaction` reports (`crank/settleVaultFanout.ts:329`), so a vault
  can be counted settled that nobody settled: exactly when the error value of its own confirmation is
  dropped and nobody else settles it. No other vault's guarantee depends on it.
- A market whose cleaned name is empty passes the plan but is skipped by the run
  (`crank/settleVaultFanout.ts:162`, `364`): its vaults are never sent and stay in the backlog unless
  somebody else settles them. They hold up the others for good if and only if a full tick's worth of
  them sorts before the last vault with a name, and for every ceiling there is a board where they do.
- If the pool holds shares but no collateral, the merge gives the pot one share per unit
  (`crank/_probe_conservation_baseline.ts:73`) and the worthless pool shares then draw from it. With
  collateral in the pool the merge is the most generous one that dilutes nobody.
- Cleaning an asset name twice may change it again; once is enough if and only if the result does not
  end in a NUL.
- The reclaim sweep skips voided vaults (`crank/reclaimUnsettled.ts:284`): if the void lands and its
  confirmation throws, no later tick pays anybody. On up-to-date lists a vault gets one chance: it is
  untouched, or exactly as the one run left it that voided it, and its writers are all paid if and only
  if that run got through its whole listing. Resumption belongs to `reclaimVault` alone.
- The same sweep isolates a crash inside `reclaimVault` per candidate, but reads the vault's balance
  before its try block (`crank/reclaimUnsettled.ts:317-320`): if that read throws, the vaults behind are
  not looked at. A turn that pays writers and then throws is reported as an error only.
- "Empty scan" means empty only as far as the scans succeeded: a mint whose holder scan failed is left
  out of the report (`crank/autoFinalize.ts:323-328`). The sweep could tell: the report is right whatever
  the mints hold if and only if it made as many calls as it saw mints.
- The finalize cache's cap can make a crashed process suppress a vault that an uncrashed one has
  turned away. A run of 100,002 steps shows it, and it takes a set of more than 100,000 vaults: up to
  that, and only up to that, every run is conservative.
- Two capture scopes that overlap without nesting leave a stale hook installed.
- The limiter admits at most 2·max - 1 requests per interval for a positive maximum, and that is
  reached; for a maximum of zero or less it still admits one request per window.
- Storing over a present key of the identity cache does not refresh its place, so "LRU"
  (`crank/tokenIdentity.ts:67-69`) means the order of insertions and live lookups.
- A fetch of the account cache that was under way before an invalidation undoes it when it lands
  (`crank/accountCache.ts:88-91`): the invalidation holds, as long as no new get begins, if and only if
  nothing was under way. And the last fetch to land wins: the list in place never gets older if and only
  if the fetches under way were all begun at one time, none before that list.
- Nothing checks that the configured backoff ceiling is not below the base; if it is, a rate limit
  shortens the delay below its floor.
- Comments speak of five vaults per transaction (`crank/settleVaultFanout.ts:67`, `336`); the code
  batches four, and so does the model.

## Model

| member | source | states |
|---|---|---|
| `WindDown.PayBook` | crank/_probe_conservation_baseline.ts:72-114 | The merge and both payment loops throw exactly when a backer with equivalent shares meets a till that counts none; on a solvent book they never throw; every payout and the final till are those of paying the whole book in order; and the writers paid are those that hold shares, in the order they were read, each its draw and what its premium comes to after debt and earlier claims |
| `WindDown.PayWriters` | crank/_probe_conservation_baseline.ts:83-99 | One entry per writer with shares, in order, each with its collateral draw and premium, and the till they leave |
| `WindDown.PayBackers` | crank/_probe_conservation_baseline.ts:101-113 | One entry per backer that is not skipped; it stops at the first one that would divide by zero and at no other |
| `WindDown.DrawBounds` | crank/_probe_conservation_baseline.ts:93-95 | A draw is never negative and never exceeds the till, and whoever holds all the shares left takes all the collateral left |
| `WindDown.RunBounds` | crank/_probe_conservation_baseline.ts:86-113 | After k payouts 0 <= crRun*ts0 - cr0*tsRun <= k*ts0, nothing is negative, and payouts plus rest equal the first till |
| `WindDown.PayeeBounds` | crank/_probe_conservation_baseline.ts:86-113 | A payee with k earlier payees gets at least its floored share of the first till and at most k units more |
| `WindDown.BoundIsTight` | crank/_probe_conservation_baseline.ts:86-113 | For every k some book makes its last payee collect exactly k extra units |
| `WindDown.PlaceIndependence` | crank/_probe_conservation_baseline.ts:86-113 | Between two orders a payee's amount moves by no more than the number of payees before it |
| `WindDown.OrderIndependence` | crank/_probe_conservation_baseline.ts:86-113 | Any two payment orders of one book differ by less than the number of payees, for each payee |
| `WindDown.BackerSharesFit` | crank/_probe_conservation_baseline.ts:73-107 | The floored equivalent shares of backers whose commitments fit the pot fit the equivalent total |
| `WindDown.SolventNeverDivides0` | crank/_probe_conservation_baseline.ts:106-109 | A solvent book never makes a backer divide by zero |
| `WindDown.Conservation` | crank/_probe_conservation_baseline.ts:72-114 | Every till on the way is sound, no payout exceeds it, payouts plus dust equal tc + swept - e, and a payee with all the shares left leaves no dust |
| `WindDown.MergeFairness` | crank/_probe_conservation_baseline.ts:72-75 | For all inputs, tc = 0 included: the merge never dilutes a pool share and never credits the pot with more than it brought |
| `WindDown.MergeIsMostGenerous` | crank/_probe_conservation_baseline.ts:73-75 | And it is the most generous fair merge: a number of shares leaves every pool share worth what it was if and only if it is at most what the pot gets |
| `WindDown.MergeWorth` | crank/_probe_conservation_baseline.ts:73-75 | What the pot is worth after the merge, as an equation: what it brought less the remainder of one division, or, when the pool holds shares but no collateral, less what those shares take of it |
| `WindDown.PoolWriterNeverDiluted` | crank/_probe_conservation_baseline.ts:72-99 | Through the pool loop of any solvent vault: a pool writer gets at least its floored share of the pool as it stood before the pot came in, also where equivalents exceed the collateral |
| `WindDown.PotNeverOvercredited` | crank/_probe_conservation_baseline.ts:72-113 | Through both loops: the backers together never draw more than the pot brought plus one unit per pool writer paid before them |
| `WindDown.PotNeverUndercredited` | crank/_probe_conservation_baseline.ts:72-113 | Through both loops, from below: if the commitments add up to the pot, the backers together draw at least what they brought less one unit and one share's worth for each of them, the remainder of the merge and the pot's part of earlier payouts |
| `WindDown.WorthlessPoolSharesThePot` | crank/_probe_conservation_baseline.ts:73-98 | The other side: with no collateral in the pool its shares still draw from the pot, here half of it |
| `WindDown.HeldPlaces` | crank/_probe_conservation_baseline.ts:84-85 | The pool writers on the book are exactly those that hold shares, in the order they were read |
| `WindDown.BackerPlaces` | crank/_probe_conservation_baseline.ts:103-107 | The backers on the book are exactly those that committed something, in the order they were read, each with the floored part of the equivalent shares |
| `WindDown.PremiumIsSaturating` | crank/_probe_conservation_baseline.ts:92 | The three-step premium is one subtraction saturating at zero |
| `Prelude.TruncDivMeans` | crank/_probe_conservation_baseline.ts:73-108 | BigInt division: the quotient is short of the exact one by less than one and never beyond it, whatever the signs |
| `Reclaim.ReclaimVault` | crank/reclaimUnsettled.ts:177-237 | One run, with every read and send able to fail, to land and still throw, or never to return, leaves exactly the chain, the unread answers and the report of the specified run |
| `Reclaim.EnsureVoided` | crank/reclaimUnsettled.ts:191-215 | Phase 1 and the ordering barrier as specified: phase 2 is reached only from a vault read as voided, or in a dry run |
| `Reclaim.ReclaimEach` | crank/reclaimUnsettled.ts:217-234 | Phase 2 as specified: one build and one send per listed writer, stopping at the first throw |
| `Reclaim.ListingPlaces` | crank/reclaimUnsettled.ts:81-91 | The listing is exactly those of the enumeration that hold shares, in its order |
| `Reclaim.ReclaimOnce` | programs/opta/src/instructions/reclaim_unsettled.rs:67-76 | On chain: nobody is paid before the void, the void happens once, and a writer that was paid is refused a second time |
| `Reclaim.RunExtendsHistory` | crank/reclaimUnsettled.ts:177-237 | Any run, stopped anywhere, pays a prefix of what it would list, in order; a complete real run pays all of it; a dry run changes nothing |
| `Reclaim.SessionsHaveHistory` | crank/reclaimUnsettled.ts:177-237 | Any sequence of stopped runs leaves a chain on which distinct writers were paid one after another, and with one enumeration order a prefix of the first listing |
| `Reclaim.ResumedListing` | crank/reclaimUnsettled.ts:81-91 | With the same enumeration order a later run lists exactly the writers not paid yet |
| `Reclaim.CrashResume` | crank/reclaimUnsettled.ts:177-237 | Whatever runs came before and wherever they stopped, once a real run completes the vault is voided, every writer has zero shares, and exactly the writers that held shares were paid, once each |
| `Reclaim.ResumeEqualsUninterrupted` | crank/reclaimUnsettled.ts:177-237 | With one enumeration order a completed vault equals that of one uninterrupted run, payment for payment |
| `Reclaim.EachPaidInItsPlace` | crank/reclaimUnsettled.ts:217-234 | Once a run completes, whatever crashes came before, each writer has received in one payment its draw from the till as all those enumerated before it left it, and its premium; its debt is as before, its claims have grown by the premium, its shares are gone; whoever held none is untouched |
| `Reclaim.CompletesIff` | crank/reclaimUnsettled.ts:177-237 | A run returns a report if and only if every one of its interactions goes well, and how many those are: a read, unless voided the instruction and in a real run the send and the barrier's read, the listing, and per listed writer the instruction and in a real run the send; the report then says what was voided, listed and reclaimed |
| `Reclaim.FineTapeCompletes` | crank/reclaimUnsettled.ts:177-237 | So a run in which every interaction succeeds completes, from any chain |
| `Reclaim.PayInOrderTill` | crank/_probe_conservation_baseline.ts:86-95 | Reclaiming writers one after another moves the till exactly as the wind-down loop does |
| `Reclaim.PayInOrderPays` | crank/_probe_conservation_baseline.ts:86-98 | Each reclaimed writer receives exactly its wind-down draw and premium, once, and keeps no shares |
| `Reclaim.SafeAtEveryStop` | crank/reclaimUnsettled.ts:191-234 | At every stop: nothing moved unless voided, a writer is either untouched or paid once with no shares left, and till plus paid collateral equal what the void seeded |
| `Reclaim.OrdersAgree` | crank/reclaimUnsettled.ts:217-234 | Two reclaims of one vault with any crashes and any orders pay a writer the same premium, and collateral differing by less than the number of writers |
| `ReclaimSweep.RunReclaimSweep` | crank/reclaimUnsettled.ts:261-354 | Without cluster time nothing happens. Otherwise every vault up to the end, or up to the first candidate whose first balance read throws, gets exactly its turn, the vaults behind that one are left alone, and the counters of a completed pass are those of the turns |
| `ReclaimSweep.SweepOne` | crank/reclaimUnsettled.ts:282-344 | One vault's turn: skipped, blocked by its first balance read, or one run of reclaimVault whose crash costs only itself |
| `ReclaimSweep.CountCandidate` | crank/reclaimUnsettled.ts:316-344 | The counters after a candidate's turn: an error, or voided, reclaimed and positive balance moved |
| `ReclaimSweep.SkippedIff` | crank/reclaimUnsettled.ts:282-314 | A vault is passed over if and only if the cluster time is unknown, it is settled, voided or within the week of grace, or its market or the absence of its record could not be established |
| `ReclaimSweep.OutcomeIs` | crank/reclaimUnsettled.ts:316-344 | A candidate's turn is blocked, processed or crashed exactly by which of its balances could be read and whether its run completed |
| `ReclaimSweep.TallyMeans` | crank/reclaimUnsettled.ts:253-259 | The five counters count vaults not passed over, vaults processed for real, reclaims, falls of balances, and crashed turns |
| `ReclaimSweep.ProcessedMeans` | crank/reclaimUnsettled.ts:324-332 | A vault processed for real is voided, nobody holds shares in it any more, and its turn reports how many did and by how much its balance fell |
| `ReclaimSweep.NeverTouched` | crank/reclaimUnsettled.ts:284-314 | Over any number of ticks, a vault that was settled, had a record, was within the week of grace or could not be established at each of them is never touched |
| `ReclaimSweep.CandidateIsPaidOut` | crank/reclaimUnsettled.ts:284-332 | And one that meets every condition is paid out by one tick in which all goes well |
| `ReclaimSweep.RunPays` | crank/reclaimUnsettled.ts:177-237 | A completed run makes exactly as many payments as it reports; one that throws may have made some |
| `ReclaimSweep.ReportsNeverOverstate` | crank/reclaimUnsettled.ts:253-259 | Over one pass, the payments made are writersReclaimed plus those of turns reported as errors; so the report never overstates and is exact without errors |
| `ReclaimSweep.SweepNeverResumes` | crank/reclaimUnsettled.ts:282-286 | Once the lists the sweep works on show a vault voided, no number of ticks changes it, whatever it still owes |
| `ReclaimSweep.OneChance` | crank/reclaimUnsettled.ts:282-344 | While each tick works on a list that is up to date about the vault, after any number of ticks it is untouched, or exactly as the one run left it that voided it, stopped wherever that run was |
| `ReclaimSweep.SweepPaysOutIff` | crank/reclaimUnsettled.ts:282-344 | So nobody holds shares in the voided vault any more if and only if that one run got through its whole listing; resumption is a property of reclaimVault and not of the sweep |
| `ReclaimSweep.LostConfirmationStrandsWriters` | crank/reclaimUnsettled.ts:284-332 | If the void lands but its confirmation throws, no later tick whose list shows it pays anybody, although a direct run would complete |
| `StableSort.SortIsStable` | crank/ed25519SelfPack.ts:146 | The specification sort is sorted, a permutation, and keeps equal keys in input order |
| `StableSort.StableSortIsUnique` | crank/ed25519SelfPack.ts:146 | Sorted and stable determine the result, so any stable sort, JavaScript's included, gives this one |
| `StableSort.SortPlaces` | crank/ed25519SelfPack.ts:146 | Place by place: every element once, smaller keys first, equal keys in the order of the input |
| `Ed25519SelfPack.Pack` | crank/ed25519SelfPack.ts:121-198 | What is refused and with which error first; what is packed is exactly header, table, blobs, message and trailer of the triples by ascending oracle index, equal ones as they were given |
| `Ed25519SelfPack.WriteTable` | crank/ed25519SelfPack.ts:167-179 | The written table is the specified one; a RangeError exactly when an offset, the length or the index does not fit 16 bits |
| `Ed25519SelfPack.WriteStructOf` | crank/ed25519SelfPack.ts:169-178 | One offset struct behind the ones before it; a RangeError exactly when the geometry does not fit 16 bits |
| `Ed25519SelfPack.WriteBlobs` | crank/ed25519SelfPack.ts:181-186 | Signature and key of every triple, alternating, right behind the table |
| `Ed25519SelfPack.WritePayload` | crank/ed25519SelfPack.ts:163-195 | All writes follow each other without gap or overlap and fill the buffer with the layout; it fails exactly on a value out of range |
| `Ed25519SelfPack.LeRoundTrip` | crank/ed25519SelfPack.ts:193 | Little-endian bytes read back as the value whenever it fits them |
| `Ed25519SelfPack.PackableMeans` | crank/ed25519SelfPack.ts:127-153 | The accepted arguments are exactly those for which no refusal applies |
| `Ed25519SelfPack.PackOrder` | crank/ed25519SelfPack.ts:146 | The order of the payload: oracleIdx never decreases, and triples of equal oracleIdx keep the order in which they were given |
| `Ed25519SelfPack.RefusalMeans` | crank/ed25519SelfPack.ts:121-153 | Which refusal, exactly, in terms of the arguments: nothing given; a negative index; the first triple of a wrong length, its signature before its key; two differing messages; a number that does not fit its field |
| `Ed25519Decode.Decode` | crank/ed25519SelfPack.ts:211-239 | The decoder throws exactly when the announced table does not fit the data; otherwise every field of the result is determined by following the offsets |
| `Ed25519Decode.PackedRegions` | crank/ed25519SelfPack.ts:155-195 | The five regions stand one behind the other and fill the buffer |
| `Ed25519Decode.StructOfRegions` | crank/ed25519SelfPack.ts:167-179 | Offset struct i of a packed buffer says where triple i is |
| `Ed25519Decode.OffsetsLeadBack` | crank/ed25519SelfPack.ts:181-189 | Following those offsets leads back to the signature, the key and the shared message of triple i |
| `Ed25519Decode.RoundTrip` | crank/ed25519SelfPack.ts:121-239 | Decoding what was packed returns signature, key, message and verdict of the input triples by ascending oracleIdx, equal ones as they were given, cut off at the count modulo 256 |
| `Ed25519Decode.PackedIsNeverTruncated` | crank/ed25519SelfPack.ts:216-226 | Decoding what was packed never reads past the data |
| `Ed25519Decode.CompleteIffCountFits` | crank/ed25519SelfPack.ts:164 | Decoding returns all the triples if and only if there are at most 255: the count byte is never checked |
| `Ed25519Decode.SilentTruncation` | crank/ed25519SelfPack.ts:164-178 | For every count from 256 to 595 some input is packed without complaint |
| `Ed25519Decode.AllVerifiedIffAllAccepted` | crank/ed25519SelfPack.ts:230-238 | For at most 255 triples, allVerified holds if and only if the verifier accepts every input triple |
| `Ed25519Decode.TrailerReadsBack` | crank/ed25519SelfPack.ts:190-195 | Oracle byte i of the trailer is the oracleIdx modulo 256 of the triple whose signature the offsets of struct i lead to, and the slot reads back |
| `Ed25519Decode.PayloadBytes` | crank/ed25519SelfPack.ts:155-195 | Every byte of an accepted payload at its literal offset: count, little-endian offset structs, signatures and keys, message, oracle indexes, slot, version and tag |
| `Ed25519Decode.FieldsReadBack` | crank/ed25519SelfPack.ts:218-226 | Seven fields written one behind the other read back each with its own value |
| `Ed25519Decode.SubarrayMeans` | crank/ed25519SelfPack.ts:227-229 | A slice past the end of the data is cut off there and otherwise shows the bytes at its offset |
| `PhantomShift.AuditEd` | crank/_probe_phantom_shift.ts:32-59 | The audit counts exactly the references that are missing or out of bounds; it throws exactly on a missing instruction or unreadable data |
| `PhantomShift.BadReferencesCount` | crank/_probe_phantom_shift.ts:38-58 | For any data, packed or not, the audit is the number of signatures, keys and messages whose instruction is missing or too short for them |
| `PhantomShift.PackedAudit` | crank/_probe_phantom_shift.ts:38-58 | A packed instruction passes if and only if its count byte is zero or the instruction its index names reaches over all its references; if that one cannot hold the first signature every reference is bad |
| `PhantomShift.PassesInPlace` | crank/_probe_phantom_shift.ts:92-98 | Packed for its own position it passes there, whatever stands around it |
| `PhantomShift.SelfPassesEverywhere` | crank/_probe_phantom_shift.ts:45 | Packed for the self-referential index it passes at every position |
| `PhantomShift.ShiftedAudit` | crank/_probe_phantom_shift.ts:100-106 | After inserting any number of instructions before it, it passes if and only if the instruction now in its old place reaches over all its references; below 2+14N+64 bytes all 3N references are bad |
| `PhantomShift.CopyHidesTheShift` | crank/_probe_phantom_shift.ts:38-58 | The other side: with a copy of the instruction inserted in its place, the shifted one passes although its references are to the copy |
| `QuoteCapture.Ed25519Utils.Enter` | crank/switchboardQuotePost.ts:71-85 | Entering a scope saves what is installed and puts a recording hook on top of it |
| `QuoteCapture.Ed25519Utils.Call` | crank/switchboardQuotePost.ts:74-85 | A call is recorded in every hook below it and returns the SDK builder's own result |
| `QuoteCapture.Ed25519Utils.Exit` | crank/switchboardQuotePost.ts:86-91 | Leaving a scope, by return or throw, puts back what it found and hands out what it captured |
| `QuoteCapture.NestedScopes` | crank/switchboardQuotePost.ts:68-92 | In every run whose scopes exit in reverse order of entry, the installed builder is the open scopes' hooks over the original, and each open scope holds the last call since its entry |
| `QuoteCapture.RestoredAfterNesting` | crank/switchboardQuotePost.ts:86-91 | After the outermost such exit the original builder is installed |
| `QuoteCapture.RestoredIff` | crank/switchboardQuotePost.ts:72-90 | In any order of exits the original is back after an exit if and only if it was installed when that scope was entered |
| `QuoteCapture.OverlappingScopesLeaveAHook` | crank/switchboardQuotePost.ts:72-90 | Two scopes that exit in order of entry leave the first one's hook installed |
| `QuoteCapture.SwapEd25519` | crank/switchboardQuotePost.ts:132-157 | Each error exactly in its case; otherwise only the first ed25519 instruction changes, to the packed bytes, and the length stays |
| `QuoteCapture.SwappedPassesAudit` | crank/switchboardQuotePost.ts:180-200 | Behind the compute-budget instruction the swapped instruction passes the audit if it was packed for its position there |
| `SettlePlan.PaddingIsRemoved` | crank/settleVaultFanout.ts:110-115 | Space padding followed by NUL padding is removed exactly, so padded names compare equal |
| `SettlePlan.CleanIsIdempotentIff` | crank/settleVaultFanout.ts:112-115 | Cleaning twice changes nothing if and only if the cleaned name does not end in a NUL |
| `SettlePlan.NulBeforeSpacesSurvives` | crank/settleVaultFanout.ts:114 | A NUL in front of trailing spaces survives cleaning |
| `SettlePlan.PlanSettleFanout` | crank/settleVaultFanout.ts:126-179 | Skip counts, eligible total and targets are those of classifying every vault, sorting the eligible stably and slicing |
| `SettlePlan.Partition` | crank/settleVaultFanout.ts:145-166 | The loop splits the board into the eligible vaults, in order, and one count per skip reason |
| `SettlePlan.EveryVaultCounted` | crank/settleVaultFanout.ts:145-166 | The five skip counts and the eligible vaults add up to the number of vaults |
| `SettlePlan.SkipsMean` | crank/settleVaultFanout.ts:145-166 | Every skip counter counts places on the board by the vaults' own fields, the listed markets and the records, each reason before the next |
| `SettlePlan.QueueOrder` | crank/settleVaultFanout.ts:168-176 | All eligible vaults once, by expiry, then by the rank of the market, then as they were read |
| `SettlePlan.AssetOfLastMarket` | crank/settleVaultFanout.ts:136-139 | The asset map knows exactly the listed markets, and the last entry of a key wins |
| `SettlePlan.EligibleExactly` | crank/settleVaultFanout.ts:136-166 | On every board, a vault is eligible if and only if it is on it, expired, neither settled nor voided, and a record has its expiry and the cleaned name of its market's last entry; no oracle source is asked |
| `SettlePlan.PlanIsFair` | crank/settleVaultFanout.ts:168-178 | The targets are the eligible vaults in (expiry, market) order up to the ceiling, and no eligible vault left out expires before a target |
| `SettlePlan.SameTupleAdjacent` | crank/settleVaultFanout.ts:168-176 | Vaults of one (market, expiry) tuple stand next to each other |
| `SettlePlan.ChunkTargets` | crank/settleVaultFanout.ts:182-187 | It throws exactly for a size below one; the chunks concatenate back, none is empty or too long, and only the last may be short |
| `StableSort.FilterSort` | crank/settleVaultFanout.ts:172-176 | Leaving vaults out and sorting commute, so the queue of the next tick is the rest of this one |
| `SettleDrain.TickDrains` | crank/settleVaultFanout.ts:178 | A tick that settles its targets takes exactly those, the ceiling or all that is left, off the front of the backlog and leaves the rest in order |
| `SettleDrain.BacklogDrains` | crank/settleVaultFanout.ts:67-70 | If every target settles, the backlog after n ticks is what n ceilings leave, and empty if and only if n ceilings cover it |
| `SettleDrain.QueueAfterTick` | crank/settleVaultFanout.ts:154-178 | After a tick in which some vaults never settle, the queue is the stuck ones among its first maxPerTick followed by the rest |
| `SettleDrain.MoversDrain` | crank/settleVaultFanout.ts:121-124 | While fewer stuck vaults than maxPerTick stand before the last one that can settle, every tick settles at least the difference, or all |
| `SettleDrain.MoversStarve` | crank/settleVaultFanout.ts:121-124 | With that many stuck vaults before it, the last one that can settle is never served, however many ticks pass |
| `SettleDrain.DrainsIff` | crank/settleVaultFanout.ts:117-179 | Anti-starvation, exactly: with any fixed set of vaults that never settle, every other eligible vault is settled in some tick if and only if there is none or fewer than maxPerTick stuck ones sort before the last of them; then as many ticks as there are such vaults suffice |
| `SettleDrain.PassIsTick` | crank/settleVaultFanout.ts:343-410 | What runSettleFanout guarantees, without a failure or a dropped error and with nobody else settling, makes its pass one tick, stuck being exactly the vaults whose cleaned name is empty |
| `SettleDrain.EmptyNamesStarveIff` | crank/settleVaultFanout.ts:117-179 | With such passes only, every eligible vault with a name is settled in some tick if and only if there is none or fewer than maxPerTick eligible empty-named ones sort before the last of them |
| `SettleDrain.StarvesForEver` | crank/settleVaultFanout.ts:161-179 | For every ceiling a board on which older empty-named vaults keep an eligible vault with a name out of every tick |
| `SettleRun.RunSettleFanout` | crank/settleVaultFanout.ts:343-410 | With anybody settling any vault between sends: nothing is settled twice; only targets with a non-empty name are ever sent, at most four at a time, or reported as not built; each counter counts the sends it names; an isolated vault that was rejected because it was settled is skipped and never reported as failed, and any other rejection is reported; what landed, was confirmed without an error or was skipped is settled at the end; attempted = settled + skipped + failed sends unless stopped; the clamp at zero never acts; and every target of a chunk finished before a stop, all of them without one, is settled, failed in its own send, failed to build, or had an error of its own confirmation dropped |
| `SettleRun.SettleChunk` | crank/settleVaultFanout.ts:359-406 | One chunk keeps all of the above, whatever happened to the chunks before |
| `SettleRun.SettleBatch` | crank/settleVaultFanout.ts:375-406 | One batch and its isolation: unless stopped, every vault of it is settled, failed in its own transaction or had an error of its own confirmation dropped, and comes to exactly one end |
| `SettleRun.IsolateEach` | crank/settleVaultFanout.ts:385-405 | Isolation sends each vault alone, so nothing that happens to one vault costs its neighbours |
| `SettleRun.BuildBatch` | crank/settleVaultFanout.ts:361-371 | Every attemptable vault of the batch is built or reported as failed to build, and nothing else is built |
| `SettleRun.CountedSettledIff` | crank/settleVaultFanout.ts:329 | Counting the vaults of a send that returned normally is right for every behaviour of the chain if and only if its confirmation came back without an error or all its vaults were settled before |
| `SettleRun.MessageTells` | crank/settleVaultFanout.ts:203-209 | A failure is taken for an already settled vault if and only if the program rejected it with error 6019, whether the message shows that by name, in hex or in decimal |
| `SettleRun.TallyMeans` | crank/settleVaultFanout.ts:343-410 | The counters count vaults in batches, sends that returned, the vaults in those, isolated sends rejected because the vault was settled, and isolated sends that failed otherwise |
| `SettleRun.UncheckedConfirmation` | crank/settleVaultFanout.ts:329 | One dropped confirmation error suffices: after any pass so far the chain may leave every vault of a further batch unsettled while all of them are counted |
| `SettleRun.EligibleIsAttemptableIff` | crank/settleVaultFanout.ts:161-164 | On every board, an eligible vault is attempted if and only if the cleaned name of its market's last entry is not empty |
| `SettleRun.PaddingAloneIsEligible` | crank/settleVaultFanout.ts:126-164 | There are eligible vaults with an empty name: a market name that is all padding, any of it, meets a record for the empty name |
| `SettleRun.EmptyNameIsNeverSent` | crank/settleVaultFanout.ts:363-364 | On every board, no send of a pass over its eligible vaults ever includes a vault whose market's cleaned name is empty |
| `FinalizeCache.PersistentFinalizeCache.Load` | crank/finalizeCache.ts:107-145 | A load holds the file's well-formed entries up to the cap, and nothing for a missing or unrecognised file |
| `FinalizeCache.PersistentFinalizeCache.MaySuppress` | crank/finalizeCache.ts:75-90 | A scan may be suppressed if and only if the vault is settled with nothing left and the mark under its key is a positive time that is not in the future and within the trust window |
| `FinalizeCache.PersistentFinalizeCache.Add` | crank/finalizeCache.ts:157-161 | An add sets the mark, or leaves everything alone for a new key in a full cache |
| `FinalizeCache.PersistentFinalizeCache.Prune` | crank/finalizeCache.ts:169-179 | A prune drops exactly the entries past the trust window, in place, and says how many |
| `FinalizeCache.PersistentFinalizeCache.Flush` | crank/finalizeCache.ts:185-210 | A flush writes the entries if they changed and the write works, and otherwise changes nothing |
| `FinalizeCache.RunIsTidy` | crank/finalizeCache.ts:97-210 | Over every run of adds, prunes, flushes and crashes, a cache that is not dirty is exactly what its file holds |
| `FinalizeCache.FlushThenReload` | crank/finalizeCache.ts:185-196 | A working flush and a reload give back the very same cache |
| `FinalizeCache.PruneIsInvisible` | crank/finalizeCache.ts:169-179 | Pruning changes no present or later suppression answer |
| `FinalizeCache.PrunedKeepsOrder` | crank/finalizeCache.ts:169-179 | A prune takes out exactly what was marked longer ago than the trust window and leaves the rest in order |
| `FinalizeCache.LoadedPlaces` | crank/finalizeCache.ts:107-145 | Of a file the well-formed entries are loaded in order up to the cap of 100,000, and no others |
| `FinalizeCache.CrashConservatism` | crank/finalizeCache.ts:48-210 | Every monotone run of adds, prunes, flushes and crashes over a set of vaults suppresses nothing, in memory or from the file, that a process that never died would not, if and only if the set has at most 100,000 vaults or nothing is trusted at all |
| `FinalizeCache.ConservativeUnlessTurnedAway` | crank/finalizeCache.ts:65-210 | For a single run it holds as long as the cap turned no key away that the crashed cache takes |
| `FinalizeCache.CapBreaksConservatism` | crank/finalizeCache.ts:157-158 | The reachable failure: mark 100,000 vaults, die before a flush, mark one more; the restarted process suppresses a vault that the other one has turned away |
| `FinalizeCache.AddKeepsDominanceIff` | crank/finalizeCache.ts:157-161 | From related caches, one add keeps the dominance if and only if the uncrashed cache takes the key or the crashed one turns it away too |
| `FinalizeCache.FewVaultsNeverTurnedAway` | crank/finalizeCache.ts:48 | No key is turned away in any run that marks no more different vaults than the cap |
| `FinalizeCache.MarksWereAdded` | crank/finalizeCache.ts:107-161 | Every mark in memory or on disk was really added at that time, with no condition |
| `FinalizeSweep.LooksEmptyMeans` | crank/bot.ts:934-935 | The holder report looks empty if and only if no mint whose scan succeeded has a holder left |
| `FinalizeSweep.EmptyIsTrueIff` | crank/autoFinalize.ts:293-331 | For a given pattern of scan successes, an empty report is right for all holder populations if and only if every scan succeeded, which the report shows as gpaCalls equal to mintsScanned |
| `FinalizeSweep.FailedScanLooksEmpty` | crank/autoFinalize.ts:323-328 | One failed scan hides any number of holders |
| `FinalizeSweep.RunPasses` | crank/bot.ts:856-984 | The four passes of one vault: when the turn ends, when all four ran, and when all were quiet |
| `FinalizeSweep.QuietIff` | crank/bot.ts:849-984 | Quiet means, pass by pass: none crashed, found a listing, an order, a live holder of a mint that was scanned or a writer, sent a transaction or created an account |
| `FinalizeSweep.LoudTurnMarksNothing` | crank/bot.ts:856-984 | If any pass did, or a shutdown was noticed, the vault is not settled, or it is a dry run, the turn leaves the cache as it was |
| `FinalizeSweep.ScannedOrSkipped` | crank/bot.ts:818-852 | A settled vault whose turn is not cut short is skipped exactly if nothing is left in it and its mark is a past time within the trust window, and scanned otherwise |
| `FinalizeSweep.QuietTurnMarks` | crank/bot.ts:974-989 | And if none did, the vault is marked with the time of the sweep and no other mark changes, unless it is being skipped or the cache is full |
| `FinalizeSweep.ShutdownEndsSweep` | crank/bot.ts:900-945 | A shutdown noticed on a turn ends the sweep there, as if the turns from there on had not been due |
| `FinalizeSweep.Crank.TakeTurn` | crank/bot.ts:818-999 | One vault's turn skips, scans and marks exactly as specified, and keeps every memory backed by a scan and every skip justified |
| `FinalizeSweep.Crank.Sweep` | crank/bot.ts:815-1004 | A sweep that is not killed leaves exactly the specified marks, pruned, and a working flush makes the file hold them; killed anywhere it still keeps the invariant |
| `FinalizeSweep.Crank.Reload` | crank/finalizeCache.ts:107-145 | A restarted process holds what the file holds, still backed by scans |
| `FinalizeSweep.RunSweeps` | crank/bot.ts:818-1004 | Bounded scan gap: over any run of sweeps, each of which the process may not survive, every vault skipped was settled with nothing left and had really been scanned no longer ago than the trust window, by four passes none of which crashed, found or sent anything |
| `FinalizeSweep.QuietScanSuppresses` | crank/bot.ts:974-988 | A quiet scan of a drained vault suppresses its scans for the whole trust window, and skipping never renews the mark |
| `LivenessProbe.Probe.ProbePythInto` | crank/livenessCrank.ts:121-148 | The recursion adds to the map exactly what its requests found, and makes exactly the specified number of requests |
| `LivenessProbe.FindsExactlyTheKnown` | crank/livenessCrank.ts:121-148 | If a request fails if and only if it has an unknown id, the map gains exactly the known ids with their publish times |
| `LivenessProbe.FindsNothingFalse` | crank/livenessCrank.ts:118-148 | Whatever else fails or is left out of an answer, nothing false is found, and an id goes missing only if a request that was made for it alone failed or the answer to one that was made left it out |
| `LivenessProbe.AtMostTwicePerId` | crank/livenessCrank.ts:144-147 | At most 2n-1 requests for n ids, however the server behaves |
| `LivenessProbe.CheapWhenFewUnknown` | crank/livenessCrank.ts:144-147 | At most 1 + 2*b*ceil(log2 n) requests for b unknown ids among n |
| `LivenessProbe.CeilLog2Means` | crank/livenessCrank.ts:145 | The depth used in that bound is the smallest c with n <= 2^c |
| `RateLimiter.Limiter.Allow` | crank/sbCreateMarketEndpoint.ts:160-175 | The decision and the new buckets are those of the specification, pruning included; and a request that opens a window leaves at most 10,000 buckets or no stale one |
| `RateLimiter.Limiter.Prune` | crank/sbCreateMarketEndpoint.ts:165-169 | The loop deletes exactly the stale buckets |
| `RateLimiter.PruningIsInvisible` | crank/sbCreateMarketEndpoint.ts:160-175 | On a clock that never runs back the limiter decides every request as one that never prunes |
| `RateLimiter.AtMostTwoWindows` | crank/sbCreateMarketEndpoint.ts:160-175 | Any half-open interval of windowMs admits at most 2*max(1, maxPerWindow) - 1 requests of one IP |
| `RateLimiter.RefusedOnlyWhenFull` | crank/sbCreateMarketEndpoint.ts:162-173 | A request is refused only if at least maxPerWindow requests of its IP were admitted in the windowMs up to it |
| `RateLimiter.BucketCounts` | crank/sbCreateMarketEndpoint.ts:163-173 | A bucket counts exactly the requests admitted since its window opened |
| `RateLimiter.TwoWindowsAreReached` | crank/sbCreateMarketEndpoint.ts:160-175 | That bound is reached, for every maximum and every window of at least two milliseconds |
| `RateLimiter.NeverAboveTwiceIffPositive` | crank/sbCreateMarketEndpoint.ts:162-172 | At most 2*maxPerWindow holds if and only if maxPerWindow is at least one: a window always admits its opener |
| `TokenIdentity.AddressesKeepTheirKeys` | crank/tokenIdentity.ts:233-239 | However names are folded, an address shares its key with a query if and only if the two are equal after trimming |
| `TokenIdentity.NamesShareKeysIffFolded` | crank/tokenIdentity.ts:236-239 | Two names share a key if and only if they fold to the same after trimming |
| `TokenIdentity.AddressMeans` | crank/tokenIdentity.ts:231 | An address is 32 to 44 letters and digits other than 0, O, I and l |
| `JsString.TrimRemovesPadding` | crank/tokenIdentity.ts:237 | Trimming removes exactly the white space around a text |
| `TokenIdentity.IdentityCache.CacheGet` | crank/tokenIdentity.ts:103-115 | A lookup answers the live value and moves it to the back, and drops an expired one |
| `TokenIdentity.IdentityCache.CacheSet` | crank/tokenIdentity.ts:117-127 | A store skips upstream errors, keeps the place of a present key, and evicts from the front down to the bound |
| `TokenIdentity.RunIsSound` | crank/tokenIdentity.ts:103-127 | After any run: at most 2000 entries, each the last value stored under its key, no upstream error, in the order in which they last went to the back |
| `TokenIdentity.HitIsLastStored` | crank/tokenIdentity.ts:103-127 | A hit is the last value stored under that key, at most ten minutes old for a token and one minute for a miss, never an upstream error, and what an unbounded map would answer |
| `TokenIdentity.KeptIsFound` | crank/tokenIdentity.ts:103-127 | And the other way round: what was stored last under a key is found for exactly that long, unless the key was pushed out since |
| `TokenIdentity.OnlyEvictionLoses` | crank/tokenIdentity.ts:103-127 | Where the unbounded map answers and the cache does not, the key was pushed out and not stored since |
| `TokenIdentity.PushesOutLeastRecent` | crank/tokenIdentity.ts:122-126 | A key is pushed out only by a new key and only while 1999 other keys are present, all sent to the back after it |
| `TokenIdentity.PlacedMeans` | crank/tokenIdentity.ts:112-127 | The recorded place of a key is the last event that sent it to the back: a lookup that found it, or a store under it when it was not there |
| `TokenIdentity.JustStoredIsPushedOut` | crank/tokenIdentity.ts:121-126 | Storing over a present key does not refresh its place: a value stored an instant ago may be the next to go |
| `TokenResolver.Resolver.Begin` | crank/tokenIdentity.ts:253-273 | Before the catalog is asked: an empty query is not found, a hit is answered; an address is never answered with another token, and no error is ever answered from the cache |
| `TokenResolver.Resolver.PickRow` | crank/tokenIdentity.ts:283-284 | An address takes the first row with exactly that id or none; a name takes the first row |
| `TokenResolver.Resolver.Finish` | crank/tokenIdentity.ts:275-298 | After the answer: a failed fetch stores nothing; not found means that no row answers; the answer's fields are those of the row that does, the second directory's verdict before the explicit flag and that before the tag; a token is then found under its own address for ten minutes and no longer, a miss for one; and no address is ever bound to another token, whatever other requests did in between |
| `TokenResolver.SetThenGet` | crank/tokenIdentity.ts:103-127 | What is stored is found for ten minutes if it is a token and one if it is a miss, and not longer, however full the cache was |
| `AccountCache.AccountCache.BeginGet` | crank/accountCache.ts:69-86 | Up to the fetch: served and counted as a hit, or the reason to fetch; age before miss |
| `AccountCache.AccountCache.FinishGet` | crank/accountCache.ts:88-97 | From the fetch on: a throw changes nothing, a list replaces data, keys, time and counters |
| `AccountCache.AccountCache.Invalidate` | crank/accountCache.ts:110-114 | Everything but the counters is dropped |
| `AccountCache.ListInPlace` | crank/accountCache.ts:88-97 | Over every run of overlapping gets the keys are those of the list in place, which the last fetch to land brought and no invalidation dropped |
| `AccountCache.ServedIsFreshAndComplete` | crank/accountCache.ts:69-86 | A list served from the cache was asked for less than ttl ago and has every required key |
| `AccountCache.MissingKeyIsNeverHidden` | crank/accountCache.ts:77-81 | A required key that is not in the list in place forces a fetch, however young the list is |
| `AccountCache.ReasonIs` | crank/accountCache.ts:72-81 | Why a get fetches, over every run: by age if nothing is in place or it was asked for ttl ago, whatever it lacks; by a miss exactly if it is younger and a required key is in none of its accounts |
| `AccountCache.LastRefreshIs` | crank/accountCache.ts:92-95 | lastRefreshMs and size are those of the last list that landed, dropped since or not, and zero before the first |
| `AccountCache.CountersCount` | crank/accountCache.ts:83-96 | Hits plus refreshes count the gets that returned, and the two refresh reasons add up |
| `AccountCache.AgeTells` | crank/accountCache.ts:101-107 | On a positive clock that does not run back, an age of -1 means that nothing is cached, and any other age is how long ago the list in place was asked for |
| `AccountCache.QuietIff` | crank/accountCache.ts:88-91 | The continuations in which no get begins are exactly those in which fetches under way come back, each once, in any order, with a list or a throw |
| `AccountCache.InvalidationHoldsIff` | crank/accountCache.ts:88-114 | After an invalidation the cache stays empty through every continuation without a new get if and only if no fetch was under way when it was invalidated |
| `AccountCache.EmptyUntilAListLands` | crank/accountCache.ts:109-114 | With new gets as well: after an invalidation nothing is cached, and every get must fetch, until a list lands |
| `AccountCache.NewestStaysIff` | crank/accountCache.ts:88-91 | The last fetch to land wins, so in every continuation without a new get the list in place is the newest there was, if and only if the fetches under way were all begun at one time and none before the list in place |
| `HermesBackoff.Backoff.BackoffOn429` | crank/hermesBackoff.ts:38-45 | A rate limit multiplies up to the ceiling and forgets the streak |
| `HermesBackoff.Backoff.BackoffOnOk` | crank/hermesBackoff.ts:48-59 | A success counts, and every N-th halves toward the base |
| `HermesBackoff.SettleTuples` | crank/bot.ts:629-712 | The inline copy steps exactly as the helper over every tick, each attempt is paced by the delay at that moment, and the error counters are those of the outcomes; tuplesProcessed also counts tuples a shutdown left unattempted |
| `HermesBackoff.NeutralLeavesNoTrace` | crank/bot.ts:698-712 | A missing update or another error leaves no trace: a run ends as it would without them |
| `HermesBackoff.StreakIs` | crank/bot.ts:629-696 | k rate limits or k successes in a row are k of the helper's steps |
| `HermesBackoff.AfterRateLimits` | crank/hermesBackoff.ts:38-45 | k rate limits in a row multiply the delay k times, up to the ceiling |
| `HermesBackoff.AlwaysBounded` | crank/hermesBackoff.ts:33-59 | With base <= ceiling every run keeps base <= currentMs <= ceiling and the streak below N |
| `HermesBackoff.KeepsTheFloorIff` | crank/bot.ts:393-402 | No run goes below the base if and only if the configured ceiling is not below it, which nothing checks |
| `HermesBackoff.AfterOks` | crank/hermesBackoff.ts:48-59 | The state after N*j + i successes, exactly: the delay halved j times and floored at the base |
| `HermesBackoff.Recovers` | crank/hermesBackoff.ts:48-59 | From any reachable state at most base*2^k, N*k successes bring the delay exactly to the base |
| `HermesBackoff.ShippedRecovery` | crank/hermesBackoff.ts:26-31 | With the shipped constants fifteen successes undo any backoff |

## Left out

- RPC, Hermes, Crossbar and HTTP traffic, transaction building and signing: each call is an abstract step that may succeed, fail, or land and still throw.
- The on-chain program: `initialize_void`, `reclaim_unsettled` and `settle_vault` are modelled by what they change and by the guards on a voided vault and on zero shares; account checks, the record and grace re-checks and reverts on 64-bit overflow are not; any other revert is a call that fails.
- ReclaimSweep.SweepPaysOutIff: is stated for lists that are up to date about the vault, one run at a time; on a stale list the sweep would run again.
- The Ed25519 signature check itself (section 5.1.7 of RFC 8032): a function parameter, as in the source.
- Address derivation, hashing, base58 decoding, JSON text and console output.
- Fractional, infinite and not-a-number values where the source uses JavaScript numbers: indexes, times and limits are integers. A malformed mark in the cache file is kept as its own case.
- Real file-system behaviour beyond a write that may fail and an atomic rename; the order in which a JSON object lists integer-like keys.
- Reclaim: other parties voiding or reclaiming the same vault, stale reads inside one run, and transactions that land only after the process gave up on them; the creation of the writer's token account.
- Reclaim: premium is computed per writer but its token balance is not tracked; conservation is stated for collateral.
- Wind-down: backers' residual payouts belong to the arithmetic probe only, as in the source.
- Fan-out: the regular expressions that read an error message are modelled by what they extracted, and a message shows no error code but the one the program rejected the send with; `localeCompare` by any ranking of market keys; a record key is the pair of name and expiry instead of their concatenation.
- Fan-out: that a confirmation which comes back tells the truth is the contract taken for the network; whether a later tick settles a vault whose confirmation error was dropped is not followed up.
- Fan-out: the stable sort is a function proved to be the unique stable sort, because the source calls the built-in one.
- AccountCache: a fetch is known by its reason and the time it was begun; two that agree in both count as two of the same.
- SettleDrain: eligibility does not change between ticks other than by settling; the exact draining condition is for a fixed set of vaults that never settle.
- LivenessProbe: the server answers a list of ids the same way within one probe; changes of its answers between two requests are covered only by the claims that hold for any server.
- RateLimiter: forwarded-for parsing and what counts as one client.
- TokenResolver: icons, decimals and the token program, which no decision depends on; rows that are null or whose fields have other types; `toLowerCase` is any function.
- HermesBackoff: the text matching that classifies an error, and delays that are not whole milliseconds.
- `vaultShellRule`, `potSlotGuard`, `sbExerciseValidate`, the volatility-oracle helpers, `readI128LE`, the liveness hysteresis counters and the stale-vault warning: one branch or one short induction each.
- `autoFinalize`, `autoCancelListings`, `sweepExpiredOrders` and `ladderGenerator` beyond the reports the sweep reads: enumeration and account wiring.
- The remaining probes, one-off scripts, feed tables, documentation page and front ends.
