# Verification of Bitcoin Core's stateful and algorithmic cores

This project models parts of a Bitcoin Core 31.1 tree in Dafny and proves what those parts promise. `dafny verify
dfyconfig.toml` checks all of it. The code under `bitcoin-31.1-modified/src` that works by changing state in place
is modelled by classes, arrays and loops, each proved against a function of the old state; the properties that span
several operations are lemmas about those functions.

## What is modelled

**The layered coin cache** (`coins.cpp`, `coins.h`). `CoinsView` gives a stack of caches over a database as a value,
with the rules for the DIRTY and FRESH flags and what every operation does to what each layer shows. `CoinsRun`
proves that every run on a stack of any depth behaves like plain maps, and that overlays do not disturb what is below
them. `CoinsFresh` proves that the FRESH flags stay exact, so that a coin created and spent above the database leaves
no trace in it, unless coins are added without looking. `CoinsRing` is the circular doubly linked list of flagged entries with its pointers, and `CoinsCache` the
classes that update coins, flags, list, dirty count and memory sum in place, layer by layer. `CoinsDisk` is the database
as it is written batch by batch, with a crash possible between any two, and `CoinsStack` covers whole runs on stacks of
objects. The invariant is the one that makes FRESH safe: a FRESH entry's outpoint is not visible below, and an entry that is not DIRTY equals what
is visible below. `AddCoin` breaks it if a caller rules out overwriting for an outpoint that the cache does not
hold but the layers below show; `CoinsView.AddKeepsIff` gives the exact condition. `Flush` forwards a best block that may be unset;
`CoinsRun.FlushKeepsBestIff` says exactly when the best block survives.

**The address manager** (`addrman.cpp`, `addrman_impl.h`). `AddrBook` states how the six indexes must agree and
`AddrSteps` proves that each elementary change keeps them so, with sets of entries that are on their way between
tables. `AddrMan` is the manager itself, with the two bucket tables as arrays; its operations are specified by the
two tables read as slot-to-address maps. `AddrCheck` is the consistency check, proved exact: with a key, the invariant
holds if and only if the check returns 0, no address leads to a missing entry, every network in use has its totals,
and ids are in range, the last three being what the check does not look at. `AddrRun` covers whole runs.
`AddrStore`, `AddrRead` and `AddrSerialize` are the file: what is written, what any file is read as, that reading back
what was written restores both tables, and what becomes of files with repeated addresses or impossible times.

**The parallel check queue** (`checkqueue.h`). `CheckQueue` is a state machine whose steps are the lock regions,
check executions, waits and wake-ups of a master and any number of workers, interleaved in any order.

**The block tree** (`chain.cpp`, `chain.h`). `Chain` proves that skip-pointer searches
agree with parent links, and `SkipHeights` that they take quadratically many steps in the number of bits of the height.

**256-bit arithmetic** (`arith_uint256.*`, `GetBitsProof`). `Limbs`, `Shifts` and `ArithUint` prove the limb loops
against integers, for every number of limbs; `Compact` is the compact target format and the work computed from it.

**Codecs.** `Radix` and `Base58`; `Bech32Checksum` and `Bech32` (section "Bech32" of BIP 173 and section "Bech32m" of
BIP 350). `GaloisFields` and `Bech32Errors` prove that the checksum finds any three errors within 1023 symbols, and
`Vectors` holds published values.

**Compact blocks** (`blockencodings.*`; sections "HeaderAndShortIDs" and "Short transaction IDs" of BIP 152).
`CompactBlocks` says what a message and its candidates determine, `PartialBlock` is the reconstruction, and
`Differences` the differential index lists. The extra list of `net_processing.cpp` holds placeholders without a
transaction; three promises end there, or where an object is used again, and each has its exact condition and an example.

`Options` and `Arith` hold what several modules share. Hashes, network groups, clocks, random choices, the order in
which hash maps are visited, and the block mutation check are parameters. Integers are unbounded; where the program's
width matters (limbs, 16-bit slot indexes, 64-bit differences, the 32-bit compact words) it is written out.

## Model

| member | source | states |
|---|---|---|
| CoinsView.PeekUnspent | bitcoin-31.1-modified/src/coins.cpp:44-50 | a lookup through any number of layers never returns a spent coin |
| CoinsView.FetchKeeps | bitcoin-31.1-modified/src/coins.cpp:63-81 | filling caches on a miss keeps the invariant of every layer and changes no layer's visible set |
| CoinsView.FetchedEntry | bitcoin-31.1-modified/src/coins.cpp:68-81 | a fetch caches exactly the outpoint asked for, and only if it is visible |
| CoinsView.AddShows | bitcoin-31.1-modified/src/coins.cpp:89-130 | an added coin becomes visible unless it is unspendable or the call throws; nothing else changes |
| CoinsView.AddKeepsIff | bitcoin-31.1-modified/src/coins.cpp:89-130 | AddCoin keeps the invariant if and only if it is not given a spendable coin, with overwriting ruled out, for an outpoint that the cache does not hold but the layers below show |
| CoinsView.MisusedShowsAgain | bitcoin-31.1-modified/src/coins.cpp:89-175 | after such a misuse, spending the added coin does not hide the outpoint: the coin below shows again |
| CoinsView.MisuseExample | bitcoin-31.1-modified/src/coins.cpp:89-130 | a concrete state and call in which AddCoin breaks the invariant |
| CoinsView.AddWhenHidden | bitcoin-31.1-modified/src/coins.cpp:89-130 | adding with overwriting allowed, or where nothing is visible, neither throws nor misuses the cache |
| CoinsView.SpendKeeps | bitcoin-31.1-modified/src/coins.cpp:153-175 | after SpendCoin the outpoint is invisible, every other one is as before, and the invariant holds in every layer |
| CoinsView.UncacheKeeps | bitcoin-31.1-modified/src/coins.cpp:310-323 | Uncache drops an entry exactly if it is unmodified, leaves all others, and changes no layer's visible set |
| CoinsView.ResetKeeps | bitcoin-31.1-modified/src/coins.cpp:302-308 | Reset makes the cache show exactly its base, which it leaves alone |
| CoinsView.MergeEntryOk | bitcoin-31.1-modified/src/coins.cpp:208-277 | for every legal combination of child and parent flags the merged entry is legal against the grandparent, shows the child's coin, and the logic error cannot be raised |
| CoinsView.BatchWriteOk | bitcoin-31.1-modified/src/coins.cpp:208-277 | writing a child into its parent makes the parent show what the child showed, keeps the invariant towards the grandparent and never throws |
| CoinsView.FlushKeeps | bitcoin-31.1-modified/src/coins.cpp:279-289 | Flush leaves the visible set unchanged, makes the base's equal to it and empties the layer |
| CoinsView.SyncKeeps | bitcoin-31.1-modified/src/coins.cpp:291-300 | Sync leaves the visible set unchanged, makes the base's equal to it and keeps exactly the unspent entries, all of them unmodified |
| CoinsRun.StepRefines | bitcoin-31.1-modified/src/coins.cpp:63-323 | one allowed operation (adding, spending and resetting on top; fetching, uncaching, flushing and syncing at any layer; pushing and popping layers) has the same effect on all visible sets as the plain-map operation |
| CoinsRun.RunRefines | bitcoin-31.1-modified/src/coins.cpp:63-323 | every run of allowed operations on a stack of any depth keeps the invariant and computes the visible sets that plain maps give |
| CoinsRun.OverlayFrame | bitcoin-31.1-modified/src/coins.h:538-548 | any run on an overlay that does not write it back leaves every layer below exactly as it was, cached entries included, and Reset then shows the base |
| CoinsRun.OverlayAnswers | bitcoin-31.1-modified/src/coins.h:538-548 | after any such run an overlay answers every lookup as an ordinary cache over the same base does |
| CoinsRun.FlushKeepsBestIff | bitcoin-31.1-modified/src/coins.cpp:279-289 | Flush keeps the best block if and only if the flushed layer has one set, or its base agrees with what lies below it |
| CoinsRun.SyncKeepsBestIff | bitcoin-31.1-modified/src/coins.cpp:291-300 | the same for Sync |
| CoinsRun.StepBests | bitcoin-31.1-modified/src/coins.cpp:197-308 | writing a layer back hands its best block down, null or not; setting and resetting change the top's own; nothing else changes any |
| CoinsRun.RunBests | bitcoin-31.1-modified/src/coins.cpp:197-308 | so over every run the best block of every layer is what these rules make it |
| CoinsRun.FetchFills | bitcoin-31.1-modified/src/coins.cpp:63-81 | a lookup that finds a coin leaves an entry for it in every ordinary cache it goes through |
| CoinsFresh.AddSharpIff | bitcoin-31.1-modified/src/coins.cpp:89-130 | adding keeps the flags exact (an entry is FRESH exactly if the layer below shows nothing) if and only if it does not add, with overwriting allowed, where the layer has no entry and the layers below show nothing |
| CoinsFresh.BlindExample | bitcoin-31.1-modified/src/coins.cpp:89-130 | a concrete such call, after which spending leaves an erase of a coin that the database never held |
| CoinsFresh.MergeEntrySharp | bitcoin-31.1-modified/src/coins.cpp:208-277 | a merged entry is FRESH exactly if the grandparent shows nothing, and is dropped exactly if it is spent and the grandparent shows nothing |
| CoinsFresh.RunSharp | bitcoin-31.1-modified/src/coins.cpp:63-323 | over every run without such calls the FRESH flags of all layers stay exact |
| CoinsFresh.NowhereTraceless | bitcoin-31.1-modified/src/coins.cpp:63-323 | with exact flags an outpoint that no layer shows has no entry in any layer |
| CoinsFresh.RunTraceless | bitcoin-31.1-modified/src/coins.cpp:63-323 | so a coin that such a run creates and spends again, whatever was flushed, synced, pushed or popped in between, leaves no entry in any layer once it is shown nowhere |
| CoinsFresh.ErasesHeld | bitcoin-31.1-modified/src/coins.cpp:63-323 | and the database is asked to erase only coins that it holds |
| CoinsFresh.SpentBelow | bitcoin-31.1-modified/src/coins.cpp:153-289 | a FRESH coin is still FRESH after any number of Flush calls into layers without an entry, and spending it there drops its entry |
| CoinsFresh.AddedAndSpent | bitcoin-31.1-modified/src/coins.cpp:89-289 | so a coin added over an outpoint without a trace, flushed down through any number of caches and spent there leaves no trace |
| CoinsRun.BestLostExample | bitcoin-31.1-modified/src/coins.cpp:279-289 | a concrete stack in which Flush loses the best block |
| CoinsRing.LinkLastLinked | bitcoin-31.1-modified/src/coins.h:127-139 | adding the first flag to an entry appends the entry to the circular list; neighbours stay mutually inverse |
| CoinsRing.UnlinkLinked | bitcoin-31.1-modified/src/coins.h:175-182 | clearing flags removes exactly that entry from the circular list |
| CoinsRing.WalkAt | bitcoin-31.1-modified/src/coins.h:186-209 | walking from the sentinel visits the flagged entries in order with inverse links |
| CoinsRing.DrainedEntries | bitcoin-31.1-modified/src/coins.h:279-294 | after a non-erasing cursor has passed over the list no entry is flagged, spent entries are gone and the memory sum is unchanged |
| CoinsRing.MergeListed | bitcoin-31.1-modified/src/coins.cpp:208-277 | visiting only the listed entries merges the same as visiting all of them |
| CoinsRing.DirtyCount | bitcoin-31.1-modified/src/coins.cpp:351-381 | the number of dirty entries is the length of the list |
| CoinsRing.UsageCleaned | bitcoin-31.1-modified/src/coins.h:279-294 | dropping spent entries, whose coins are null, does not change the memory sum |
| CoinsDisk.MergeAgain | bitcoin-31.1-modified/src/txdb.cpp:141-152 | writing entries again after some of them were written ends where writing them once ends |
| CoinsDisk.CrashSafe | bitcoin-31.1-modified/src/txdb.cpp:115-179 | after a crash between any two batches every outpoint holds its old or its new coin, the database knows that it is interrupted and from which block it came, and writing again towards the same block ends exactly where the write would have ended |
| CoinsCache.CoinsViewDb.WriteBatch | bitcoin-31.1-modified/src/txdb.cpp:157-157 | a batch takes effect as a whole |
| CoinsCache.CoinsViewDb.BatchWrite | bitcoin-31.1-modified/src/txdb.cpp:115-179 | the database after a write, also one that resumes an interrupted one, holds the merged coins and the given tip, whatever the batches; each state between two batches holds some of the entries and the marker; the cursor has passed over every entry |
| CoinsStack.FlushAt | bitcoin-31.1-modified/src/coins.cpp:279-289 | flushing a layer in the middle of a stack of objects leaves every layer above valid and does to the stack what it does to the stack as a value |
| CoinsStack.SyncAt | bitcoin-31.1-modified/src/coins.cpp:291-300 | the same for Sync |
| CoinsStack.UncacheAt | bitcoin-31.1-modified/src/coins.cpp:310-323 | the same for Uncache |
| CoinsStack.GetAt | bitcoin-31.1-modified/src/coins.cpp:83-87 | the same for a lookup, which returns the coin that layer shows |
| CoinsStack.Do | bitcoin-31.1-modified/src/coins.cpp:63-323 | one call on a stack of objects, at any layer, keeps all layers valid and does what it does to the stack as a value |
| CoinsStack.RunOn | bitcoin-31.1-modified/src/coins.cpp:63-323 | every run on a stack of objects of any depth: all bookkeeping stays exact and every layer shows what a plain map given the same calls holds; best blocks follow their rules, and FRESH flags stay exact if they were and no coin is added blindly |
| CoinsCache.CoinsViewCache.SetBestBlock | bitcoin-31.1-modified/src/coins.cpp:204-206 | sets the best block and nothing else |
| CoinsCache.CoinsViewCache.constructor | bitcoin-31.1-modified/src/coins.cpp:52-57 | a new cache shows its base |
| CoinsCache.CoinsViewCache.AddFlags | bitcoin-31.1-modified/src/coins.h:127-139 | flags are added in place and the list stays exact |
| CoinsCache.CoinsViewCache.SetClean | bitcoin-31.1-modified/src/coins.h:175-182 | flags are cleared in place and the list stays exact |
| CoinsCache.CoinsViewCache.Erase | bitcoin-31.1-modified/src/coins.h:167-170 | destroying an entry takes it off the list first |
| CoinsCache.CoinsViewCache.PeekCoin | bitcoin-31.1-modified/src/coins.cpp:44-50 | the visible coin, without changing any layer |
| CoinsCache.CoinsViewCache.FetchCoinFromBase | bitcoin-31.1-modified/src/coins.cpp:63-66 | the base's visible coin; an overlay changes no object below it, not even the order of a list |
| CoinsCache.CoinsViewCache.FetchCoin | bitcoin-31.1-modified/src/coins.cpp:68-81 | the new state is that of the value-level fetch, with list, dirty count and memory sum exact; an overlay changes no object below it |
| CoinsCache.CoinsViewCache.GetCoin | bitcoin-31.1-modified/src/coins.cpp:83-87 | returns the coin that was visible; an overlay changes no object below it |
| CoinsCache.CoinsViewCache.AddCoin | bitcoin-31.1-modified/src/coins.cpp:89-130 | the new state is that of the value-level add; throws exactly when an unspent entry would be overwritten; valid afterwards if and only if not misused |
| CoinsCache.CoinsViewCache.SpendCoin | bitcoin-31.1-modified/src/coins.cpp:153-175 | the new state is that of the value-level spend; says whether an entry was found, spent or not, and moves out its coin; an overlay changes no object below it |
| CoinsCache.CoinsViewCache.Uncache | bitcoin-31.1-modified/src/coins.cpp:310-323 | removes an unmodified entry, keeping all bookkeeping exact |
| CoinsCache.CoinsViewCache.Reset | bitcoin-31.1-modified/src/coins.cpp:302-308 | empties the cache and its best block |
| CoinsCache.CoinsViewCache.NextAndMaybeErase | bitcoin-31.1-modified/src/coins.h:279-294 | one step of the cursor: returns the next list entry and keeps the drained prefix exact |
| CoinsCache.CoinsViewCache.WriteOne | bitcoin-31.1-modified/src/coins.cpp:211-273 | one entry of a batch is merged in place with list, count and memory sum exact |
| CoinsCache.CoinsViewCache.BatchWrite | bitcoin-31.1-modified/src/coins.cpp:208-277 | the whole batch, looping over the child's list while changing the parent, equals the value-level merge |
| CoinsCache.CoinsViewCache.Flush | bitcoin-31.1-modified/src/coins.cpp:279-289 | the new state of the whole stack is that of the value-level flush |
| CoinsCache.CoinsViewCache.Sync | bitcoin-31.1-modified/src/coins.cpp:291-300 | the new state is that of the value-level sync, the list is empty and the dirty count 0 |
| CoinsCache.CoinsViewCache.SanityCheck | bitcoin-31.1-modified/src/coins.cpp:351-381 | the walk over the list and the recount over all entries succeed in every valid state |
| CheckQueue.StepOk | bitcoin-31.1-modified/src/checkqueue.h:72-137 | every step of every thread keeps the invariant, whatever the interleaving |
| CheckQueue.CompleteIsExact | bitcoin-31.1-modified/src/checkqueue.h:72-137 | in every run, each Complete returns nothing exactly when all checks of its round pass, and otherwise the error of a check of that same round |
| CheckQueue.ReturnOk | bitcoin-31.1-modified/src/checkqueue.h:98-106 | when the master returns, all checks of the round are finished and no result is left for the next one |
| CheckQueue.NoLostWakeUp | bitcoin-31.1-modified/src/checkqueue.h:80-136 | in every run the number of checks to do is the queue length plus all unfinished batches, and while the master is asleep without a pending wake-up some worker still holds a batch |
| CheckQueue.NeverStuck | bitcoin-31.1-modified/src/checkqueue.h:72-137 | while the master is inside Complete and the queue is not being destroyed, some thread can take a step that lowers the potential |
| CheckQueue.ThreadStepLess | bitcoin-31.1-modified/src/checkqueue.h:72-137 | while not stopping, every step of a thread lowers the potential or is a spurious wake-up that changes nothing |
| CheckQueue.BoundedWork | bitcoin-31.1-modified/src/checkqueue.h:72-137 | so threads can take no more steps that change something than the potential they start with, until new work is added |
| CheckQueue.BatchFits | bitcoin-31.1-modified/src/checkqueue.h:116-124 | a batch has at least one check and no more than the queue holds |
| CheckQueue.BatchShare | bitcoin-31.1-modified/src/checkqueue.h:111-116 | a batch of more than one check is within the batch size and within a thread's share, idle threads counted twice, and is the largest such |
| CheckQueue.QueueNeverSleeps | bitcoin-31.1-modified/src/checkqueue.h:163-180 | in every run, while checks are queued and Add has notified, some worker is awake or has been notified |
| CheckQueue.FirstErrorStays | bitcoin-31.1-modified/src/checkqueue.h:80-106 | the first error that is handed in stays the result until Complete returns it |
| CheckQueue.TakenAfterError | bitcoin-31.1-modified/src/checkqueue.h:120-121 | a batch that is taken after an error has been stored is marked to be skipped |
| CheckQueue.SkipsWork | bitcoin-31.1-modified/src/checkqueue.h:123-129 | and then no check of it is executed |
| SkipHeights.InvertLowestOneIs | bitcoin-31.1-modified/src/chain.cpp:69-70 | clearing the lowest one bit subtracts the largest power of two dividing the number |
| SkipHeights.SkipHeightBelow | bitcoin-31.1-modified/src/chain.cpp:72-81 | skip heights lie strictly below the height |
| SkipHeights.SkipsBound | bitcoin-31.1-modified/src/chain.cpp:72-81 | skip pointers lead to the genesis block in no more steps than the height has one bits |
| SkipHeights.StepsAbove | bitcoin-31.1-modified/src/chain.cpp:91-105 | the search leaves the heights above the highest bit in which it differs from the target after at most two steps for each one bit below, and one |
| SkipHeights.StepsBound | bitcoin-31.1-modified/src/chain.cpp:75-105 | so from any height below 2^m the search takes at most m * m steps to any lower height |
| Chain.BlockIndex.GetAncestor | bitcoin-31.1-modified/src/chain.cpp:83-108 | the skip-list search returns what walking parent links returns, and null outside the range; with all skip pointers set it takes at most m * m steps from a height below 2^m |
| Chain.BlockIndex.BuildSkip | bitcoin-31.1-modified/src/chain.cpp:115-119 | the skip pointer becomes the ancestor at the skip height |
| Chain.EqualSkipHeights | bitcoin-31.1-modified/src/chain.cpp:162-171 | blocks of equal height have skip pointers of equal height |
| Chain.CommonBelowSkip | bitcoin-31.1-modified/src/chain.cpp:164-171 | while skip pointers differ, every common ancestor lies at or below both |
| Chain.LastCommonAncestor | bitcoin-31.1-modified/src/chain.cpp:153-178 | returns the highest block that is an ancestor of both, or null if there is none |
| Chain.ActiveChain.SetTip | bitcoin-31.1-modified/src/chain.cpp:16-24 | although it stops early, every index holds the new tip's ancestor at that height |
| Chain.ActiveChain.FindFork | bitcoin-31.1-modified/src/chain.cpp:50-59 | returns the highest block that is in the chain and an ancestor of the argument |
| Chain.LocatorShape | bitcoin-31.1-modified/src/chain.cpp:26-43 | locator heights start at the block, fall strictly and end at the genesis block |
| Chain.LocatorAt | bitcoin-31.1-modified/src/chain.cpp:26-43 | the heights themselves: the block and the ten before it, and then steps of 1, 2, 4, 8 and so on until the genesis block |
| Chain.LocatorTail | bitcoin-31.1-modified/src/chain.cpp:26-43 | doubling steps cover the rest in logarithmically many entries |
| Chain.LocatorLength | bitcoin-31.1-modified/src/chain.cpp:26-43 | a locator has at most eleven entries more than the height has bits |
| Chain.LocatorHashesAt | bitcoin-31.1-modified/src/chain.cpp:26-43 | a locator lists the hashes of the ancestors at the locator heights |
| Chain.LocatorEntries | bitcoin-31.1-modified/src/chain.cpp:26-43 | the loop over skip pointers computes that locator |
| ArithUint.FromU64 | bitcoin-31.1-modified/src/arith_uint256.h:43-49 | two limbs hold a 64-bit number |
| ArithUint.Complement | bitcoin-31.1-modified/src/arith_uint256.h:51-57 | the complement is the modulus less one less the value |
| ArithUint.Negate | bitcoin-31.1-modified/src/arith_uint256.h:59-66 | negation modulo the modulus |
| ArithUint.AddAssign | bitcoin-31.1-modified/src/arith_uint256.h:117-127 | limb addition with carry is addition modulo the modulus |
| ArithUint.SubAssign | bitcoin-31.1-modified/src/arith_uint256.h:129-133 | subtraction modulo the modulus |
| ArithUint.Increment | bitcoin-31.1-modified/src/arith_uint256.h:155-162 | increment modulo the modulus, also when every limb wraps |
| ArithUint.Decrement | bitcoin-31.1-modified/src/arith_uint256.h:172-179 | decrement modulo the modulus, also from zero |
| ArithUint.MulU32 | bitcoin-31.1-modified/src/arith_uint256.cpp:47-57 | multiplication by one limb modulo the modulus |
| ArithUint.AddShiftedProduct | bitcoin-31.1-modified/src/arith_uint256.cpp:63-70 | one row of the schoolbook product is added, less what is lost at the top |
| ArithUint.MulAssign | bitcoin-31.1-modified/src/arith_uint256.cpp:59-73 | the double carry loop is multiplication modulo the modulus |
| ArithUint.CompareTo | bitcoin-31.1-modified/src/arith_uint256.cpp:101-111 | orders by value |
| ArithUint.Bits | bitcoin-31.1-modified/src/arith_uint256.cpp:155-168 | the number of bits of the value |
| ArithUint.ShiftLeft | bitcoin-31.1-modified/src/arith_uint256.cpp:13-28 | multiplication by a power of two modulo the modulus, for every shift |
| ArithUint.ShiftRight | bitcoin-31.1-modified/src/arith_uint256.cpp:30-45 | division by a power of two, for every shift |
| Shifts.LeftValue | bitcoin-31.1-modified/src/arith_uint256.cpp:13-28 | limbs spliced from two neighbours shifted left make the product with a power of two, modulo the modulus |
| Shifts.RightValue | bitcoin-31.1-modified/src/arith_uint256.cpp:30-45 | limbs spliced from two neighbours shifted right make the quotient by a power of two |
| ArithUint.DivideBit | bitcoin-31.1-modified/src/arith_uint256.cpp:89-96 | one bit of shift-subtract division |
| ArithUint.DivAssign | bitcoin-31.1-modified/src/arith_uint256.cpp:75-99 | the exact quotient; fails exactly for divisor 0 |
| Compact.OverflowIs | bitcoin-31.1-modified/src/arith_uint256.cpp:189-191 | the three-way overflow test holds exactly when the mantissa scaled by the exponent reaches 2^256 |
| Compact.SetCompact | bitcoin-31.1-modified/src/arith_uint256.cpp:175-193 | the value modulo 2^256, the sign flag and the overflow flag of every compact word |
| Compact.TargetNotMax | bitcoin-31.1-modified/src/chain.cpp:129-133 | no target that fits is 2^256 - 1, so adding one does not wrap |
| Compact.WorkIs | bitcoin-31.1-modified/src/chain.cpp:129-133 | the rewritten quotient equals 2^256 divided by the target plus one |
| Compact.EqualTo | bitcoin-31.1-modified/src/arith_uint256.cpp:113-125 | decides whether the number is a given 64-bit one |
| Compact.GetBitsProof | bitcoin-31.1-modified/src/chain.cpp:121-134 | for every compact word: 0 for negative, overflowing or zero targets, and otherwise exactly floor(2^256 / (target + 1)) |
| Compact.CompactReads | bitcoin-31.1-modified/src/arith_uint256.cpp:195-216 | a compact word has the number's byte length (one more when the sign bit would be set) and reads as the number with its low bytes cleared |
| Compact.CompactBest | bitcoin-31.1-modified/src/arith_uint256.cpp:195-216 | no word without a sign stands for a larger number up to the given one than its compact form does |
| Compact.CompactExponent | bitcoin-31.1-modified/src/arith_uint256.cpp:195-216 | the exponent is the number of bytes, and one more exactly if the top byte is at least 0x80 |
| Compact.Recompact | bitcoin-31.1-modified/src/arith_uint256.cpp:195-216 | compacting what a compact word reads as gives the same word |
| Compact.CompactRoundTrip | bitcoin-31.1-modified/src/arith_uint256.cpp:175-216 | for every 256-bit number: reading its compact form clears its low 8*max(0, size-3) bits, raises neither flag and compacts to the same word |
| Compact.GetLow64 | bitcoin-31.1-modified/src/arith_uint256.h:222-226 | the number modulo 2^64 |
| Compact.LeadingBytes | bitcoin-31.1-modified/src/arith_uint256.cpp:198-204 | the three leading bytes |
| Compact.GetCompact | bitcoin-31.1-modified/src/arith_uint256.cpp:195-216 | the limb loops compute that compact word, the best one from below, with the exponent that the bytes give and the sign exactly for a negative number that is not zero; both asserts hold |
| Base58.AlphabetInverse | bitcoin-31.1-modified/src/base58.cpp:19-38 | the two tables are inverse to each other |
| Base58.EncodeFits | bitcoin-31.1-modified/src/base58.cpp:98-112 | 138/100 places suffice for every length, so the carry assert cannot fail |
| Base58.DecodeFits | bitcoin-31.1-modified/src/base58.cpp:53-69 | 733/1000 places suffice for every length, so the carry assert cannot fail |
| Base58.MulAdd | bitcoin-31.1-modified/src/base58.cpp:103-113 | one pass of the carry loop multiplies the number in the buffer and adds a digit, and returns the new length |
| Base58.ConvertToBase58 | bitcoin-31.1-modified/src/base58.cpp:98-119 | the buffer ends up holding the base-58 digits of the number |
| Base58.EncodeBase58 | bitcoin-31.1-modified/src/base58.cpp:89-127 | one '1' per leading zero byte, then the digits of the number |
| Base58.DecodeDigits | bitcoin-31.1-modified/src/base58.cpp:53-86 | the number of the digits, or a refusal for a bad character, trailing text or too long a result |
| Base58.DecodeBase58 | bitcoin-31.1-modified/src/base58.cpp:40-135 | the whole decoder: white space around the text, leading ones, refusal of embedded NUL characters and of results over the limit |
| Base58.DecodeOfEncode | bitcoin-31.1-modified/src/base58.cpp:40-127 | decoding the encoding of any byte string with enough room returns it |
| Base58.EncodeOfDecode | bitcoin-31.1-modified/src/base58.cpp:40-127 | re-encoding any accepted string without white space returns it |
| Bech32Checksum.GeneratorMultiples | bitcoin-31.1-modified/src/bech32.cpp:199-212 | the five constants are the multiples in GF(32) of x^6 modulo the generator of section "Bech32" of BIP 173 |
| Bech32Checksum.PolyMod | bitcoin-31.1-modified/src/bech32.cpp:130-216 | the loop is the fold of the checksum step from 1 |
| Bech32Checksum.PolyStepLinear | bitcoin-31.1-modified/src/bech32.cpp:177-214 | the step is linear over exclusive or |
| Bech32Checksum.PolyStepInjective | bitcoin-31.1-modified/src/bech32.cpp:177-214 | a zero symbol never turns a nonzero state into zero |
| Bech32Checksum.BurstDetected | bitcoin-31.1-modified/src/bech32.cpp:130-216 | two symbol strings that differ within six neighbouring symbols and have equal remainders are equal |
| Bech32Checksum.BurstsChangeChecksum | bitcoin-31.1-modified/src/bech32.cpp:326-339 | at every length, no two codewords under one prefix and encoding agree outside a window of six symbols |
| Bech32Checksum.SingleErrorsDetected | bitcoin-31.1-modified/src/bech32.cpp:326-339 | changing exactly one symbol always changes the remainder |
| Bech32Checksum.ChecksumChecks | bitcoin-31.1-modified/src/bech32.cpp:341-353 | the six appended symbols make the remainder the encoding's constant |
| Bech32Checksum.ChecksumUnique | bitcoin-31.1-modified/src/bech32.cpp:341-353 | no other six symbols do |
| Bech32Checksum.GroupsFold | bitcoin-31.1-modified/src/bech32.cpp:348-351 | folding the six 5-bit groups of a number gives the number back |
| Bech32Checksum.PreparePolynomialCoefficients | bitcoin-31.1-modified/src/bech32.cpp:311-324 | high bits of the prefix, a zero, low bits, then the values |
| Bech32Checksum.VerifyChecksum | bitcoin-31.1-modified/src/bech32.cpp:326-339 | names an encoding exactly if the remainder is its constant |
| Bech32Checksum.CreateChecksum | bitcoin-31.1-modified/src/bech32.cpp:341-353 | computes the six checksum symbols |
| Base58.DecodeTrims | bitcoin-31.1-modified/src/base58.cpp:40-50 | white space around a text does not matter, for all six characters |
| Vectors.Base58Alphabet | bitcoin-31.1-modified/src/base58.cpp:20-20 | the digits are the characters of the published alphabet, in order |
| Vectors.Base58Vectors | bitcoin-31.1-modified/src/test/base58_tests.cpp:27-43 | published encodings of short byte strings |
| Vectors.Bech32Charset | bitcoin-31.1-modified/src/bech32.cpp:22-23 | the symbols are the characters of the published character set, in order |
| Vectors.Bech32Vectors | bitcoin-31.1-modified/src/test/bech32_tests.cpp:15-52 | "a12uel5l" of BIP 173 and "a1lqfn3a" of BIP 350 are the encodings of an empty value list |
| Vectors.CompactVectors | bitcoin-31.1-modified/src/test/arith_uint256_tests.cpp:480-524 | published compact words of small numbers |
| Vectors.RegtestLimit | bitcoin-31.1-modified/src/kernel/chainparams.cpp:575-575 | the compact form of the regression test network's limit, 2^255 - 1, is 0x207fffff |
| GaloisFields.MulAssoc | bitcoin-31.1-modified/src/bech32.cpp:48-76 | multiplication in GF(32) is associative |
| GaloisFields.NextProduct | bitcoin-31.1-modified/src/bech32.cpp:78-112 | multiplying by e commutes with multiplication in GF(1024), an extension of GF(32) by a root e of x^2 + 9x + 23 |
| GaloisFields.RaiseIs | bitcoin-31.1-modified/src/bech32.cpp:78-112 | multiplying k times by e is multiplying by the table entry for k |
| GaloisFields.Primitive | bitcoin-31.1-modified/src/bech32.cpp:158-175 | e is a primitive element: only zero is left in place by some k multiplications by e, for k from 1 to 1022 |
| Bech32Errors.StepIs | bitcoin-31.1-modified/src/bech32.cpp:177-212 | one step of the checksum multiplies a polynomial over GF(32) by x, adds the next coefficient and reduces it modulo the generator polynomial |
| Bech32Errors.RemainderIs | bitcoin-31.1-modified/src/bech32.cpp:132-140 | so from zero the checksum is the packed remainder of the symbols as a polynomial |
| Bech32Errors.EvalShiftIn | bitcoin-31.1-modified/src/bech32.cpp:172-175 | the powers 997, 998 and 999 of e are roots of the generator polynomial: there a step of the checksum is a step of the Horner scheme |
| Bech32Errors.Syndromes | bitcoin-31.1-modified/src/bech32.cpp:218-224 | a word that leaves no remainder evaluates to zero at these three powers |
| Bech32Errors.ErrorsVanish | bitcoin-31.1-modified/src/bech32.cpp:172-175 | three errors within 1023 places whose sums at three consecutive powers of e vanish are all zero |
| Bech32Errors.ThreeErrorsDetected | bitcoin-31.1-modified/src/bech32.cpp:138-142 | two words that leave the same remainder never differ in one to three symbols within a window of 1023 |
| Bech32Errors.ThreeErrorsChangeChecksum | bitcoin-31.1-modified/src/bech32.cpp:327-339 | so under one encoding and prefix no two codewords do |
| Bech32.SymbolRead | bitcoin-31.1-modified/src/bech32.cpp:22-35 | reading a written symbol returns it |
| Bech32.SymbolWritten | bitcoin-31.1-modified/src/bech32.cpp:22-35 | writing a read character gives its lower-case form |
| Bech32.NoOffence | bitcoin-31.1-modified/src/bech32.cpp:286-309 | no position offends exactly if all characters are printable and the letters are of one case |
| Bech32.CheckCharacters | bitcoin-31.1-modified/src/bech32.cpp:286-309 | returns exactly the positions that hold an unprintable character or a letter of another case than the first letter, in order |
| Bech32.FindLastSeparator | bitcoin-31.1-modified/src/bech32.cpp:377-379 | the last '1', or the length if there is none |
| Bech32.Encode | bitcoin-31.1-modified/src/bech32.cpp:357-371 | prefix, separator, and the characters of values and checksum |
| Bech32.ParsesSpells | bitcoin-31.1-modified/src/bech32.cpp:373-400 | a string that passes the decoder's tests is, apart from case, the encoding of what it decodes to |
| Bech32.SpellsParses | bitcoin-31.1-modified/src/bech32.cpp:373-400 | the encoding of valid parts, in either case, passes the decoder's tests |
| Bech32.Decode | bitcoin-31.1-modified/src/bech32.cpp:373-400 | accepts exactly the strings in one case, within the limit, whose lower-case form is the encoding of some parts, and returns those parts |
| Bech32.EncodedSpells | bitcoin-31.1-modified/src/bech32.cpp:357-400 | so decoding an encoding of a printable lower-case prefix and 5-bit values within the limit returns the same encoding, prefix and values |
| CompactBlocks.LayoutAt | bitcoin-31.1-modified/src/blockencodings.cpp:72-88 | prefilled transactions end up at their accumulated positions and nowhere else |
| CompactBlocks.LayoutEmpty | bitcoin-31.1-modified/src/blockencodings.cpp:72-88 | exactly one slot per short id stays empty |
| CompactBlocks.MetMeans | bitcoin-31.1-modified/src/blockencodings.cpp:121-170 | exactly what each state of a short id's slot says about the entries gone through: none listed; the first entry listed is its transaction; emptied exactly if two transactions are listed, of which the second is in the pool or has another witness hash, and no placeholder comes first; taken by a placeholder exactly if the first entry listed is one |
| CompactBlocks.MetHolds | bitcoin-31.1-modified/src/blockencodings.cpp:121-170 | so a slot holds the first transaction listed under its short id, unless a placeholder comes first or two transactions conflict |
| CompactBlocks.TallyCounts | bitcoin-31.1-modified/src/blockencodings.cpp:121-170 | and the counter is the number of short ids whose first entry is a placeholder, or that are listed without a conflict |
| CompactBlocks.StopGoneThrough | bitcoin-31.1-modified/src/blockencodings.cpp:138-175 | each list is gone through to its end, or to the first entry after which the counter is the number of short ids |
| CompactBlocks.FitInside | bitcoin-31.1-modified/src/blockencodings.cpp:72-88 | the tests on prefilled transactions accept exactly the messages that put all of them, none of them null, inside the block |
| CompactBlocks.MatchedStep | bitcoin-31.1-modified/src/blockencodings.cpp:121-170 | one more entry of the pool or the extra list, placeholders included: all slots, the change of the counter, and whether the entry's missing transaction is asked for |
| CompactBlocks.MatchedReconstructed | bitcoin-31.1-modified/src/blockencodings.cpp:118-176 | every non-prefilled slot that is filled holds a candidate listed under its short id, and every slot is as the entries that were looked at leave it |
| CompactBlocks.TallyIs | bitcoin-31.1-modified/src/blockencodings.cpp:118-176 | the counter counts the filled slots and those taken by placeholders |
| CompactBlocks.SeenEnough | bitcoin-31.1-modified/src/blockencodings.cpp:138-175 | despite the early exits, on a new object a short id is met exactly if it is listed at all, and by a placeholder first exactly if its first entry in pool and extra list is one |
| CompactBlocks.CounterExact | bitcoin-31.1-modified/src/blockencodings.cpp:118-176 | on a new object the counter is the number of filled slots plus the number of short ids whose first entry is a placeholder; so it is the number of filled slots exactly if there are none of these |
| CompactBlocks.OverlookedAt | bitcoin-31.1-modified/src/blockencodings.cpp:118-176 | wherever the counter starts: the slot of every short id that has a transaction and no two conflicting ones is filled, if and only if each of these short ids is met among the entries that are looked at, and not by a placeholder first; a transaction that is in the pool and in the extra list is one |
| CompactBlocks.OverlookedExact | bitcoin-31.1-modified/src/blockencodings.cpp:118-176 | on a new object these slots are filled, except exactly where a placeholder comes before the transaction |
| CompactBlocks.NoBlankDefined | bitcoin-31.1-modified/src/blockencodings.cpp:147-176 | both hold, and the call is defined, if no placeholder's short id occurs in the message |
| CompactBlocks.Rebuilds | bitcoin-31.1-modified/src/blockencodings.cpp:191-237 | without foreign transactions under its short ids, merging in the missing transactions in order gives the original list |
| PartialBlock.MakeCompactBlock | bitcoin-31.1-modified/src/blockencodings.cpp:20-33 | the message describes the block it is made from |
| PartialBlock.PartiallyDownloadedBlock.PlacePrefilled | bitcoin-31.1-modified/src/blockencodings.cpp:72-88 | accepts exactly the prefilled lists that are non-null and in range, and lays them out |
| PartialBlock.PartiallyDownloadedBlock.SkipFilled | bitcoin-31.1-modified/src/blockencodings.cpp:97-98 | stays in bounds and stops at the next empty slot |
| PartialBlock.PartiallyDownloadedBlock.MapShortIds | bitcoin-31.1-modified/src/blockencodings.cpp:94-116 | succeeds exactly if the short ids differ and no bucket is too full, and maps the j-th short id to the j-th empty slot |
| PartialBlock.PartiallyDownloadedBlock.MapShortId | bitcoin-31.1-modified/src/blockencodings.cpp:97-99 | one short id is mapped to the next empty slot |
| PartialBlock.PartiallyDownloadedBlock.OfferSlot | bitcoin-31.1-modified/src/blockencodings.cpp:124-137 | one entry for one slot: slot, flag and counter afterwards; not defined exactly where a transaction is there and the entry has none |
| PartialBlock.PartiallyDownloadedBlock.OfferCandidate | bitcoin-31.1-modified/src/blockencodings.cpp:121-170 | one entry from pool or extra list, placeholders included, with the counter exact; defined exactly if its transaction is not asked for in vain |
| PartialBlock.PartiallyDownloadedBlock.OfferAll | bitcoin-31.1-modified/src/blockencodings.cpp:121-176 | a whole list up to the entry after which the counter is the number of short ids; defined exactly if no placeholder is reached whose slot holds a transaction |
| PartialBlock.PartiallyDownloadedBlock.InitData | bitcoin-31.1-modified/src/blockencodings.cpp:59-181 | for every message, pool and extra list, placeholders included: INVALID exactly for unusable messages or an object in use; otherwise FAILED exactly for a short-id collision or a crowded table; otherwise defined exactly if no placeholder is reached whose slot holds a transaction, and then slots and counter are exact (every slot holds the first transaction listed under its short id, unless a placeholder comes first or two conflict, among the entries up to the one that completes the counter), with the exact condition for nothing to be overlooked wherever the counter starts, and on a new object also for the counter to be the number of filled slots |
| PartialBlock.PartiallyDownloadedBlock.MatchEntries | bitcoin-31.1-modified/src/blockencodings.cpp:94-178 | the part of that after the prefilled transactions |
| PartialBlock.PartiallyDownloadedBlock.SearchBoth | bitcoin-31.1-modified/src/blockencodings.cpp:118-176 | the pool and then the extra list: whether the call is defined, and all slots and the counter if it is |
| PartialBlock.PartiallyDownloadedBlock.IsTxAvailable | bitcoin-31.1-modified/src/blockencodings.cpp:183-189 | whether a slot is filled |
| PartialBlock.PartiallyDownloadedBlock.Collect | bitcoin-31.1-modified/src/blockencodings.cpp:198-208 | fills gaps in order, or fails exactly when too few transactions were sent |
| PartialBlock.PartiallyDownloadedBlock.FillBlock | bitcoin-31.1-modified/src/blockencodings.cpp:191-237 | status and block for every number of missing transactions and either answer of the mutation check; cannot be called twice |
| PartialBlock.Relay | bitcoin-31.1-modified/src/blockencodings.cpp:20-237 | for a block that passes the mutation check: message, reconstruction and completion are defined exactly as InitData is, always if no placeholder's short id occurs; if no foreign transaction is listed under the short ids they succeed exactly when these differ and the table is not crowded, and the result is then the original block |
| PartialBlock.BlankCountedExample | bitcoin-31.1-modified/src/net_processing.cpp:1917-1925 | a concrete message and an extra list, with every transaction under its own witness hash and a placeholder under the null hash: the placeholder is counted though its slot stays empty, and the transaction behind it is overlooked |
| PartialBlock.NotDefinedExample | bitcoin-31.1-modified/src/blockencodings.cpp:163-164 | a concrete pool and extra list, with hashes as in the program, for which the witness hash of a missing transaction is asked for |
| PartialBlock.ReusedExample | bitcoin-31.1-modified/src/blockencodings.cpp:59-145 | a concrete message and pool, with hashes as in the program, on an object used before, whose counter was not reset: a transaction is overlooked |
| Differences.DifferenceFormatter.Ser | bitcoin-31.1-modified/src/blockencodings.h:29-34 | writes the distance from the least possible value, or fails exactly for values that do not rise or are too large |
| Differences.DifferenceFormatter.Unser | bitcoin-31.1-modified/src/blockencodings.h:36-42 | reads it back, refusing exactly the sums that overflow 64 bits or the type |
| Differences.GapsInjective | bitcoin-31.1-modified/src/blockencodings.h:23-43 | only one rising list has given distances |
| Differences.WriteIndexes | bitcoin-31.1-modified/src/blockencodings.h:51-54 | writes exactly the strictly rising lists |
| Differences.ReadIndexes | bitcoin-31.1-modified/src/blockencodings.h:51-54 | accepts exactly the streams that writing a rising list within the type produces, and returns that list |
| AddrBook.SwapOk | bitcoin-31.1-modified/src/addrman.cpp:432-454 | exchanging two places of the random order keeps all indexes consistent |
| AddrBook.TouchOk | bitcoin-31.1-modified/src/addrman.cpp:641-645 | changing statistics keeps all indexes consistent |
| AddrSteps.CreateOk | bitcoin-31.1-modified/src/addrman.cpp:416-430 | a created entry is consistent in all indexes, in no table yet |
| AddrSteps.PopOk | bitcoin-31.1-modified/src/addrman.cpp:466-470 | removing an entry that no table refers to keeps all indexes consistent |
| AddrSteps.SetRefOk | bitcoin-31.1-modified/src/addrman.cpp:611-613 | filling a new slot keeps reference counts equal to slot numbers |
| AddrSteps.DropRefOk | bitcoin-31.1-modified/src/addrman.cpp:478-483 | emptying a new slot keeps reference counts equal to slot numbers, and the count asserted positive is |
| AddrSteps.LeaveTriedOk | bitcoin-31.1-modified/src/addrman.cpp:522-526 | taking an entry out of the tried table keeps slots, entries and per-network counts in step |
| AddrSteps.EnterTriedOk | bitcoin-31.1-modified/src/addrman.cpp:544-547 | putting an entry into the tried table keeps slots, entries and per-network counts in step |
| AddrSteps.CollisionsKept | bitcoin-31.1-modified/src/addrman.cpp:912-1001 | pending collisions stay real because ids are not reused and tried slots do not become free |
| AddrSteps.LeaveNewOk | bitcoin-31.1-modified/src/addrman.cpp:506-507 | taking an entry without new slots out of the new counts keeps the totals right per network and overall |
| AddrSteps.EnterNewOk | bitcoin-31.1-modified/src/addrman.cpp:537-538 | counting an entry that is in neither table as new again keeps the totals right per network and overall |
| AddrMan.AddrManImpl.constructor | bitcoin-31.1-modified/src/addrman.cpp:109-125 | an empty manager is valid |
| AddrMan.AddrManImpl.Find | bitcoin-31.1-modified/src/addrman.cpp:401-414 | the id of an address, if any entry has it |
| AddrMan.AddrManImpl.Create | bitcoin-31.1-modified/src/addrman.cpp:416-430 | a new entry under a new id |
| AddrMan.AddrManImpl.SwapRandom | bitcoin-31.1-modified/src/addrman.cpp:432-454 | two places of the random order are exchanged, and nothing else |
| AddrMan.AddrManImpl.Delete | bitcoin-31.1-modified/src/addrman.cpp:456-471 | one entry disappears, with whatever its address leads to, and no other record changes; also among entries that share addresses |
| AddrMan.AddrManImpl.ClearNew | bitcoin-31.1-modified/src/addrman.cpp:473-489 | empties one new slot, deleting the entry exactly if that was its last |
| AddrMan.AddrManImpl.RemoveFromNew | bitcoin-31.1-modified/src/addrman.cpp:495-505 | the scan with early exit takes the entry out of all its new slots, so the assert after it holds |
| AddrMan.AddrManImpl.LeaveNewTable | bitcoin-31.1-modified/src/addrman.cpp:495-509 | takes the entry out of all its new slots and of the new counts |
| AddrMan.AddrManImpl.TakeFromTried | bitcoin-31.1-modified/src/addrman.cpp:517-526 | empties one tried slot; its entry is then in neither table |
| AddrMan.AddrManImpl.ReturnToNew | bitcoin-31.1-modified/src/addrman.cpp:534-538 | puts the displaced entry into a free new slot of its own with reference count 1 |
| AddrMan.AddrManImpl.EnterTriedTable | bitcoin-31.1-modified/src/addrman.cpp:544-547 | puts the entry into its free tried slot |
| AddrMan.AddrManImpl.Evict | bitcoin-31.1-modified/src/addrman.cpp:516-541 | the displaced entry moves from its tried slot to the new slot its source gives, which is cleared first |
| AddrMan.AddrManImpl.MakeTried | bitcoin-31.1-modified/src/addrman.cpp:491-548 | the entry is in exactly its tried slot afterwards; the displaced one is back in the new table |
| AddrMan.AddrManImpl.PlaceNew | bitcoin-31.1-modified/src/addrman.cpp:599-623 | takes a new slot exactly if it is free, holds a terrible entry, or holds one with other slots while the entry has none; else drops an entry in no slot |
| AddrMan.AddrManImpl.Refresh | bitcoin-31.1-modified/src/addrman.cpp:565-593 | a known entry's time moves forward and its services accumulate, nothing else changes, and it says exactly when the entry may get another slot |
| AddrMan.RefreshRecord | bitcoin-31.1-modified/src/addrman.cpp:565-575 | the record with time and services brought up to date, unchanged in all that the tables depend on |
| AddrMan.AddrManImpl.Prepare | bitcoin-31.1-modified/src/addrman.cpp:557-597 | a known entry is refreshed and returned exactly if it qualifies; an unknown one is created with the penalised time |
| AddrMan.AddrManImpl.AddSingle | bitcoin-31.1-modified/src/addrman.cpp:550-624 | the new table changes in at most the slot that address and source give, the tried table not at all; says exactly when a known or an unknown address gets the slot; no other record changes, and that of the address becomes the refreshed or the created one: a slot changes its address only if the one there is terrible, or has another slot while the newcomer has none; times never go back and the services claimed are added to those it had |
| AddrMan.AddrManImpl.Add | bitcoin-31.1-modified/src/addrman.cpp:681-691 | the announcements in turn, each with the effect of AddSingle on the state the one before left; true exactly if one of them took a slot; slots are only gained or overwritten, and only by announced addresses at their slots, each step displacing only what AddSingle may displace |
| AddrMan.AddrManImpl.Succeed | bitcoin-31.1-modified/src/addrman.cpp:632-644 | records a success |
| AddrMan.AddrManImpl.Good | bitcoin-31.1-modified/src/addrman.cpp:626-679 | says exactly when the address moves to the tried table, with both tables afterwards; otherwise they stay and a collision is recorded exactly while there is room; only the record of the address notes the success, without its time; an address that is displaced is not lost but takes the new slot that its own source gives, and every other new slot stays |
| AddrMan.AddrManImpl.Attempt | bitcoin-31.1-modified/src/addrman.cpp:693-711 | exactly the statistics of that entry change, a failure being counted only if none of this address was since the last success of any |
| AddrMan.AddrManImpl.Connected | bitcoin-31.1-modified/src/addrman.cpp:877-894 | the time is refreshed only when over 20 minutes old |
| AddrMan.AddrManImpl.SetServices | bitcoin-31.1-modified/src/addrman.cpp:896-910 | exactly the services of that entry change |
| AddrMan.AddrManImpl.ResolveOne | bitcoin-31.1-modified/src/addrman.cpp:917-965 | a tried slot changes its address if and only if the one there has not been reached for 4 hours, and either was tried over 60 seconds and under 4 hours ago, or not for 4 hours while the newcomer was reached over 40 minutes ago; the collision stays pending exactly in the other cases without a success for 4 hours; with the records and tables all this leads to |
| AddrMan.AddrManImpl.ResolveCollisions | bitcoin-31.1-modified/src/addrman.cpp:912-973 | every pending collision is decided once, each in the state the one before left, with the same conditions on every eviction and on what stays pending; no tried slot becomes free |
| AddrMan.TerribleIs | bitcoin-31.1-modified/src/addrman.cpp:69-91 | who is never given up, and who is, in seconds and numbers of failures |
| AddrMan.SelectionLimits | bitcoin-31.1-modified/src/addrman.cpp:816-822 | the number of addresses is within both limits, and the largest such |
| AddrMan.AddrManImpl.SelectTriedCollision | bitcoin-31.1-modified/src/addrman.cpp:975-1001 | returns the address in the tried slot of a pending live entry and when it was last tried; that slot is never empty |
| AddrMan.AddrManImpl.GetAddr | bitcoin-31.1-modified/src/addrman.cpp:812-851 | different eligible addresses, at most the permitted number and percentage, and all eligible ones unless a limit is met; tables unchanged |
| AddrCheck.CheckEntries | bitcoin-31.1-modified/src/addrman.cpp:1077-1108 | 0 exactly if every entry passes every test, with ids, counts and local totals gathered |
| AddrCheck.CheckTriedTable | bitcoin-31.1-modified/src/addrman.cpp:1115-1130 | nothing wrong and nothing left exactly if tried slots and tried entries correspond |
| AddrCheck.CheckNewTable | bitcoin-31.1-modified/src/addrman.cpp:1132-1145 | nothing wrong and nothing left exactly if new slots are right and reference counts are slot numbers |
| AddrCheck.CheckNewBucket | bitcoin-31.1-modified/src/addrman.cpp:1133-1144 | one bucket: an error is reported only if slots or reference counts are wrong |
| AddrCheck.CheckCounts | bitcoin-31.1-modified/src/addrman.cpp:1154-1163 | 0 exactly if every recorded network total is right |
| AddrCheck.CheckAddrman | bitcoin-31.1-modified/src/addrman.cpp:1063-1166 | for any state: returns 0 exactly if everything it looks at is right |
| AddrCheck.CheckComplete | bitcoin-31.1-modified/src/addrman.cpp:1063-1166 | a consistent manager with a key passes |
| AddrCheck.CheckSound | bitcoin-31.1-modified/src/addrman.cpp:1063-1166 | passing, with no stale addresses, all networks recorded and ids in range, implies the whole invariant, including that the random order is a permutation |
| AddrCheck.CheckExact | bitcoin-31.1-modified/src/addrman.cpp:1063-1166 | with a key, the invariant is exactly the check plus those three conditions |
| AddrCheck.StaleUnnoticed | bitcoin-31.1-modified/src/addrman.cpp:1063-1166 | a concrete inconsistent state that the check passes, because it does not look for addresses that lead to no entry |
| AddrCheck.TotalsUnnoticed | bitcoin-31.1-modified/src/addrman.cpp:1152-1163 | a concrete inconsistent state that the check passes, because totals recorded under another network hide that one is missing |
| AddrCheck.IdUnnoticed | bitcoin-31.1-modified/src/addrman.cpp:1063-1166 | a concrete inconsistent state that the check passes, because it does not look at the next id |
| AddrRun.Do | bitcoin-31.1-modified/src/addrman.cpp:1177-1261 | every public operation keeps the manager valid, frees no tried slot and takes in only routable addresses |
| AddrRun.Run | bitcoin-31.1-modified/src/addrman.cpp:1048-1061 | after every run of operations with positive times from an empty manager the check returns 0, a tried slot once taken stays taken, and, routable addresses being valid, all addresses are valid |
| AddrRun.RunAndReload | bitcoin-31.1-modified/src/addrman.cpp:132-399 | what any such run leaves survives being written and read back: the same address in every slot of both tables, the same records, reference counts and totals |
| AddrRun.TriedSpread | bitcoin-31.1-modified/src/addrman.cpp:48-53 | the addresses of one group fall into at most eight tried buckets |
| AddrRun.TriedHeld | bitcoin-31.1-modified/src/addrman.cpp:48-53 | so in every valid state the tried addresses of one group occupy at most eight buckets |
| AddrRun.NewSpread | bitcoin-31.1-modified/src/addrman.cpp:55-61 | the addresses learned from the sources of one group fall into at most 64 new buckets |
| AddrRun.NewBucketByGroup | bitcoin-31.1-modified/src/addrman.cpp:55-61 | which new bucket an address falls into depends on nothing but the groups of address and source |
| AddrRun.AnnouncedSpread | bitcoin-31.1-modified/src/addrman.cpp:55-61 | so whatever a source announces in one call changes at most 64 buckets of the new table |
| AddrSerialize.WriteNew | bitcoin-31.1-modified/src/addrman.cpp:191-201 | writes the new entries in the given order and numbers them; the count assert holds |
| AddrSerialize.WriteTried | bitcoin-31.1-modified/src/addrman.cpp:202-210 | writes the tried entries in the given order; the count assert holds |
| AddrSerialize.WriteRow | bitcoin-31.1-modified/src/addrman.cpp:212-224 | writes the numbers of the entries of one bucket in slot order |
| AddrSerialize.Serialize | bitcoin-31.1-modified/src/addrman.cpp:132-228 | writes format 4, readable by format 4, with the new entries, the tried entries and all 1024 buckets in the given order; both count asserts hold |
| AddrSerialize.ReadNew | bitcoin-31.1-modified/src/addrman.cpp:283-290 | one new entry is read into all indexes, whatever its address and times |
| AddrSerialize.ReadTried | bitcoin-31.1-modified/src/addrman.cpp:295-313 | one tried entry is read, whatever its times, exactly if its address is valid and its slot is free |
| AddrSerialize.ReadEntries | bitcoin-31.1-modified/src/addrman.cpp:319-331 | the bucket references in range, in order |
| AddrSerialize.Settle | bitcoin-31.1-modified/src/addrman.cpp:348-376 | one reference is restored to its bucket, or else to the slot its source gives, or dropped |
| AddrStore.SeparateIs | bitcoin-31.1-modified/src/addrman.cpp:378-398 | once entries without a slot are gone, with whatever their addresses lead to, addresses and times are consistent exactly if no entry with a slot had an impossible time or shared its address with any other entry |
| AddrStore.PrunedViews | bitcoin-31.1-modified/src/addrman.cpp:378-388 | dropping entries without a slot changes neither table |
| AddrSerialize.Prune | bitcoin-31.1-modified/src/addrman.cpp:378-388 | exactly the entries without a slot are deleted, each with whatever its address leads to; all other records and both tables stay |
| AddrSerialize.CheckFinds | bitcoin-31.1-modified/src/addrman.cpp:393-398 | what the closing check still has to find: a null key, impossible times, addresses that do not lead to their entry |
| AddrSerialize.Unserialize | bitcoin-31.1-modified/src/addrman.cpp:230-399 | for every file: accepted exactly if the header is readable, the totals are possible, all announced records are there, the key is not null, and no entry that gets a slot has an impossible time or shares its address with another entry; the result is then valid, and both tables are those that records and buckets describe; if the asmap version or the number of buckets differs, every new slot is the one its address and source give, so no address has two |
| AddrRead.AllRead | bitcoin-31.1-modified/src/addrman.cpp:341-384 | what the bucket references do, one by one: every new slot is given by a reference to a valid address, in its bucket if the buckets are the same or where its source puts it; and every such reference finds its slot taken afterwards, unless the address has eight |
| AddrRead.RereadFrom | bitcoin-31.1-modified/src/addrman.cpp:279-384 | so for every file the new entries are its new records, a tried slot holds the first record with a valid address that belongs there, and new slots are those that the references give |
| AddrRead.PrunedFrom | bitcoin-31.1-modified/src/addrman.cpp:386-391 | dropping entries without a slot changes nothing of this |
| AddrRead.Rebucketed | bitcoin-31.1-modified/src/addrman.cpp:341-374 | if the buckets do not count, every new slot is the one that its entry's address and source give, and no entry has two |
| AddrSerialize.TotalsBounded | bitcoin-31.1-modified/src/addrman.cpp:268-280 | the written totals are always within the limits the reader enforces |
| AddrSerialize.TotalsByView | bitcoin-31.1-modified/src/addrman_impl.h:226-232 | per-network totals count the addresses the tables hold |
| AddrSerialize.RefCountByView | bitcoin-31.1-modified/src/addrman_impl.h:63-64 | a reference count is the number of new slots that hold the address |
| AddrStore.NewsCopied | bitcoin-31.1-modified/src/addrman.cpp:282-291 | new entries come back under the numbers they were written under |
| AddrStore.TriedsCopied | bitcoin-31.1-modified/src/addrman.cpp:293-314 | no tried entry is lost |
| AddrStore.ReferenceBack | bitcoin-31.1-modified/src/addrman.cpp:348-365 | every written bucket reference finds its slot free and its entry below the reference limit |
| AddrStore.RecordsBack | bitcoin-31.1-modified/src/addrman.cpp:282-314 | entries come back with the same time, services, source and statistics |
| AddrStore.BucketsBack | bitcoin-31.1-modified/src/addrman.cpp:316-376 | every new slot gets its entry back |
| AddrStore.RoundTrip | bitcoin-31.1-modified/src/addrman.cpp:132-399 | if all addresses are valid, reading what was written, with the asmap version unchanged, puts the same address into the same slot of both tables, with the same time, services, source and statistics |
| AddrSerialize.Reload | bitcoin-31.1-modified/src/addrman.cpp:132-399 | the same for the writing and reading loops, with equal reference counts and per-network totals, and no refusal |

## Left out

- Coin cache: SetBackend, AccessCoin, HaveCoin, HaveInputs, AddCoins and AccessByTxid add only lookups built from the
  modelled ones; EmplaceCoinInternalDANGER is a loading back door outside the normal contract; ReallocateCache and the
  pool allocator do not change contents; the caching side effect of GetBestBlock is not modelled.
- CoinsDisk.CrashSafe: resuming is writing the same entries again; how ReplayBlocks finds them by replaying blocks is
  not modelled.
- Coin database: a cache opened over an interrupted database; the caches here are created over one without head
  blocks. When a batch is full is given as the set of entries after which it is.
- Memory sum: `DynamicMemoryUsage` is computed from the length of a script, where the program asks for the allocated
  capacity.
- Moved-from coins: during an erasing flush the source moves coins out of entries that are about to be dropped; the
  model leaves them unchanged until they are dropped.
- CoinsCache.CoinsViewCache.SanityCheck: stated for valid states only, because walking a broken list need not end.
- Widths of the coin cache's counters (size_t) and of block heights and locator steps (int).
- Check queue: the outcome of a check is a function of the check; the order of thread start-up and the destructor's
  joins are not modelled beyond the stop flag.
- Block index: FindEarliestAtLeast, GetMedianTimePast, RaiseValidity and GetBlockProofEquivalentTime.
- Limb arithmetic: getdouble, hexadecimal output and the bitwise operators.
- Base58: Base58Check, and lengths at which an int buffer size would overflow.
- Bech32: LocateErrors, its logarithm and syndrome tables, and the detection of four errors within 89 symbols, which
  rests on a search among possible generators; prefix bytes above 127, whose sign the original leaves to the platform, are
  taken as unsigned.
- Compact blocks: extra_count, which is only logged; the bucket-size limit of the hash table, given as the set of
  insertions after which it is exceeded; messages of more
  than 65535 transactions, which deserialization refuses; transaction encodings.
- Differences: how one number is written as bytes, and the size limit on reading it.
- Address manager: Select_, GetChance and other probabilities; GetEntries_, Size_ and FindAddressEntry_, which only
  read; locks and logging; the order in which pending collisions are visited, which is arbitrary here.
- Address manager file: the byte encodings, the marker bit in the bucket count, and the formats before asmap versions
  beyond the missing version.
- Everything else in the repository: consensus rules, networking, wallet, scripts, block filters, compression, command
  line and file handling.
