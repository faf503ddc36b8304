# Verified models of QuantBTC

QuantBTC is a Bitcoin Core fork whose blocks form a DAG ordered by GHOSTDAG. This project models the parts of it
whose correctness rests on an invariant over many steps, and proves those invariants. `dafny verify dfyconfig.toml`
checks everything.

| part | files | main results |
|---|---|---|
| UTXO cache stack | `CoinEntries`, `CoinsCache`, `CoinsRun` | every run of operations on a stack of caches of any depth refines a stack of plain maps, with the same answers (`CoinsRun.Run`) |
| address manager | `AddrTables`, `AddrEffects`, `AddrCheck`, `AddrMan` | six redundant structures stay in step over every run, each operation does what it is for, the self-check never fails, filled tried slots never empty (`AddrManImpl.Run`) |
| its file | `AddrLoad`, `AddrRestore`, `AddrSerial`, `AddrTrip` | saving and loading gives back the same manager up to ids (`RoundTrip`); any other file is rejected or gives a consistent manager that lost nothing but for collisions or for not being valid (`Unserialize`) |
| parallel check queue | `CheckQueue` | in every interleaving, `Wait` answers right and no check is lost (`EveryRun`), and every schedule without spurious wake-ups makes it return within a bound (`EveryWaitReturns`) |
| 256-bit arithmetic, work | `Bits`, `Limbs`, `LimbShifts`, `ArithUint`, `CompactTarget`, `BlockProof` | limb loops compute modulo 2^256; compact targets round trip; block proof is 2^256/(t+1) |
| block index and chain | `SkipHeights`, `BlockTree`, `ActiveChain`, `BlockMap` | skip list = parent walk, in a number of links quadratic in the bits of the height; array chain = ancestors of the tip; locators are logarithmic |
| compact blocks | `CompactBlocks`, `CompactRelay`, `BlockRelay` | a whole relay round rebuilds the block, whatever transactions its sender sends along (`BlockRelay.Relay`, `BlockRelay.Receive`) |
| address codecs | `Bech32Poly`, `Bech32Field`, `Bech32`, `Bech32Codec`, `Radix`, `Base58`, `Base58Trip` | encode and decode are inverse, with exact conditions (`DecodeIff`, twice); the Bech32 checksum is the remainder modulo the generator over the field of 32 elements (`ChecksumIsRemainder`) |
| GHOSTDAG | `Dag`, `Mergeset`, `Ghostdag`, `DagAgreement`, `TopoOrder`, `AncestorSearch` | for the code's own ancestor search and any other that looks at the past alone: the set merged, the only colours that fit it (`ColouredIff`), and exactly when they are the documented ones (`DocumentedIff`, `ChainCutIff`, `AnswerExactIff`) |
| DAG nodes | `DagNode`, `DagRuns`, `DagLate`, `DagDelivery`, `DagLinks`, `DagTips`, `DagTipRun`, `DagWitness` | over every run of headers and bodies in which blocks are taken in after their parents, all data is right throughout (`TimelyDataRight`) and the tips are the childless blocks (`TimelyTips`); for late parents, exactly when selected parent and score are right (`LateParentIff`); two deliveries of the same blocks with parents first end the same in any order (`Delivered`) |

Objects the program updates in place are classes (`CoinsViewCache`, `AddrManImpl`, `BaseUint`, `BlockIndex`, `Chain`,
`BlockManager`, `PartiallyDownloadedBlock`, `DifferenceFormatter`, `DagTipSet`); the check queue, whose threads
interleave, is a state machine over its critical sections; what only computes is functions.
Hashes (`SipHash`, the bucket hashes, SHA256 checksums), clocks, random draws, the iteration order of hash tables,
the outcome of a database commit and whole-block validation are parameters, and the theorems hold for all of them.
The GHOSTDAG theorems take the ancestor test of the block provider as a parameter too; `AncestorSearch` shows that the
search the program ships meets what they ask of it.

## Where the code and its comments differ

The model follows the code.

- `SpendCoin` (src/coins.cpp:132-152) also returns true for an entry that is cached and already spent; its comment
  says the call has no effect then.
- `Sync` (src/coins.cpp:265-276) drops all flags even if the database refuses the batch, so the changes are lost to
  later writes; `CoinEntries.RefusedSync` says when that does no harm. A refused `Flush` keeps them, but zeroes the
  memory total.
- The mergeset search (src/dag/ghostdag.cpp:77-143) collects every parent but the selected one, even a parent behind
  it, and goes on behind the selected parent wherever the ancestor search says no;
  `Mergeset.DocumentedIff` says exactly when it computes the set its comment defines.
- Blocks beyond depth 2K of the selected chain are not all in the past of every merged block, as the comment at
  src/dag/ghostdag.cpp:44-48 says (`DagWitness.DeepBlockConcurrent`, with `Ghostdag.DeepInPastIff` for when they are).
  The conclusion it draws is nevertheless right for every block beyond the selected parent's past
  (`Ghostdag.BeyondFits`), can be wrong for a parent behind it (`DagWitness.CutMattersBehind`), and is right exactly
  when `Ghostdag.ChainCutIff` says.
- The ancestor search (src/dag/ghostdag_blockindex.h:75-151) can deny an ancestor behind a parent that is higher than
  its child, or as high, although its comment says it never does (`AncestorSearch.HigherParentDenied`,
  `AncestorSearch.FlatLinkDenied`, both in indexes that header checks allow); `AncestorSearch.AnswerExactIff` says
  when it is right.
- `AcceptBlock` means to refuse a block whose parent has no GHOSTDAG data yet (src/validation.cpp:4683-4689), but the
  data of an index entry is never missing, only empty. A body that comes before its parent's is scored on empty data
  and never again (`DagLate.LateBody`); so is one on a parent that was itself refused. Selected parent and score come
  out right exactly when the best parent was taken in before or has no score (`DagLate.LateParentIff`), with one parent
  all data does (`DagLate.OneParentIff`), and a late parent that is not the best can do no harm
  (`DagLate.LateHarmless`, with `DagLate.StillRightIff`). If no parent is late, all data is right
  (`DagRuns.TimelyDataRight`).
- A header whose further parent descends from its main parent is refused only if that parent is known already
  (src/validation.cpp:4421-4443), so acceptance depends on the order of arrival (`DagWitness.HeaderOrderMatters`).
- `BlockDisconnected` (src/dag/dagtipset.cpp:50-75) makes parents tips again that still have another child
  (`DagTips.SharedParentReturns`); `DagTips.DisconnectIff` says when the tips come out right. Connecting a parent
  after its child makes it a tip as well (`DagTips.LateParentTip`); `DagTips.ThroughoutIff` says which orders give
  the childless blocks all along.
- `TopologicalOrder` (src/dag/ghostdag.cpp:270-323) promises the order of blue scores (src/dag/ghostdag.h:134-143), and
  keeps that promise exactly if scores rise along the links among the blocks given; the data of the virtual block it
  takes is not looked at (`TopoOrder.TopologicalOrder`).

## Model

| member | source | states |
|---|---|---|
| `CoinEntries.AddSoundIff` | src/coins.cpp:70-108 | the entry `AddCoin` leaves, FRESH or not, is right against the parent if and only if overwriting was announced or nothing was visible |
| `CoinEntries.SpendSound` | src/coins.cpp:132-152 | dropping a FRESH entry and marking any other both make the coin invisible and keep the entry rule |
| `CoinEntries.MergeSound` | src/coins.cpp:191-248 | one entry handed up: "FRESH flag misapplied" cannot happen, the parent then shows what the child showed, and the parent's own rule against the grandparent holds |
| `CoinEntries.MergeAllAt` | src/coins.cpp:185-252 | in a whole batch every key is merged once, from what the parent held at the start; other keys keep their entry |
| `CoinEntries.MergeAllSound` | src/coins.cpp:185-252 | after a batch the parent's view is the child's old view, and the parent is right against the grandparent |
| `CoinEntries.StoreAllAt` | src/txdb.cpp:91-150 | a database batch changes exactly the dirty keys, to what the cache showed for them |
| `CoinEntries.StoreAllSound` | src/txdb.cpp:91-150 | after the batch the database's unspent coins are exactly the coins the cache showed |
| `CoinEntries.SyncSound` | src/coins.h:278-293 | an entry kept by the cursor is right against the parent's new view and shows the same |
| `CoinEntries.SyncedSound` | src/coins.cpp:265-276 | a cache kept after handing up holds no flag, is right against the new view below and shows the same |
| `CoinEntries.RefusedSync` | src/coins.cpp:265-276 | if the database refuses what a sync hands it, the level is still right and shows the same if and only if it had nothing to hand down |
| `CoinEntries.UnflaggedAgrees` | src/coins.cpp:278-291 | an entry that is not dirty never differs from the view below, so it may be uncached |
| `CoinEntries.LinkOk` | src/coins.h:165-175 | the linked list holds each flagged entry once and nothing else, when flags are added |
| `CoinEntries.UnlinkOk` | src/coins.h:176-182 | and when an entry leaves |
| `CoinEntries.RulesAreSane` | src/coins.cpp:319-350 | a cache that keeps the rules always passes `SanityCheck`: only the five legal flag combinations occur |
| `CoinEntries.TotalUsageAt` | src/coins.cpp:331-332 | the memory total does not depend on the order of summation |
| `CoinsCache.Recount` | src/coins.cpp:323-336 | the first walk of `SanityCheck` decides flag legality and finds the true usage and number of flagged entries |
| `CoinsCache.AllFlagged` | src/coins.cpp:337-347 | the walk along the list succeeds exactly when every listed key is cached and flagged |
| `CoinsCache.CoinsViewDB.Collect` | src/txdb.cpp:110-140 | the batch gathered is the specified one, and the cursor leaves the child as its mode demands |
| `CoinsCache.CoinsViewDB.BatchWrite` | src/txdb.cpp:91-150 | a committed batch stores what the cache showed and the new best block; a failed commit stores nothing |
| `CoinsCache.CoinsViewCache.NextAndMaybeErase` | src/coins.h:278-293 | the cursor erases a spent entry and unflags any other, or leaves all alone, keeping list and usage in step |
| `CoinsCache.CoinsViewCache.FetchCoin` | src/coins.cpp:45-59 | fetching fills caches at every depth and changes no view of any level |
| `CoinsCache.CoinsViewCache.GetCoin` | src/coins.cpp:61-68 | the answer is the visible coin, never a spent one |
| `CoinsCache.CoinsViewCache.AddCoin` | src/coins.cpp:70-108 | the visible map gains the coin, unless it is unspendable; throws exactly on an unannounced overwrite, and then changes no view and keeps the stack valid |
| `CoinsCache.CoinsViewCache.SpendCoin` | src/coins.cpp:132-152 | the visible map loses the coin and the old coin is handed out |
| `CoinsCache.CoinsViewCache.HaveCoin` | src/coins.cpp:165-168 | true exactly for visible coins |
| `CoinsCache.CoinsViewCache.BatchWrite` | src/coins.cpp:185-252 | this cache then shows what the child showed, with its stack valid and the misapplied-flag error unreachable |
| `CoinsCache.CoinsViewCache.Flush` | src/coins.cpp:254-263 | the parent's view becomes the child's old view, the child's view stays, the child is empty; if the database refuses, every view and entry stays and only the memory total is lost |
| `CoinsCache.CoinsViewCache.Sync` | src/coins.cpp:265-276 | the same, keeping the unspent entries without flags; after a refused write the stack is valid if and only if nothing was to be written |
| `CoinsCache.CoinsViewCache.Uncache` | src/coins.cpp:278-291 | exactly an unflagged entry is dropped, and no view changes |
| `CoinsCache.CoinsViewCache.HaveInputs` | src/coins.cpp:297-307 | true exactly for a coinbase or when all inputs are visible; no view changes |
| `CoinsCache.CoinsViewCache.SanityCheck` | src/coins.cpp:319-350 | passes exactly when flags, list, usage and count agree |
| `CoinsCache.AddCoins` | src/coins.cpp:121-130 | every spendable output is visible at its outpoint with its value, its script, the height and the coinbase mark; an unspendable one leaves its outpoint, and the transaction every other one, as it was |
| `CoinsRun.Do` | src/coins.cpp:45-276 | any one operation on a stack, a refused flush among them, does what it does on plain maps, with the same answer |
| `CoinsRun.Run` | src/coins.cpp:45-276 | for every stack of any depth and every run that keeps the callers' promises, refused flushes included, the stack stands for the reference maps and gave the reference answers |
| `AddrTables.ClearSlotOk` | src/addrman.cpp:473-489 | emptying a new slot and dropping one reference keeps every reference count exact |
| `AddrTables.FillSlotOk` | src/addrman.cpp:610-613 | so does filling an empty slot of the entry |
| `AddrTables.SwapSound` | src/addrman.cpp:432-454 | a swap in the random order keeps all six structures in step, also where an address is there twice |
| `AddrTables.RemoveLastSound` | src/addrman.cpp:456-471 | so does removing an unreferenced entry |
| `AddrTables.AppendKept` | src/addrman.cpp:416-430 | so does creating one |
| `AddrTables.LeaveTriedKept` | src/addrman.cpp:517-526 | so does taking an entry out of the tried table |
| `AddrTables.EnterTriedKept` | src/addrman.cpp:542-547 | so does putting a reached entry into its empty tried slot |
| `AddrTables.PendingAges` | src/addrman.cpp:903-964 | pending collisions keep pointing at occupied slots as long as slots stay filled and ids are not reused |
| `AddrEffects.ErasedAll` | src/addrman.cpp:495-505 | once an entry's count has reached zero the sweep has emptied all its slots and no other |
| `AddrEffects.PromoteSteps` | src/addrman.cpp:491-548 | leaving the new table, making room and entering the tried table add up to one promotion |
| `AddrEffects.Judge` | src/addrman.cpp:923-951 | each verdict if and only if: dropped while the holder was reached in the last four hours, kept while it is on trial in the last minute or untested with a newcomer reached lately, else replaced |
| `AddrEffects.IsTerrible` | src/addrman.cpp:69-91 | an entry is worth keeping if and only if it was tried in the last minute, or was heard of in the last thirty days and has not failed three times with no success or ten times with none for a week |
| `AddrEffects.Refreshed` | src/addrman.cpp:559-572 | services only add up; after the penalty the time is renewed if the news is a day newer, never if it is less than an hour newer, and in between just if it is of the last day |
| `AddrMan.AddrManImpl.SwapRandom` | src/addrman.cpp:432-454 | two places are swapped, entries follow, everything stays in step |
| `AddrMan.AddrManImpl.Delete` | src/addrman.cpp:456-471 | exactly the entry goes, from all structures; its asserts hold |
| `AddrMan.AddrManImpl.ClearNew` | src/addrman.cpp:473-489 | the slot is empty, its holder has one reference less and is forgotten with its last; its assert holds |
| `AddrMan.AddrManImpl.DropReferences` | src/addrman.cpp:495-505 | the sweep over all buckets leaves the entry in no slot with count zero, whatever the start bucket |
| `AddrMan.AddrManImpl.MakeTried` | src/addrman.cpp:491-548 | the entry leaves all its new slots for its tried slot; a previous holder goes to its home slot in the new table with one reference, whose holder loses one; all else stays; its three asserts hold |
| `AddrMan.AddrManImpl.Find` | src/addrman.cpp:401-414 | found exactly if the address is known, and then its own entry |
| `AddrMan.AddrManImpl.Create` | src/addrman.cpp:416-430 | a never used id, in step everywhere but for its missing reference |
| `AddrMan.AddrManImpl.PlaceNew` | src/addrman.cpp:599-623 | the entry gets the slot exactly if it is empty, or its holder is terrible, or has other slots while the entry has none; an entry left without a slot is forgotten |
| `AddrMan.AddrManImpl.AddSingle` | src/addrman.cpp:550-624 | nothing for an unroutable address; a known one is refreshed and placed again exactly when it brings news, is not tried, is below eight references and is lucky; an unknown one is created and placed; stays consistent |
| `AddrMan.AddrManImpl.Add` | src/addrman.cpp:681-691 | every address of the batch is offered once, in order, each with the effect of a single addition on the books the one before left; the answer is true if and only if one of them got a slot; a false answer means neither the new table nor the known ids changed |
| `AddrMan.AddrManImpl.Good` | src/addrman.cpp:626-679 | the times are set, and the entry is promoted exactly if it was not tried and nobody has to be tested first; otherwise the collision is noted, at most ten; with testing, nobody leaves the tried table |
| `AddrMan.AddrManImpl.Attempt` | src/addrman.cpp:693-711 | the failure counts once per success of anyone |
| `AddrMan.AddrManImpl.Connected` | src/addrman.cpp:868-885 | only a time more than twenty minutes old is refreshed |
| `AddrMan.AddrManImpl.SetServices` | src/addrman.cpp:887-901 | only the services of the known entry change |
| `AddrMan.AddrManImpl.ResolveOne` | src/addrman.cpp:907-956 | the slot of a pending collision is never found empty, and the collision is dropped, kept or resolved by promotion as `Judge` says, with the exact effect of each |
| `AddrMan.AddrManImpl.ResolveCollisions` | src/addrman.cpp:903-964 | every pending collision is ruled on once, in ascending order, each ruling as `ResolveOne` says and starting where the last ended; exactly those struck off are gone; none of an unknown entry survives, no filled tried slot is empty afterwards |
| `AddrMan.AddrManImpl.SelectTriedCollision` | src/addrman.cpp:966-992 | answers with the tried entry that holds the slot, for exactly the known ids, so no entry with id -1 is ever invented; an unknown id is dropped |
| `AddrMan.AddrManImpl.GetAddr` | src/addrman.cpp:806-842 | as many addresses as allowed or as fit, whichever is fewer, never above the cap or the percentage, all fit, no entry twice; only the order changes |
| `AddrMan.AddrManImpl.Allowance` | src/addrman.cpp:810-817 | the largest number within the cap and the percentage of all entries, each of them optional |
| `AddrMan.AddrManImpl.CheckAddrman` | src/addrman.cpp:1054-1157 | returns zero if and only if all conditions hold; of a consistent manager always, for every iteration order |
| `AddrMan.AddrManImpl.Do` | src/addrman.cpp:416-992 | every public operation does what it is for and keeps consistency; nobody leaves the tried table but by resolving collisions |
| `AddrMan.AddrManImpl.Run` | src/addrman.cpp:416-992 | every run stays consistent, never empties a filled tried slot, never reuses an id, and is a chain of the effects of its operations |
| `AddrCheck.CheckEntries` | src/addrman.cpp:1068-1099 | passes exactly when every entry's flags, counts, index, position and times are right, and gathers what the table walks need |
| `AddrCheck.CheckTried` | src/addrman.cpp:1106-1121 | passes exactly when every occupied tried slot holds a tried entry of its own, each once |
| `AddrCheck.CheckNew` | src/addrman.cpp:1123-1136 | passes exactly when every occupied new slot holds a new entry of its own and no count is overdrawn |
| `AddrCheck.CheckTables` | src/addrman.cpp:1106-1141 | passes exactly when the two tables hold the entries as often as their flags and counts say |
| `AddrCheck.CheckNets` | src/addrman.cpp:1145-1154 | passes exactly when the counts per network are the sizes of the sets they count |
| `AddrCheck.CheckAddrman` | src/addrman.cpp:1054-1157 | returns zero if and only if all conditions hold |
| `AddrCheck.SettledPasses` | src/addrman.cpp:1054-1157 | the invariant of the operations implies all conditions of the check |
| `AddrLoad.LoadNews` | src/addrman.cpp:282-291 | the new entries are read with consecutive ids, in step but for their references, whatever the file says |
| `AddrLoad.LoadTrieds` | src/addrman.cpp:293-314 | each tried entry is in its own slot or counted as lost, whatever the file says; a valid one is lost only to another in its slot, and none when the slots differ |
| `AddrRestore.CollectPairs` | src/addrman.cpp:316-331 | exactly the pairs with a known entry are kept, in order |
| `AddrRestore.PairsIn` | src/addrman.cpp:316-331 | a pair is kept if and only if the list of its bucket names the entry and the entry is a new one |
| `AddrRestore.RestoreOne` | src/addrman.cpp:348-376 | a reference goes where it was if that is possible, else to the slot of the entry's own source if that is free, and nowhere for an entry that is not valid or has all its references; counts stay exact |
| `AddrRestore.NextFits` | src/addrman.cpp:348-376 | for a faithful file, the slot of every next reference is still free and its entry below the limit |
| `AddrRestore.RestoreAll` | src/addrman.cpp:348-376 | a faithful file puts every reference where it was; with any other, every valid entry that is named has a reference or finds another in the slot of its source |
| `AddrRestore.Prune` | src/addrman.cpp:378-388 | exactly the entries without a reference that are not tried are dropped; every entry then has its place, the invariant is back if addresses and times are right |
| `AddrTables.KeptIff` | src/addrman.cpp:231-399 | the invariant is what loading keeps for every file, plus: every entry is found by its address, and times can be |
| `AddrSerial.RoomToWrite` | src/addrman.cpp:193-210 | the asserts that the counters suffice never fire |
| `AddrSerial.SaveNews` | src/addrman.cpp:193-201 | every new entry is written once, and the index names its place |
| `AddrSerial.SaveTrieds` | src/addrman.cpp:203-210 | every tried entry is written once |
| `AddrSerial.SaveBucket` | src/addrman.cpp:211-224 | a bucket is written as the places of its entries, slot by slot |
| `AddrSerial.Serialize` | src/addrman.cpp:133-228 | the file is an image of the manager for every iteration order of its hash table |
| `AddrSerial.Xor30` | src/addrman.cpp:189-190 | one bit of the bucket count is turned over, and no other |
| `AddrTrip.OwnFile` | src/addrman.cpp:237-280 | a file written by a consistent manager passes every check on reading, and its tried entries have different slots |
| `AddrTrip.SlotsComplete` | src/addrman.cpp:348-376 | with all references restored the new tables are equal up to ids |
| `AddrTrip.SameRefs` | src/addrman.cpp:348-376 | then so are the reference counts |
| `AddrTrip.SameTried` | src/addrman.cpp:293-314 | the tried table follows from the entries in it |
| `AddrTrip.PassesIff` | src/addrman.cpp:393-398 | of all that a load can leave behind, the self-check passes exactly what the invariant allows |
| `AddrTrip.Unserialize` | src/addrman.cpp:231-399 | whatever a readable file says, the final check rejects it or the manager is consistent; nothing is lost but what is not valid, is in no bucket list or finds another entry in its slot; a file that names each address once with possible times is never rejected; a faithful file with the same asmap restores the manager |
| `AddrTrip.RoundTrip` | src/addrman.cpp:133-399 | saving and loading a manager of valid addresses loses no entry and gives equal tables and counts up to ids |
| `CheckQueue.ProceedInv` | src/checkqueue.h:87-115 | returning, sleeping and taking work all keep the invariant |
| `CheckQueue.BatchSize` | src/checkqueue.h:105-110 | from a queue that is not empty a batch takes between one and all of its checks, whatever the counters say |
| `CheckQueue.BatchIsShare` | src/checkqueue.h:105-110 | the largest number of checks within the batch size and a fair share of the queue, and one at least |
| `CheckQueue.InvSharers` | src/checkqueue.h:110 | the divisor is always positive, as the counters count threads |
| `CheckQueue.TakeInv` | src/checkqueue.h:105-115 | taking a batch loses and doubles no check, and starts from the verdict so far |
| `CheckQueue.CleanUpInv` | src/checkqueue.h:76-86 | settling a batch keeps the outstanding count exact and notifies the master at zero |
| `CheckQueue.RunOneInv` | src/checkqueue.h:117-121 | skipping checks after a failure keeps the answer right |
| `CheckQueue.AddInv` | src/checkqueue.h:156-173 | adding keeps the invariant, at any time between waits |
| `CheckQueue.StepInv` | src/checkqueue.h:66-173 | every step of every thread keeps the invariant |
| `CheckQueue.EveryRun` | src/checkqueue.h:66-173 | in every run with any number of workers each `Wait` returned whether all checks added since the previous one are true, every check is queued, in flight or done exactly once, the outstanding count is exact, and a master asleep at zero has been notified |
| `CheckQueue.NextStep` | src/checkqueue.h:66-123 | while the master waits some thread can take a step without a spurious wake-up, and it brings the return nearer |
| `CheckQueue.EveryStepNearer` | src/checkqueue.h:66-123 | every step of every thread, spurious wake-ups aside, brings the return of a `Wait` nearer |
| `CheckQueue.WaitReturns` | src/checkqueue.h:66-153 | every schedule without spurious wake-ups, workers still starting included, makes a `Wait` return: it is on for at most a bounded number of steps, and until it returns some thread can go on |
| `CheckQueue.EveryWaitReturns` | src/checkqueue.h:66-173 | so in every run from the start, whatever went on before the `Wait` |
| `CheckQueue.WaitCanReturn` | src/checkqueue.h:66-153 | from every reachable state of a `Wait` there is a schedule without spurious wake-ups on which it returns within the bound |
| `ArithUint.BaseUint.ShiftLeftAssign` | src/arith_uint256.cpp:13-28 | multiplication by a power of two modulo 2^width, for every shift |
| `ArithUint.BaseUint.ShiftRightAssign` | src/arith_uint256.cpp:30-45 | integer division by a power of two, for every shift |
| `ArithUint.BaseUint.MulAssign32` | src/arith_uint256.cpp:47-57 | product modulo 2^width, no intermediate above 64 bits |
| `ArithUint.BaseUint.MulAssign` | src/arith_uint256.cpp:59-73 | product modulo 2^width, no intermediate above 64 bits |
| `ArithUint.BaseUint.DivAssign` | src/arith_uint256.cpp:75-99 | the exact integer quotient; throws exactly on zero, leaving zero |
| `ArithUint.BaseUint.CompareTo` | src/arith_uint256.cpp:101-111 | the order of the values |
| `ArithUint.BaseUint.Bits` | src/arith_uint256.cpp:155-168 | the bit length of the value |
| `ArithUint.BaseUint.Inverted` | src/arith_uint256.h:61-67 | the complement to 2^width - 1 |
| `ArithUint.BaseUint.Negated` | src/arith_uint256.h:69-76 | negation modulo 2^width |
| `ArithUint.BaseUint.AddAssign` | src/arith_uint256.h:127-137 | sum modulo 2^width, no intermediate above 64 bits |
| `ArithUint.BaseUint.SubAssign` | src/arith_uint256.h:139-143 | difference modulo 2^width |
| `ArithUint.BaseUint.Increment` | src/arith_uint256.h:165-172 | plus one modulo 2^width |
| `ArithUint.BaseUint.Decrement` | src/arith_uint256.h:182-189 | minus one modulo 2^width |
| `CompactTarget.OverflowExact` | src/arith_uint256.cpp:189-191 | the overflow flag is set just when 256 bits cannot hold the number meant |
| `CompactTarget.NoOverflow` | src/arith_uint256.cpp:175-193 | without overflow the value is the number meant |
| `CompactTarget.WordShape` | src/arith_uint256.cpp:195-216 | the stored mantissa is the value shifted by the stored size, with or without the sign-bit correction |
| `CompactTarget.KeptBounds` | src/arith_uint256.cpp:195-216 | what an encoding keeps is the value cut to whole lost bytes, so never larger |
| `CompactTarget.RoundTrip` | src/arith_uint256.cpp:175-216 | decoding an encoded value gives its sign and its leading bytes, never overflow |
| `CompactTarget.KeptSameWord` | src/arith_uint256.cpp:175-216 | encoding what was decoded from an encoding gives the same word |
| `CompactTarget.WordRoundTrip` | src/arith_uint256.cpp:175-216 | encoding a decoded word gives the word back if and only if it is canonical |
| `CompactTarget.KnownWords` | src/test/arith_uint256_tests.cpp:490-540 | words of every size decode to the values the program's tests expect |
| `BlockProof.AssignWord` | src/arith_uint256.h:80-87 | the value is the word |
| `BlockProof.GetLow64` | src/arith_uint256.h:237-241 | the value modulo 2^64 |
| `BlockProof.SetCompact` | src/arith_uint256.cpp:175-193 | the limb code decodes as the integer definition does, flags included |
| `BlockProof.GetCompact` | src/arith_uint256.cpp:195-216 | the limb code encodes as the integer definition does |
| `BlockProof.ProofByComplement` | src/chain.cpp:140-145 | (m-1-t)/(t+1) + 1 is the integer part of m/(t+1) |
| `BlockProof.GetBlockProof` | src/chain.cpp:133-146 | 2^256/(t+1) rounded down for a valid target, zero otherwise, with no wrap on the way |
| `BlockProof.HarderIsMore` | src/chain.cpp:133-146 | a larger target never has a larger proof |
| `BlockProof.ValidIffProof` | src/chain.cpp:133-146 | the proof is zero exactly for negative, overflowing and zero targets |
| `SkipHeights.LowestOneCleared` | src/chain.cpp:79-80 | the bit trick subtracts the lowest one bit |
| `SkipHeights.SkipsBack` | src/chain.cpp:83-91 | every skip goes strictly back |
| `SkipHeights.SkipClears` | src/chain.cpp:83-91 | an even height skips to itself without its lowest one bit, an odd one to its predecessor without the lowest two, plus one |
| `SkipHeights.GapCloses` | src/chain.cpp:93-118 | where a skip would overshoot, the step to the parent closes the gap to the goal by a bit |
| `SkipHeights.ParentBetter` | src/chain.cpp:103-107 | where the parent's skip is preferred, the two steps together lose a one bit of the height |
| `SkipHeights.StepsBound` | src/chain.cpp:93-118 | a walk follows at most g(g+1) links, where g is the number of bits up to the highest in which the two heights differ |
| `BlockTree.BlockIndex.GetAncestor` | src/chain.cpp:93-118 | the same block as following parents one by one, or null exactly when that walk breaks; at most n(n+1) links for a height of n bits when all skip links are in place |
| `BlockTree.WalkIsAt` | src/chain.cpp:93-118 | the parent walk is the line of ancestors |
| `BlockTree.BlockIndex.BuildSkip` | src/chain.cpp:125-131 | the skip link is the ancestor at the skip height, and the tree stays a tree |
| `BlockTree.Grown` | src/chain.cpp:125-131 | adding a block below a block of the tree keeps every property the walk needs |
| `ActiveChain.SlotLine` | src/chain.cpp:21-29 | below a filled slot lie the ancestors of its block |
| `ActiveChain.Chain.SetTip` | src/chain.cpp:21-29 | despite the early stop, every slot from the tip's oldest known ancestor on holds the tip's ancestor; lower slots keep what they held |
| `ActiveChain.ContainsIffAncestor` | src/chain.h:505-508 | on the chain means ancestor of the tip |
| `ActiveChain.NextIsChild` | src/chain.h:511-517 | the successor is the child towards the tip; none for the tip and blocks off the chain only |
| `ActiveChain.Chain.FindFork` | src/chain.cpp:60-69 | the highest block a branch shares with the chain |
| `ActiveChain.LastCommonAncestor` | src/chain.cpp:167-182 | the highest common ancestor; its assert holds in a tree with one root |
| `ActiveChain.LocatorEntries` | src/chain.cpp:31-48 | the ancestors at the locator heights; the step never exceeds twice the height |
| `ActiveChain.LocatorRunsDown` | src/chain.cpp:31-48 | locator heights fall strictly and end at genesis |
| `ActiveChain.LocatorHead` | src/chain.cpp:31-48 | the first heights go back one by one |
| `ActiveChain.LocatorGaps` | src/chain.cpp:31-48 | each entry is one block below the one before, and from the eleventh step on twice as far as the step before |
| `ActiveChain.LocatorLength` | src/chain.cpp:31-48 | a locator of n entries, twelve or more, needs a height above 2^(n-12) + 9 |
| `BlockMap.BlockManager.AddToBlockIndex` | src/node/blockstorage.cpp:226-268 | a known hash changes nothing; a new header is linked, gets its skip link and totals, so that all skip links are in place, and the best header stays one of most work |
| `BlockMap.WorkOfLine` | src/node/blockstorage.cpp:248-249 | the recorded work is the work of the whole branch modulo 2^256 |
| `BlockMap.TimeOfLine` | src/node/blockstorage.cpp:248-249 | the recorded maximum is the latest time on the branch |
| `BlockMap.WorkGrows` | src/node/blockstorage.cpp:248-249 | while the total fits, work grows along every branch |
| `BlockMap.TimeRises` | src/node/blockstorage.cpp:248-249 | the maxima never fall along a chain |
| `BlockMap.FindEarliestAtLeast` | src/chain.cpp:71-77 | the bisection finds the lowest block of the chain that meets both bounds, or says there is none |
| `CompactBlocks.LayoutCount` | src/blockencodings.cpp:61-77 | after the prefilled transactions exactly as many slots are free as there are short ids |
| `CompactBlocks.LayoutAt` | src/blockencodings.cpp:61-77 | exactly the prefilled positions are filled, each with its own transaction |
| `BlockRelay.PositionIs` | src/blockencodings.cpp:61-77 | for every ascending list whose differences are the indexes sent, the i-th prefilled transaction is at the i-th position of the list |
| `BlockRelay.PositionsWritable` | src/blockencodings.cpp:61-77 | and the positions of every compact block are such a list |
| `CompactBlocks.AssignIds` | src/blockencodings.cpp:79-105 | the i-th short id gets the i-th free slot; succeeds exactly without repeated ids and crowded buckets |
| `CompactRelay.ScanHit` | src/blockencodings.cpp:107-168 | a match changes its slot only: filled by the first, emptied for good by a second different one |
| `CompactRelay.ScanEnds` | src/blockencodings.cpp:128-133 | stopping early loses nothing |
| `CompactRelay.FilledAll` | src/blockencodings.cpp:128-133 | the counter reaches the number of short ids just when every free slot is filled |
| `CompactRelay.PartiallyDownloadedBlock.Prefill` | src/blockencodings.cpp:61-76 | succeeds exactly for positions in range and transactions that are not null; never indexes outside |
| `CompactRelay.PartiallyDownloadedBlock.ScanPool` | src/blockencodings.cpp:107-134 | the mempool scan: slots are what the transactions looked at make them, the counter grows with the slots filled, and counting from zero the scan stops early only when nothing can change any more |
| `CompactRelay.PartiallyDownloadedBlock.ScanExtra` | src/blockencodings.cpp:136-168 | the scan of the extra pool likewise |
| `CompactRelay.PartiallyDownloadedBlock.InitData` | src/blockencodings.cpp:50-173 | each status if and only if its condition; on success every slot holds what the known transactions looked at make it, all of them on an object not used before: the only one with its short id, or none |
| `CompactRelay.PartiallyDownloadedBlock.FillBlock` | src/blockencodings.cpp:183-228 | the missing transactions fill the gaps in order; every error case with the exact state it leaves |
| `BlockRelay.DifferenceFormatter.Ser` | src/blockencodings.h:27-33 | writes the gap to the previous index, refusing what does not ascend |
| `BlockRelay.DifferenceFormatter.Unser` | src/blockencodings.h:34-41 | reads it back, refusing overflow of the sum and of the index type |
| `BlockRelay.WritableIff` | src/blockencodings.h:22-42 | exactly ascending lists can be written |
| `BlockRelay.DifferencesAt` | src/blockencodings.h:22-42 | each number written is the distance from the place after the value before |
| `BlockRelay.WriteRead` | src/blockencodings.h:22-42 | what is written reads back |
| `BlockRelay.ReadWrite` | src/blockencodings.h:22-42 | what reads is what would be written |
| `BlockRelay.Compact` | src/blockencodings.cpp:20-30 | the coinbase in full, every other transaction by its short id, in order |
| `BlockRelay.AnnouncedDescribed` | src/blockencodings.cpp:50-105 | whatever positions are sent along, the slots hold those transactions and the k-th free slot belongs to the k-th short id |
| `BlockRelay.Request` | src/net_processing.cpp:4887-4891 | exactly the missing positions, ascending |
| `BlockRelay.Answer` | src/net_processing.cpp:2717-2729 | the named transactions in order, or none at all if an index is out of range |
| `BlockRelay.Faithful` | src/blockencodings.cpp:50-173 | without short-id collisions every filled slot holds the block's own transaction, and every known one is in place |
| `BlockRelay.Rebuilt` | src/blockencodings.cpp:183-206 | right slots and the requested transactions make up the block |
| `BlockRelay.Relay` | src/blockencodings.cpp:20-228 | announce, match, request, answer, fill: the receiver ends with exactly the sender's transactions, or fails for repeated ids or a crowded bucket |
| `BlockRelay.Receive` | src/blockencodings.cpp:50-228 | the same for a compact block that sends along transactions at any positions |
| `CompactRelay.Verdict` | src/blockencodings.cpp:207-216 | a status for each result of the block check: taken if and only if it passes, asked for again if and only if it may be mutated |
| `CompactRelay.PresentIn` | src/blockencodings.cpp:136-168 | the extra transactions searched are those that are there |
| `Bech32Field.PolyMod` | src/bech32.cpp:130-216 | the remainder modulo x^6 + {29}x^5 + {22}x^4 + {20}x^3 + {21}x^2 + {29}x + {18} of the polynomial with coefficients 1 and the symbols |
| `Bech32Field.ChecksumIsRemainder` | src/bech32.cpp:132-154 | for all symbols, six coefficients are the remainder of that division if and only if they are the groups of the result |
| `Bech32Field.StepDivides` | src/bech32.cpp:186-213 | one step is times x plus the symbol, less the leading coefficient times the generator |
| `Bech32Field.FoldGroups` | src/bech32.cpp:198-213 | the five constants are the multiples of the generator in the field |
| `Bech32Field.MulCommutes` | src/bech32.cpp:146-152 | multiplication modulo a^5 + a^3 + 1 is commutative |
| `Bech32Field.MulAssociates` | src/bech32.cpp:146-152 | associative |
| `Bech32Field.MulDistributes` | src/bech32.cpp:146-152 | distributive over the sum |
| `Bech32Field.NoZeroDivisors` | src/bech32.cpp:146-152 | and without divisors of zero |
| `Bech32Poly.StepInjective` | src/bech32.cpp:177-216 | the 30-bit step never merges two remainders |
| `Bech32Poly.SixLinear` | src/bech32.cpp:130-216 | the remainder is linear in its last six symbols |
| `Bech32Poly.BurstDetected` | src/bech32.cpp:130-216 | a change within six neighbouring symbols always changes the remainder, at any length |
| `Bech32.CharBack` | src/bech32.cpp:23-35 | the two character tables are inverse |
| `Bech32.RevBack` | src/bech32.cpp:23-35 | in both directions |
| `Bech32.Charset0` | src/bech32.cpp:23 | the characters of symbols 0 to 7 are those of the character set, in order |
| `Bech32.Charset8` | src/bech32.cpp:23 | the characters of symbols 8 to 15 are those of the character set, in order |
| `Bech32.Charset16` | src/bech32.cpp:23 | the characters of symbols 16 to 19 are those of the character set, in order |
| `Bech32.Charset20` | src/bech32.cpp:23 | the characters of symbols 20 to 23 are those of the character set, in order |
| `Bech32.Charset24` | src/bech32.cpp:23 | the characters of symbols 24 to 27 are those of the character set, in order |
| `Bech32.Charset28` | src/bech32.cpp:23 | the characters of symbols 28 to 31 are those of the character set, in order |
| `Bech32.CheckCharacters` | src/bech32.cpp:287-309 | lists exactly the offending positions, ascending |
| `Bech32.NoneOffends` | src/bech32.cpp:287-309 | no position offends exactly when the text is printable and not of mixed case |
| `Bech32Codec.VerifyChecksum` | src/bech32.cpp:327-339 | the encoding whose constant the remainder is, if any |
| `Bech32Codec.VerifyIsRemainder` | src/bech32.cpp:327-339 | a string is valid for an encoding if and only if its polynomial leaves the constant of the encoding as remainder |
| `Bech32Codec.PreparePolynomialCoefficients` | src/bech32.cpp:311-324 | the two parts of every character of the prefix make it up and stand in order on both sides of a zero, before the data |
| `Bech32Codec.CreateChecksum` | src/bech32.cpp:342-353 | the six symbols of the specified checksum |
| `Bech32Codec.KnownStrings` | src/test/bech32_tests.cpp:16-44 | the checksums of the shortest test strings, a12uel5l and a1lqfn3a |
| `Bech32Codec.ResidueOf` | src/bech32.cpp:327-353 | appending six symbols adds exactly them to the remainder |
| `Bech32Codec.ChecksumIff` | src/bech32.cpp:327-353 | six symbols make a string valid for an encoding if and only if they are its checksum |
| `Bech32Codec.BurstNeverVerifies` | src/bech32.cpp:327-339 | a changed symbol, or up to six neighbours, never leaves a string valid for the same encoding |
| `Bech32Codec.Encode` | src/bech32.cpp:358-371 | prefix, separator, symbols and checksum as specified |
| `Bech32Codec.Decode` | src/bech32.cpp:374-400 | the loops compute the specified decoding, every refusal included |
| `Bech32Codec.DecodeIff` | src/bech32.cpp:358-400 | decoding yields something if and only if the lower-case text is its encoding, within the limit and not of mixed case |
| `Bech32Codec.RoundTrip` | src/bech32.cpp:358-400 | an encoding decodes to what was encoded, in lower and in upper case |
| `Radix.MultiplyAdd` | src/base58.cpp:63-70 | the in-place loop multiplies and adds, and no carry is left if the buffer is large enough |
| `Base58.EncodeFits` | src/base58.cpp:98-100 | the 138/100 buffer suffices for every length |
| `Base58.DecodeFits` | src/base58.cpp:53-55 | so does the 733/1000 buffer |
| `Base58.AlphabetIs` | src/base58.cpp:19-37 | the alphabet is the digits and letters in ascending order, without 0, I, O and l |
| `Base58.ToBase58` | src/base58.cpp:98-119 | the buffer ends with the base-58 digits of the bytes; the carry assert never fires |
| `Base58.FromBase58` | src/base58.cpp:53-73 | the buffer ends with the bytes of the digits; the carry assert never fires; refuses exactly bad characters and results that are too long |
| `Base58.EncodeBase58` | src/base58.cpp:89-127 | a one for each leading zero byte, then the digits of the number |
| `Base58.DecodeBase58` | src/base58.cpp:40-87 | the loops compute the specified decoding, every refusal included |
| `Base58Trip.BodyOfEncoding` | src/base58.cpp:40-127 | decoding an encoding gives the bytes |
| `Base58Trip.EncodingOfBody` | src/base58.cpp:40-127 | encoding a decoding gives the text |
| `Base58Trip.DecodeIff` | src/base58.cpp:40-87 | decoding yields some bytes if and only if they fit and the text, spaces around it aside, encodes them |
| `Base58Trip.RoundTrip` | src/base58.cpp:40-135 | with any surrounding spaces, an encoding decodes to its bytes exactly when they fit |
| `Base58Trip.EncodeBase58Check` | src/base58.cpp:137-144 | the encoding of the bytes followed by their checksum |
| `Base58Trip.Checked` | src/base58.cpp:137-144 | the input, then the first four bytes of its hash |
| `Base58Trip.DecodeBase58Check` | src/base58.cpp:146-169 | the checked decoding as specified |
| `Base58Trip.DecodeCheckIff` | src/base58.cpp:137-169 | a checked decode yields some bytes if and only if they fit and the text encodes them with their checksum |
| `AncestorSearch.IsBlockAncestor` | src/dag/ghostdag_blockindex.h:85-151 | the loop computes the answer defined by its rounds, the node limit included |
| `AncestorSearch.DownIs` | src/chain.cpp:91-123 | the main ancestor at a height is as many main parents back as the heights differ |
| `AncestorSearch.AnswerIsFound` | src/dag/ghostdag_blockindex.h:85-151 | a yes means a path that stays above the sought height; a no means there is none, or the index is beyond the node limit |
| `AncestorSearch.AnswerSafe` | src/dag/ghostdag_blockindex.h:75-151 | a yes is never wrong |
| `AncestorSearch.ExactIff` | src/dag/ghostdag_blockindex.h:75-151 | paths above the sought height decide reachability for all blocks if and only if no parent is higher than its child and links between equal heights can be bypassed |
| `AncestorSearch.AnswerExactIff` | src/dag/ghostdag_blockindex.h:75-151 | so the search is right about all blocks of an index within the node limit if and only if these two conditions hold |
| `AncestorSearch.FallingIsExact` | src/dag/ghostdag_blockindex.h:75-151 | in particular where every parent is lower |
| `AncestorSearch.AnswerPastOnly` | src/dag/ghostdag_blockindex.h:85-151 | the answer about two blocks depends on the past of the later one alone, whatever else the index holds |
| `AncestorSearch.HigherParentDenied` | src/dag/ghostdag_blockindex.h:75-151 | a parent on a longer branch, which the header check allows, is denied as an ancestor |
| `AncestorSearch.FlatLinkDenied` | src/dag/ghostdag_blockindex.h:75-151 | with no parent higher than its child, an ancestor behind a link between equal heights is denied |
| `Mergeset.ComputeMergeset` | src/dag/ghostdag.cpp:77-143 | for any ancestor test, the exact set collected, each block once, in order of score and hash; gives up exactly when a thousand blocks or more would be collected and some parent is beyond the selected one's past |
| `Mergeset.NothingMissed` | src/dag/ghostdag.cpp:102-127 | every block on a way that passes no block behind the selected parent is visited |
| `Mergeset.DocumentedIff` | src/dag/ghostdag.cpp:66-76 | for a test whose yes is right, the set is the documented mergeset if and only if no other parent is behind the selected one and the test recognises every block behind it that is met |
| `Mergeset.CollectedExact` | src/dag/ghostdag.cpp:66-143 | with an exact test, the documented mergeset and every other parent |
| `Ghostdag.SelectBestParent` | src/dag/ghostdag.cpp:18-38 | the parent of highest score, ties to the smaller hash |
| `Ghostdag.SelectedParentChain` | src/dag/ghostdag.cpp:50-64 | the selected chain cut at 2K+1 blocks |
| `Ghostdag.ChainIsPrefix` | src/dag/ghostdag.cpp:50-64 | the cut chain is a prefix of the whole one, wherever scores rise in the past of its head |
| `Ghostdag.ChainLinks` | src/dag/ghostdag.cpp:50-64 | the chain goes from each block to its selected parent, down to a block without one |
| `Ghostdag.AntiConeBlueCount` | src/dag/ghostdag.cpp:148-164 | the number of listed blocks that the test finds concurrent with the block |
| `Ghostdag.AntiConeCounts` | src/dag/ghostdag.cpp:148-164 | as the size of the set of their places |
| `Ghostdag.ClassifyMergeset` | src/dag/ghostdag.cpp:169-189 | of a mergeset without repeats, blues and reds are those for which exactly the blocks are blue that find at most K concurrent ones among the chain and the blues before them, in the order of the mergeset |
| `Ghostdag.ColouredIff` | src/dag/ghostdag.cpp:169-189 | the rule block by block gives these colours, and no others fit the definition |
| `Ghostdag.ColoursMean` | src/dag/ghostdag.cpp:169-255 | in the data of a block every blue finds at most K concurrent ones among the chain and the blues before it, every red more than K, both in the order of the mergeset |
| `Ghostdag.ClassesSplit` | src/dag/ghostdag.cpp:169-189 | every merged block gets exactly one colour |
| `Ghostdag.CutDecisionIff` | src/dag/ghostdag.cpp:40-49 | with other blues from a given set of blocks, each at most once, the cut leaves every decision on a block alone if and only if the cut chain alone exceeds K, nothing beyond it is concurrent, or the whole chain and all these blocks together do not exceed K |
| `Ghostdag.ChainCutIff` | src/dag/ghostdag.cpp:40-64 | so for the cut at 2K+1 of a selected chain, for any ancestor test |
| `Ghostdag.DeepInPastIff` | src/dag/ghostdag.cpp:44-48 | all chain blocks from some depth on are in the past of a block if and only if the first of them is |
| `Ghostdag.BeyondFits` | src/dag/ghostdag.cpp:40-49 | with an exact test the cut leaves alone every block beyond the selected parent's past |
| `Ghostdag.SameColours` | src/dag/ghostdag.cpp:169-189 | if it leaves alone every merged block, with the blocks merged before it as the possible blues, it changes no colour |
| `Ghostdag.WholeChainColours` | src/dag/ghostdag.cpp:194-255 | the colours computed are then those the whole chain gives; with an exact test and no other parent behind the selected one they always are |
| `Ghostdag.ScoreRises` | src/dag/ghostdag.cpp:194-255 | a block's score is above that of every parent, so scores order the past |
| `Ghostdag.SumWork` | src/dag/ghostdag.cpp:248-252 | the blue work modulo 2^64 |
| `Ghostdag.WorkIsSum` | src/dag/ghostdag.cpp:248-252 | every block of a list adds its own work, wherever it stands |
| `Ghostdag.ComputeGhostdag` | src/dag/ghostdag.cpp:194-255 | for any ancestor test, the data its parents call for; none exactly when the search from the best parent gives up |
| `DagAgreement.DataUnique` | src/dag/ghostdag.cpp:194-255 | parents leave no choice of selected parent, colours, score or work |
| `DagAgreement.Transfer` | src/dag/ghostdag.cpp:194-255 | for every test that looks at the past alone, data that is right in one graph is right in any other in which the parents have the same past |
| `DagAgreement.BlockedSame` | src/dag/ghostdag.cpp:194-255 | and so is the refusal of a mergeset that is too large |
| `DagNode.ProcessHeader` | src/validation.cpp:4395-4444 | a header enters the index exactly if it is new, its main parent is there, and its further parents are distinct and, as far as known, not above the main parent on its branch |
| `DagNode.KnownOfParts` | src/node/blockstorage.cpp:245-262 | further parents are looked up one by one, and their order is kept |
| `DagLinks.RunLinks` | src/validation.cpp:4410-4444 | in every run no entry but genesis names a parent twice |
| `DagNode.ProcessBlock` | src/validation.cpp:4649-4710 | a body completes the further parents, is turned away exactly for one that is missing or a mergeset that is too large, and otherwise gets data computed from whatever data its parents have at the time |
| `DagNode.ResolvedIs` | src/validation.cpp:4654-4680 | the further parents found are the longest beginning of the list that is all in the index |
| `DagNode.StepOk` | src/validation.cpp:4649-4710 | every message keeps the links in order, and what was taken in is never changed again |
| `DagRuns.StepRight` | src/validation.cpp:4649-4710 | a message that takes its block in after its parents, or takes none in, leaves every block with the data its parents call for |
| `DagRuns.TimelyDataRight` | src/validation.cpp:4649-4710 | in every run of headers and bodies that takes every block in after its parents, all data is what the parents call for after every message |
| `DagRuns.RightScored` | src/validation.cpp:4649-4710 | so scores rise from parents to children in the past of every block taken in, whatever headers the index holds besides |
| `DagRuns.Process` | src/validation.cpp:4649-4710 | the loop over messages is such a run |
| `DagLate.LateParentIff` | src/validation.cpp:4658-4705 | at any time after a block was taken in, however late its parents were, its selected parent and score are those its best parent then calls for if and only if that parent was taken in before it, or has no score even then |
| `DagLate.LateBestParent` | src/validation.cpp:4658-4705 | so a block taken in before its best parent has wrong data for good, once that parent has a score |
| `DagLate.OneParentIff` | src/validation.cpp:4658-4705 | with a single parent, all data is right later on if and only if the parent was taken in before or has no score |
| `DagLate.StillRightIff` | src/dag/ghostdag.cpp:194-255 | when blocks get data later but nothing behind the selected parent changes, data computed before is still right if and only if that parent is still the best and the mergeset, sorted by the later scores, is coloured the same |
| `DagLate.AnswersShape` | src/dag/ghostdag_blockindex.h:85-151 | the answers of the ancestor search do not depend on the data of any block |
| `DagLate.LateBody` | src/validation.cpp:4658-4705 | three headers in a row and the bodies 1, 3, 2: block 3 is taken in with score 1 and keeps it |
| `DagLate.LateHarmless` | src/validation.cpp:4658-4705 | five headers and the bodies 1, 2, 3, 5, 4: block 5 is taken in before its parent 4, and all data is right in the end, for every K and the code's own search |
| `DagDelivery.Agreement` | src/dag/ghostdag.cpp:194-255 | two nodes whose data is right agree on the data and the past of every block both have taken in, whatever else they hold |
| `DagDelivery.RunsAgree` | src/validation.cpp:4649-4710 | so do any two runs that take every block in after its parents, in any order of messages |
| `DagDelivery.HeaderSame` | src/validation.cpp:4411-4444 | whether a header is in order, and the entry it makes, depend on the past of its parents alone |
| `DagDelivery.Settles` | src/validation.cpp:4649-4710 | in a delivery with parents first, once the body of a block has come its entry never changes again, whether it was taken in or turned away |
| `DagDelivery.SameFate` | src/validation.cpp:4649-4710 | and that body leaves the same entry behind in every such delivery of the same blocks, refused and half-linked parents included |
| `DagDelivery.Delivered` | src/validation.cpp:4649-4710 | two deliveries of the same blocks, in any two orders with parents first, end with the same entry for every block delivered, links, scores, colours and work, and the same blocks taken in, also where some block stands on a parent that was refused |
| `DagDelivery.TimelyIffComplete` | src/validation.cpp:4697-4705 | with parents first, every block is taken in after its parents if and only if in the end no block taken in has a parent that is not |
| `TopoOrder.TopologicalOrder` | src/dag/ghostdag.cpp:270-323 | for any distinct blocks of any index: each at most once, parents in the list first, a block left out only behind a parent that is left out too; all of them in plain ascending order of score and hash if and only if scores rise along the links among them |
| `TopoOrder.ReadyBelow` | src/dag/ghostdag.cpp:270-323 | if scores rise along the links among the open blocks, some block without an open parent comes no later than any given one |
| `TopoOrder.AncestorsFirst` | src/dag/ghostdag.cpp:270-323 | in an ascending list a block comes after every block it reaches |
| `DagTips.DagTipSet.InsertTip` | src/dag/dagtipset.cpp:14-19 | the tip and its score are recorded; order and map stay in step if and only if the block was not a tip with another score |
| `DagTips.DagTipSet.RemoveTip` | src/dag/dagtipset.cpp:21-28 | the tip goes from both |
| `DagTips.DagTipSet.BlockConnected` | src/dag/dagtipset.cpp:30-48 | the new block is a tip and its parents are not; all other tips stay; its score is known, and exactly the scores far behind it that are not of tips are forgotten; order and map stay in step exactly under the same condition |
| `DagTips.DagTipSet.BlockDisconnected` | src/dag/dagtipset.cpp:50-75 | the block goes; exactly the parents with a known score return, with that score |
| `DagTips.DagTipSet.GetMiningParents` | src/dag/dagtipset.cpp:77-86 | the best tips, in order, and no better one is left out |
| `DagTips.DagTipSet.PruneKnownScores` | src/dag/dagtipset.cpp:100-111 | exactly the scores far behind the best and not of tips are forgotten |
| `DagTips.ChildlessIff` | src/dag/dagtipset.cpp:30-48 | the tips are the blocks without children if and only if every block that has a child has one that was connected after it |
| `DagTips.ThroughoutIff` | src/dag/dagtipset.cpp:30-48 | for blocks connected once each, the tips are the childless blocks after every one of them if and only if no block is connected after a child |
| `DagTips.ConnectAll` | src/dag/dagtipset.cpp:30-48 | for blocks connected in any order, which blocks are tips, and exactly when these are the childless ones |
| `DagTips.LateParentTip` | src/validation.cpp:4796-4804 | blocks connected as 1, 3, 2 leave block 2 a tip although it has a child |
| `DagTipRun.ConnectsOnce` | src/validation.cpp:4796-4804 | in every run the blocks connected are the blocks taken in, each once |
| `DagTipRun.TimelyTips` | src/validation.cpp:4796-4804 | at every moment of a run that takes every block in after its parents, a block is a tip if and only if it is taken in and no block taken in is a child of it |
| `DagTipRun.ProcessWithTips` | src/validation.cpp:4796-4804 | a node and its tip set fed with messages in any order: the tips are what the order of connection makes them, and the childless blocks if every block came after its parents |
| `DagTips.DisconnectIff` | src/dag/dagtipset.cpp:50-75 | disconnecting keeps the tips right if and only if exactly the parents left without children have a known score |
| `DagTips.ConnectDisconnectIff` | src/dag/dagtipset.cpp:30-75 | connecting a block and disconnecting it gives back the tips if and only if it was none and its parents were tips just where their scores are known and not forgotten |
| `DagTips.SharedParentReturns` | src/dag/dagtipset.cpp:50-75 | a parent with another child comes back as a tip |
| `DagWitness.MergedTwice` | src/dag/ghostdag.cpp:77-143 | with a link between equal heights, a block behind the selected parent is collected again |
| `DagWitness.FlatHeadersOk` | src/validation.cpp:4411-4444 | the header with that link is accepted |
| `DagWitness.HighHeaderOk` | src/validation.cpp:4411-4444 | so is one with a parent on a longer branch |
| `DagWitness.HeaderOrderMatters` | src/validation.cpp:4421-4443 | a header that is refused when its further parent is known is accepted when it comes before that parent |
| `DagWitness.DeepBlockConcurrent` | src/dag/ghostdag.cpp:44-48 | for every K, a graph in which a chain block beyond the cut is concurrent with a merged block |
| `DagWitness.CutMattersBehind` | src/dag/ghostdag.cpp:40-64 | for every K, a graph in which a parent behind the selected one is blue with the cut chain and red with the whole one |
| `DagWitness.ForTheSearch` | src/dag/ghostdag.cpp:40-64 | both hold for the code's own search, for every K up to a sixth of a million, the shipped values among them |

## Left out

- Memory and failure plumbing of the coin views: allocator rounding in the memory totals, `EmplaceCoinInternalDANGER`, `ReallocateCache`, the read-error catcher, `AccessByTxid`.
- The best-block lookup through a chain of caches, and partial database batches cut off by a crash.
- CoinsRun.Run: a refused sync is not an operation of a run, since it can leave a cache that shows something else; `RefusedSync` and the contract of `Sync` say exactly when.
- `Select_` and `GetChance` of the address manager: the loop ends only with probability one and uses floating-point chances.
- AddrMan.AddrManImpl.AddSingle: the random test is a free boolean; its odds are not modelled.
- AddrTrip.Unserialize: older address encodings of the file are not modelled.
- The check queue's stop request.
- CheckQueue.WaitReturns: a spurious wake-up can delay a return, so schedules with them are outside the bound; they are inside all other claims.
- The remaining operators of `base_uint` (bitwise operators, hex conversion, `getdouble`), which are single expressions or text.
- SkipHeights.StepsBound: the bound is quadratic in the number of bits, 342 for heights of 18 bits; the 110 steps the source reports from simulations are not derived.
- CompactRelay.PartiallyDownloadedBlock.InitData: takes at most 65535 transactions, which the reader enforces. The code never resets its counter, so on an object used before the search may stop early, and then only the transactions looked at are accounted for. `extra_count` is only logged and is not modelled; a bucket of the id map overflowing is an arbitrary event.
- `LocateErrors`, `Syndrome` and the GF(1024) tables of Bech32.
- Base58.DecodeBase58: texts and counters are unbounded here; the program counts lengths in an `int`.
- Ghostdag.ComputeGhostdag: parents are in the index, as `AcceptBlock` has looked each of them up; blue scores are unbounded, blue work is modulo 2^64.
- DagNode.ProcessHeader: the number of further parents, their commitment, proof of work, times and entries marked as failed are not modelled; they do not look at the DAG.
- DagNode.ProcessBlock: bodies are requested ones that pass every other check; blocks marked as failed, pruning and reloading the index from disk are not modelled.
- Greedy colouring does not bound the blue anticone of blocks coloured earlier, and no such claim is made.
- `ComputeVirtual` and `ComputeVirtualSelectedParentChain`, which only repeat `ComputeGhostdag` and the chain walk.
- DAG difficulty, post-quantum signature verification, script validation, networking beyond the compact-block round, wallets, RPC and storage.
