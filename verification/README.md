# Verified models of the node's core data structures

Dafny models of eight parts of the node, each in the form the source has: objects that
methods update in place become classes, loops stay loops, pure code becomes functions.
Every model comes with proofs for all inputs, all runs or all interleavings. Nothing here
runs the node.

| part | files | main results |
|---|---|---|
| UTXO cache stack | `CoinsView`, `FlaggedList`, `CoinsViewCache` | a stack of caches refines a flat map of coins and a column of best blocks; the intrusive list of flagged entries survives erasing while iterating |
| address manager | `AddrTables`, `AddrMan`, `AddrManCheck`, `AddrManDisk`, `AddrManRoundTrip` | redundant indexes and counters agree over every run; the manager's own check decides the invariant; writing and reading back loses no field |
| check queue | `CheckQueue` | every answer of `Complete` is right for its session, as the actions alone tell it, under every interleaving, exactly if the 32-bit counter cannot wrap; the counters are exact and an answer comes in any case |
| big integers and difficulty | `Powers`, `BaseUint`, `Compact` | limb loops are arithmetic modulo 2^BITS for every width; the compact encoding and block work are exact |
| block tree and active chain | `Chain` | skip pointers and early stopping change nothing about ancestors; skip heights by their bits |
| Bech32 and Bech32m | `Bech32`, `Bech32Polynomials` | the decoder accepts exactly the encodings; the checksum is a polynomial remainder over GF(32); bursts of up to six errors are detected, in the human-readable part too |
| Base58 | `Base58` | encoder and decoder are inverse; the buffer estimates always suffice |
| compact blocks | `CompactBlock`, `DifferenceCoding` | every known transaction without a rival is put in its place; a described block is rebuilt exactly |

`Wrappers` and `Sequences` hold what the parts share. `CoinsView` and `AddrTables` hold the specification on values; `CoinsViewCache` and
`AddrMan` perform it in place, method by method, so that what is proved about the values
holds of the objects. `CheckQueue` is a transition system with one step per critical
section. Hashing, the clock, random numbers, the order of iteration over unordered
containers, script memory usage, the mempool and the block check are parameters or
arbitrary choices.

Some properties hold only under a condition a caller can check:

- Adding a coin keeps the cache invariant if and only if overwriting was announced, the
  entry was already cached, or the base shows no coin (`CoinsView.AddCoinContractIsExact`).
- Flush and Sync keep the best block if and only if the cache has its own hash or its base
  agrees with the one below (`CoinsView.WriteBackBestBlock`); a state in which they lose it is
  `CoinsView.UnaskedHashIsLost`.
- Complete is right in every run if and only if `Fits` holds of the number of threads and
  the batch size (`CheckQueue.RightExactlyIfFits`). Counters and progress do not depend
  on it.
- InitData puts every known transaction without a rival in its place on a new object
  (`CompactBlock.ScannedFinds`). A counter left over from earlier use can end the scan too
  soon (`CompactBlock.StaleCountMisses`).
- The address manager's check is passed by every manager that satisfies the invariant, and
  only by those once the five conditions of `Unchecked` are added
  (`AddrManCheck.ConsistentPasses`, `AddrManCheck.PassingIsConsistent`). For each of the
  five there is a passing manager that violates it (the rows from
  `AddrManCheck.StaleIdCountPasses` on); the one with a bucket beyond the table cannot arise
  in the source, where the table is an array. In particular the last test compares only
  networks that have a counter, so it allows more than the all-zero counters that the comment
  at src/addrman.cpp:1154-1155 mentions (`AddrManCheck.UncountedNetworkPasses`); the code is
  followed.

## Model

| member | source | states |
|---|---|---|
| CoinsView.StackRefinesFlatMap | src/coins.cpp:48-287 | For a stack of caches of any depth over a database and any run of adds, spends, best blocks set and best blocks read on the top, mixed with reads, drops, syncs and flushes at any level: the top shows the flat map with the same adds and spends applied, the best blocks of the levels are those of a plain column of hashes, every reply is the one these give, the invariant holds at every level and nothing throws. |
| CoinsView.StepRefines | src/coins.cpp:48-287 | The same for a single operation in any state that satisfies the invariant. |
| CoinsView.StepHashes | src/coins.cpp:173-272 | What an operation does to the best blocks, as a step on the column of hashes: setting writes the top one, reading fills missing ones in from below, Flush and Sync copy a level's hash to the level below, and nothing else changes any. |
| CoinsView.BestIsLastSet | src/coins.cpp:173-272 | On the column: an operation that sets a hash at the top makes it the best block, and any other leaves the best block as it is, if nothing is written back from a level without a hash. |
| CoinsView.FetchKeeps | src/coins.cpp:48-70 | Pulling a coin up through all levels changes no visible coin at the top, keeps the best block and the invariant at every level; afterwards the top entry, or its absence, alone tells what is visible. |
| CoinsView.AddKeeps | src/coins.cpp:72-111 | If the caller keeps the contract (overwriting allowed, or no unspent coin visible), adding never throws and changes exactly one visible coin; unspendable outputs change nothing. |
| CoinsView.AddCoinContractIsExact | src/coins.cpp:72-111 | An add that does not throw keeps the invariant if and only if overwriting was announced, or the entry was already in this cache, or the base shows no unspent coin. |
| CoinsView.MisusedAddResurrectsCoin | src/coins.cpp:72-111 | Outside that condition the FRESH flag is misapplied, and spending the added coin makes the base's old coin visible again. |
| CoinsView.SpendKeeps | src/coins.cpp:130-150 | Spending hides exactly that coin and keeps the invariant: a FRESH entry is gone afterwards, any other is dirty and spent, and no other entry changes. |
| CoinsView.UncacheKeeps | src/coins.cpp:274-287 | Dropping an entry changes no visible coin: it goes exactly if it carries no flag, and no other entry changes. |
| CoinsView.MergeEntryAgrees | src/coins.cpp:183-248 | Merging a child's dirty entry into a parent that agrees with its own base gives the parent the child's coin and flags that agree with that base again, also when the merge deletes the entry. |
| CoinsView.WriteBackKeeps | src/coins.cpp:183-248 | After a batch write the parent shows exactly what the child showed, and satisfies the invariant. |
| CoinsView.SyncKeeps | src/coins.cpp:261-272 | Sync changes nothing visible and makes the base equal to the cache; exactly the flagged entries of spent coins go, and the others keep their coins and carry no flag. |
| CoinsView.FlushKeeps | src/coins.cpp:250-259 | Flush changes nothing visible, makes the base equal to what the cache showed, and leaves the cache empty. |
| CoinsView.WriteBackBestBlock | src/coins.cpp:173-272 | Flush and Sync leave the base at the cache's own best block if it has one, and keep the best block of the whole if and only if it does or the base and its base agree. |
| CoinsView.UnaskedHashIsLost | src/coins.cpp:173-272 | The state that fails: an empty cache that never asked for the best block, over a cache at block h above a database at block g, satisfies the invariant, and flushing or syncing it turns the best block from h back to g. |
| CoinsView.WriteBackNeverThrows | src/coins.cpp:212-220 | The throw for a misapplied FRESH flag is unreachable from every state that satisfies the invariant, at every level. |
| FlaggedList.AppendThreads | src/coins.h:132-144 | Linking a pair before the sentinel turns a circular doubly linked list into the same list with the pair at its end. |
| FlaggedList.UnlinkThreads | src/coins.h:180-187 | Unlinking any member leaves a circular doubly linked list of the others, in order. |
| FlaggedList.FlaggingKeeps | src/coins.h:132-144 | Setting a first flag keeps the list to exactly the flagged entries and changes no other entry. |
| FlaggedList.CleaningKeeps | src/coins.h:180-187 | Clearing the flags takes exactly that entry off the list. |
| FlaggedList.ListLength | src/coins.cpp:332-344 | The list is as long as there are flagged entries. |
| CoinsViewCache.CoinsViewCache.constructor | src/coins.cpp:37-41 | An empty cache with a self-linked sentinel is valid over any valid base. |
| CoinsViewCache.CoinsViewCache.AddFlags | src/coins.h:132-144 | In place: the entry gets the flags, joins the list if it had none, and nothing else changes. |
| CoinsViewCache.CoinsViewCache.SetClean | src/coins.h:180-187 | In place: the entry loses its flags and leaves the list. |
| CoinsViewCache.CoinsViewCache.FetchCoin | src/coins.cpp:48-64 | In place, through any number of caches: the view becomes the fetched view; found exactly if an entry is there afterwards; the usage counter and the list stay exact. |
| CoinsViewCache.CoinsViewCache.GetCoin | src/coins.cpp:66-70 | Returns exactly the unspent coin visible through the whole stack. |
| CoinsViewCache.CoinsViewCache.HaveCoin | src/coins.cpp:163-166 | True exactly if a coin is visible through the whole stack. |
| CoinsViewCache.CoinsViewCache.AddCoin | src/coins.cpp:72-111 | In place, whatever the base shows: throws exactly when an unspent entry would be overwritten unannounced, having already lowered the usage counter; otherwise performs the add with list and counter exact, and is valid afterwards if and only if overwriting was announced, the output is unspendable, the entry was cached, or the base shows no coin. |
| CoinsViewCache.CoinsViewCache.SpendCoin | src/coins.cpp:130-150 | In place: performs the spend, reports whether there was an entry, and hands out its coin, which is unspent exactly if a coin was visible. |
| CoinsViewCache.CoinsViewCache.Uncache | src/coins.cpp:274-287 | In place: drops the entry exactly if it carries no flag. |
| CoinsViewCache.CoinsViewCache.NextAndMaybeErase | src/coins.h:284-298 | Returns the successor read before the entry is erased or cleaned; with willErase it changes nothing, otherwise it removes the head of the list. |
| CoinsViewCache.CoinsViewCache.Absorb | src/coins.cpp:189-244 | One entry of a batch write in place: throws exactly on a misapplied FRESH flag, otherwise the parent's entry becomes the merged one and no other entry changes. |
| CoinsViewCache.CoinsViewCache.BatchWrite | src/coins.cpp:183-248 | The whole loop, unlinking and erasing while it iterates: terminates, leaves the parent with the merge of both caches, and without willErase leaves the child's list empty. |
| CoinsViewCache.CoinsDatabase.BatchWrite | src/txdb.cpp:93-155 | The database end of a batch write: dirty entries are written or erased, the others ignored. |
| CoinsViewCache.CoinsViewCache.Flush | src/coins.cpp:250-259 | In place: performs the flush through the base, which ends up at this cache's best block, and ends with an empty, valid cache. |
| CoinsViewCache.CoinsViewCache.Sync | src/coins.cpp:261-272 | In place: performs the sync, after which the base is at this cache's best block; the list is empty afterwards, so its final throw is unreachable. |
| CoinsViewCache.CoinsViewCache.GetBestBlock | src/coins.cpp:173-177 | Returns the best block of the stack, filling in missing hashes on the way. |
| CoinsViewCache.CoinsViewCache.SanityCheck | src/coins.cpp:315-346 | Every assertion of the sanity check holds in every valid cache. |
| CoinsViewCache.CoinsViewCache.SetBestBlock | src/coins.cpp:179-181 | In place: sets the hash and changes nothing else. |
| CoinsViewCache.CoinsViewCache.PerformAt | src/coins.cpp:48-287 | An operation on a cache object any number of levels below: that object and every cache above it stay valid, and the stack of objects does what the views do. |
| CoinsViewCache.CoinsViewCache.Run | src/coins.cpp:48-287 | Any run of operations on the top object and on the cache objects below it in which adds keep their contract and no database is written without a best block: every object stays valid, the stack stands for the run of the views, its coins are those of the flat map and its best blocks those of the column of hashes, and so is every reply. |
| AddrMan.AddrMan.Run | src/addrman.cpp:550-1001 | Over every run of Add, Good, Attempt, Connected, SetServices, GetAddr, ResolveCollisions and SelectTriedCollision, whatever the clock and the random numbers: all indexes, reference counts and counters agree, an occupied tried position never becomes empty, nTried never decreases, and at most ten collisions are pending. |
| AddrMan.AddrMan.constructor | src/addrman.cpp:109-125 | A new manager is empty and satisfies the invariant. |
| AddrMan.AddrMan.Create | src/addrman.cpp:416-430 | In place: a new id enters the info map, the address index, the random order and the counters. |
| AddrMan.AddrMan.SwapRandom | src/addrman.cpp:432-454 | In place: exchanges two entries of the random order with their positions. |
| AddrMan.AddrMan.Delete | src/addrman.cpp:456-471 | In place: takes an unreferenced entry out of all three indexes and the counters. |
| AddrMan.AddrMan.ClearNew | src/addrman.cpp:473-489 | In place: frees a position of the new table and deletes its holder if that was the last one. |
| AddrMan.AddrMan.ClearAllNew | src/addrman.cpp:495-509 | The loop that starts at a computed bucket, wraps around and may stop early frees every position of the entry. |
| AddrMan.AddrMan.MakeTried | src/addrman.cpp:491-548 | In place: moves an entry to its tried position, evicting the holder back to the new table if there is one. |
| AddrMan.AddrMan.AddSingle | src/addrman.cpp:550-624 | The address gets its position exactly if it is admitted: routable, unknown or fresh news of an entry neither tried nor held eight times, and the position free or giving way. The entry of an address that was unknown has the announced services and source, the announced time less the penalty but not below zero, no statistics and one reference; of a known one only time, services and reference count change, each as given; no other address becomes known and no other entry changes except the one that loses the position. |
| AddrMan.AddrMan.Refresh | src/addrman.cpp:565-593 | Time and services of a known entry after an announcement, and exactly when the announcement goes on to claim a position. |
| AddrMan.AddrMan.Good | src/addrman.cpp:626-679 | Records the success on a known entry. Moves it to its tried position exactly if it is not tried yet and the position is free or eviction needs no test; otherwise no position changes hands, and a collision is noted exactly if it was not tried yet and fewer than ten are pending. |
| AddrMan.AddrMan.Add | src/addrman.cpp:681-691 | The tables become those of the announcements taken one by one; true if and only if some address is admitted by the tables its predecessors left; only announced addresses become known; the invariant is kept. |
| AddrMan.AddrMan.Attempt | src/addrman.cpp:693-711 | Records the attempt on that entry alone, and counts a failure only if none was counted since the last success anywhere. |
| AddrMan.AddrMan.Connected | src/addrman.cpp:877-894 | Changes nothing but the time of that entry, and only if it is more than twenty minutes behind. |
| AddrMan.AddrMan.SetServices | src/addrman.cpp:896-910 | Changes nothing but the services of that entry. |
| AddrMan.AddrMan.GetAddr | src/addrman.cpp:812-851 | Returns as many distinct addresses as the limits and the filters allow, all of them eligible, never more than the number or the percentage asked for, and reshuffles only the random order. |
| AddrMan.LimitIs | src/addrman.cpp:817-824 | The limit is at most the number asked for and at most the percentage asked for, if they are; it is no smaller than it has to be: the number of entries, that number, or the percentage rounded down. |
| AddrMan.KeptExactly | src/addrman.cpp:69-92 | Which entries are kept, with the limits written out: not those from more than ten minutes ahead, older than thirty days, never reached in three attempts, or failing ten times without success for a week, unless tried in the last minute. |
| AddrMan.AddrMan.Resolve | src/addrman.cpp:916-964 | A collision is erased exactly if it is settled, and the entry is marked good, taking the position, exactly if it may replace the holder; otherwise the tables are untouched. |
| AddrMan.AddrMan.ResolveCollisions | src/addrman.cpp:912-973 | Takes the pending collisions in ascending order of their ids: each goes if and only if it is settled in the tables its predecessors left, and the tables become those of the resolutions one by one; the invariant is kept. |
| AddrMan.AddrMan.SelectTriedCollision | src/addrman.cpp:975-1001 | Returns the holder of the contested position for an entry that still exists; the lookups never create an entry. |
| AddrTables.MakeTriedKeeps | src/addrman.cpp:491-548 | Promotion keeps the full invariant with or without eviction: exactly the entry's tried position changes hands, the entry keeps its statistics, the evicted one survives outside the tried table, and ids, addresses and occupied tried positions are never lost. |
| AddrTables.EvictedGoesHome | src/addrman.cpp:511-547 | The evicted entry stands afterwards in the new table at the position of its first source, with that one reference. |
| AddrTables.InsertKeeps | src/addrman.cpp:600-623 | Claiming a position for an entry, after clearing it, leaves the full invariant, also for an entry that had no position before. |
| AddrTables.InsertTouches | src/addrman.cpp:600-623 | No entry is touched but the one that takes the position, which counts it, and the one that loses it. |
| AddrTables.DeleteLoose | src/addrman.cpp:456-471 | Deleting the one entry that is in no table restores the full invariant. |
| AddrTables.ClearNewKeeps | src/addrman.cpp:473-489 | Clearing a position keeps all indexes inverse to one another, touches only its holder, and deletes the holder exactly if it was its last reference. |
| AddrTables.SwapConsistent | src/addrman.cpp:432-454 | Reshuffling keeps the full invariant. |
| AddrTables.TriedCount | src/addrman.cpp:1115-1129 | nTried is the number of occupied tried positions. |
| AddrManCheck.CheckAddrman | src/addrman.cpp:1063-1166 | The code is 0 exactly if every one of the check's demands is met, whatever the order of iteration. |
| AddrManCheck.ConsistentPasses | src/addrman.cpp:1063-1166 | A manager that satisfies the invariant passes the check. |
| AddrManCheck.PassingIsConsistent | src/addrman.cpp:1063-1166 | Whatever passes the check satisfies the invariant, given the five things the check does not look at. |
| AddrManCheck.RandomFull | src/addrman.cpp:1069-1103 | That each entry stands where it says and the lengths agree already makes the random order a permutation of the entries. |
| AddrManCheck.StaleIdCountPasses | src/addrman.cpp:1063-1166 | The check does not compare ids with the counter they come from: any passing non-empty manager still passes with the counter at zero, which breaks the invariant. |
| AddrManCheck.StrayAddressPasses | src/addrman.cpp:1073-1103 | It does not look at addresses that no entry has: adding one that leads anywhere still passes and breaks the invariant. |
| AddrManCheck.OutsideBucketPasses | src/addrman.cpp:1132-1145 | It relies on the new table having a fixed size: a reference in a bucket beyond it would pass. |
| AddrManCheck.UnroutablePasses | src/addrman.cpp:1063-1166 | It does not ask whether addresses are routable. |
| AddrManCheck.UncountedNetworkPasses | src/addrman.cpp:1154-1163 | The per-network test misses entries of an uncounted network when some other counter is all zero. |
| AddrManDisk.Serialize | src/addrman.cpp:132-228 | Writes every entry once with its address, time, services, source, last success and attempts, new ones first, every occupied new position as the number of its holder, and the bucket count with bit 30 flipped; neither assertion on the totals can fail. |
| AddrManDisk.Unserialize | src/addrman.cpp:230-399 | Refuses exactly the files with a bad header, bad totals or missing data, in that order; otherwise succeeds if and only if the described entries that have a position pass the final check, in whatever order the others are pruned, and then yields exactly these. |
| AddrManDisk.Prune | src/addrman.cpp:378-388 | Deletes exactly the entries without a position: address index, counters per network and in total, tables and id counter are those of the others, and the random order stays inverse to the positions they record. |
| AddrManDisk.PrunedAlike | src/addrman.cpp:378-398 | The order of pruning does not decide the final check: tables pruned in two ways differ in the random order only, and both pass or both fail. |
| AddrManDisk.LoadRehomes | src/addrman.cpp:348-376 | A file written under another bucket count or checksum: every position asked for goes to the first valid entry that has it as the position of its first source, and an entry ends with one reference if it got that position and none otherwise. |
| AddrManDisk.UncontestedKeepsOne | src/addrman.cpp:348-376 | So a valid entry that some reference names, and whose position no other entry asks for, keeps exactly one reference, at the bucket of its first source. |
| AddrManRoundTrip.RoundTrip | src/addrman.cpp:132-399 | Reading what was written under the same checksum gives every entry back with its address, time, services, source, last success, attempts and whether it is tried, and the same new and tried tables, reference counts, totals and per-network counters up to renumbering; it loses no entry, and passes the check. |
| AddrManRoundTrip.SaveAndLoad | src/addrman.cpp:132-399 | Through the two procedures: reading back what was written never fails and gives the same manager. |
| AddrManRoundTrip.RestoreAllCopies | src/addrman.cpp:348-376 | Replaying the stored references gives every one its old position: none is taken, and no entry reaches its limit early. |
| AddrManRoundTrip.LoadTriedCopies | src/addrman.cpp:293-314 | Every stored tried entry finds its position free. |
| CheckQueue.CompleteIsRight | src/checkqueue.h:72-189 | Under every interleaving and over any number of sessions, each answer of Complete is right for its own session as the list of actions alone tells it: nullopt only if the checks run are exactly those added since the last answer and all of them passed; otherwise the error that the run of one of these checks gave. |
| CheckQueue.StepRecorded | src/checkqueue.h:72-189 | Every step keeps what the queue has on its books equal to what the actions so far say was added and run, check by check with its outcome. |
| CheckQueue.CountersExact | src/checkqueue.h:82-127 | In every reachable state, whatever the number of threads and the batch size: nTodo counts the queued checks plus those in unreported batches modulo 2^32; nIdle and nTotal count the waiting and the entered threads. |
| CheckQueue.StepCounted | src/checkqueue.h:72-189 | Every enabled step of every thread keeps the counters exact and leaves no master asleep without a reason, also when nTodo wraps. |
| CheckQueue.RightExactlyIfFits | src/checkqueue.h:58-137 | For every number of threads and every batch size: Complete is right in every run if and only if the workers together cannot hold 2^32 checks, the k-th worker to enter at most max(1, min(batch size, (2^32 - 1) / (k + 1))). Otherwise some schedule makes the 32-bit nTodo wrap and the master return success over checks that never ran. |
| CheckQueue.BusyIsDoomed | src/checkqueue.h:82-127 | The schedule behind the failing half: from any state with the first k workers loaded, the others can be loaded to exactly 2^32 checks and the master empties the queue and returns a wrong answer. |
| CheckQueue.HeldByWorkers | src/checkqueue.h:116-126 | In every reachable state the workers hold between them at most the sum of what the first, second, ... to enter Loop can take. |
| CheckQueue.FitsSimply | src/checkqueue.h:116-121 | (threads - 1) * max(1, batch size) < 2^32 suffices. |
| CheckQueue.StepKeeps | src/checkqueue.h:72-189 | Within the bound, every enabled step of every thread also keeps the books of the session and the rightness of the answers with respect to them. |
| CheckQueue.NoWrap | src/checkqueue.h:98-110 | Within the bound, an empty queue with nTodo zero means that no batch is unreported. |
| CheckQueue.NeverStalls | src/checkqueue.h:82-127 | In every reachable state with the master in Complete, whatever the number of threads and the batch size, some thread can take a step. |
| CheckQueue.StepEffort | src/checkqueue.h:82-136 | Every internal step lowers a measure, and none but the master's return changes who is inside. |
| CheckQueue.CompleteReturns | src/checkqueue.h:166-169 | From every reachable state with the master in Complete, whatever the number of threads and the batch size: without new calls every schedule ends, and it ends with exactly one more answer. |
| BaseUint.BaseUint.AddAssign | src/arith_uint256.h:129-139 | For every width and also when both operands are one object: the sum modulo 2^BITS; the 64-bit accumulator never overflows. |
| BaseUint.BaseUint.Complement | src/arith_uint256.h:63-69 | 2^BITS - 1 minus the value. |
| BaseUint.BaseUint.Negate | src/arith_uint256.h:71-78 | The additive inverse modulo 2^BITS. |
| BaseUint.BaseUint.SubAssign | src/arith_uint256.h:141-145 | The difference modulo 2^BITS. |
| BaseUint.BaseUint.AddAssign64 | src/arith_uint256.h:147-153 | Adding a 64-bit number modulo 2^BITS. |
| BaseUint.BaseUint.SubAssign64 | src/arith_uint256.h:155-161 | Subtracting a 64-bit number modulo 2^BITS. |
| BaseUint.BaseUint.Increment | src/arith_uint256.h:167-174 | Counting up, around at 2^BITS. |
| BaseUint.BaseUint.Decrement | src/arith_uint256.h:184-191 | Counting down, around at 0. |
| BaseUint.BaseUint.Set | src/arith_uint256.h:82-89 | The value of a 64-bit number, whatever was there before. |
| BaseUint.BaseUint.GetLow64 | src/arith_uint256.h:234-238 | The value modulo 2^64. |
| BaseUint.BaseUint.MulAssign32 | src/arith_uint256.cpp:47-57 | The product with a 32-bit number modulo 2^BITS, without 64-bit overflow. |
| BaseUint.BaseUint.MulAssign | src/arith_uint256.cpp:59-73 | The product modulo 2^BITS, without 64-bit overflow, also when an operand is multiplied by itself. |
| BaseUint.BaseUint.ShiftLeft | src/arith_uint256.cpp:13-28 | Times 2^shift modulo 2^BITS, for every shift. |
| BaseUint.BaseUint.ShiftRight | src/arith_uint256.cpp:30-45 | Divided by 2^shift, rounded down, for every shift. |
| BaseUint.BaseUint.DivAssign | src/arith_uint256.cpp:75-99 | Exactly the quotient rounded down; division by zero is reported with the dividend already cleared. |
| BaseUint.BaseUint.CompareTo | src/arith_uint256.cpp:101-111 | The order of the two numbers. |
| BaseUint.BaseUint.EqualTo | src/arith_uint256.cpp:113-125 | Equality with a 64-bit number. |
| BaseUint.BaseUint.Bits | src/arith_uint256.cpp:155-168 | The position of the highest bit: the value lies between the two powers of two around it. |
| Compact.SetCompact | src/arith_uint256.cpp:175-193 | The value is mantissa * 256^(exponent-3) rounded down and wrapped; the overflow flag is set exactly if it does not fit in 256 bits, the negative flag exactly if the sign bit is set and the number is not zero. |
| Compact.OverflowExact | src/arith_uint256.cpp:188-191 | The three thresholds of the overflow flag are together exactly mantissa * 256^(exponent-3) >= 2^256. |
| Compact.GetCompact | src/arith_uint256.cpp:195-216 | Mantissa and exponent are the leading bytes and the length of the number, moved on by a byte when the sign bit would be set; a zero never carries a sign. |
| Compact.CompactLosesLittle | src/arith_uint256.cpp:195-216 | Encoding never rounds up and loses less than one part in 2^15 of what is left. |
| Compact.CompactStable | src/arith_uint256.cpp:175-216 | Encoding what an encoding stands for gives the same encoding. |
| Compact.Recode | src/arith_uint256.cpp:175-216 | For every 256-bit number, decoding its encoding is never negative and never overflows, and obeys both laws. |
| Compact.GetBlockProof | src/chain.cpp:131-144 | The work is 2^256 / (target + 1) rounded down for every valid target, and zero for the others. |
| Compact.WorkIs | src/chain.cpp:139-143 | The expression that avoids 2^256 equals it, and adding one never wraps. |
| Compact.TargetLeavesRoom | src/chain.cpp:138-143 | target + 1 never wraps to zero. |
| Compact.WorkMonotone | src/chain.cpp:131-144 | A larger target never yields more work. |
| Chain.InvertsLowestOne | src/chain.cpp:79-80 | Exactly the lowest one bit is cleared. |
| Chain.GetSkipHeight | src/chain.cpp:82-91 | Strictly lower than any height of at least 1, and never negative. |
| Chain.SkipHeightBits | src/chain.cpp:82-91 | By the bits of the height: 0 below 2; for an even height exactly that height without its lowest one bit; for an odd one exactly that height without the two lowest one bits above its last bit. |
| Chain.BlockIndex.GetAncestor | src/chain.cpp:93-118 | Whichever skip and prev links it follows, it terminates at the block the plain pprev walk reaches; null exactly outside the range. |
| Chain.BlockIndex.BuildSkip | src/chain.cpp:125-129 | Sets the skip pointer to the right ancestor and keeps the tree well formed. |
| Chain.Append | src/node/blockstorage.cpp:221-226 | Appending a block keeps the tree well formed and no earlier block changes its ancestors. |
| Chain.AncestorOfAncestor | src/chain.cpp:93-118 | An ancestor's ancestor is the ancestor at that height: skips can be composed. |
| Chain.Chain.SetTip | src/chain.cpp:21-29 | From any consistent chain every slot holds the new tip's ancestor at its height, although the loop stops at the first match. |
| Chain.OldInPlace | src/chain.cpp:21-29 | Where an old chain agrees with the path to the new tip at one height, it agrees at all heights below. |
| Chain.Chain.FindFork | src/chain.cpp:60-69 | Returns the highest ancestor of the block on the chain, or null if there is none. |
| Chain.LastCommonAncestor | src/chain.cpp:165-180 | Returns the highest common ancestor, and null exactly if the roots differ; its assertion holds in both cases. |
| Chain.PathIs | src/chain.cpp:93-118 | The path of a block lists its ancestor at every height. |
| Bech32.PolyMod | src/bech32.cpp:130-216 | The in-place loop over shifts, masks and conditional additions computes the fold of one step, whose meaning is the next rows. |
| Bech32Polynomials.PolyModIsRemainder | src/bech32.cpp:130-216 | With polynomials over GF(32) and the generator g(x) defined by themselves: six coefficients are a remainder of the input polynomial, with its implicit leading 1, modulo g(x) if and only if they are the ones PolyMod packs into its result. |
| Bech32Polynomials.VerifiesExactly | src/bech32.cpp:312-339 | A human-readable part and symbols verify under an encoding if and only if the polynomial with the coefficients high parts, a zero, low parts and symbols, index by index, leaves the remainder 1, or for Bech32m {21}x^5 + {28}x^4 + {16}x^3 + {12}x^2 + {5}x + {3}, modulo g(x). |
| Bech32Polynomials.EncodesCodeword | src/bech32.cpp:312-371 | So a string encodes values exactly if it is the human-readable part, the separator and the values with six more symbols that make such a polynomial. |
| Bech32Polynomials.StepIs | src/bech32.cpp:178-214 | One step is c(x) * x + v modulo g(x), coefficient by coefficient. |
| Bech32Polynomials.ConstantsAre | src/bech32.cpp:199-212 | The five constants are x^6 mod g(x) times 1, a, a^2, a^3 and a^4 in GF(32). |
| Bech32Polynomials.RemainderUnique | src/bech32.cpp:130-143 | Quotient and remainder modulo g(x) are unique. |
| Bech32.FoldLinear | src/bech32.cpp:178-214 | The remainder is linear in start value and symbols. |
| Bech32.StepInjective | src/bech32.cpp:193-212 | Multiplying a remainder by x is zero only for the zero remainder. |
| Bech32.ChecksumVerifies | src/bech32.cpp:312-353 | Appending six symbols makes a string verify under an encoding exactly if they are its checksum. |
| Bech32.CreateChecksum | src/bech32.cpp:312-353 | Of all six symbols, returns the only ones with which the human-readable part and the values verify. |
| Bech32.VerifyChecksum | src/bech32.cpp:312-339 | Names the encoding under which the coefficients of the human-readable part and the values leave the constant, if there is one. |
| Bech32.ErrorBurst | src/bech32.cpp:327-339 | Two equally long value strings that differ only within six consecutive symbols never both verify under the same encoding. |
| Bech32.HrpBurst | src/bech32.cpp:312-339 | Two equally long human-readable parts whose coefficients differ only within six consecutive ones never both verify with the same symbols. |
| Bech32.HrpTypo | src/bech32.cpp:312-339 | Nor do two that differ only within six consecutive characters, each replaced by one of the same block of 32. |
| Bech32.CheckCharacters | src/bech32.cpp:287-309 | Accepts exactly the strings of printable characters without mixed case, and reports exactly the positions that are not printable or not of the case of the first letter, in order. |
| Bech32.Encode | src/bech32.cpp:358-371 | Character by character: the human-readable part, the separator, the values in the source's alphabet, and six symbols with which they verify. |
| Bech32.Decode | src/bech32.cpp:374-400 | Returns exactly the triple that the string, lowered, encodes in that sense, for strings of printable characters without mixed case within the limit; nothing for every other string. |
| Bech32.EncodedAccepted | src/bech32.cpp:358-400 | Every encoding of a non-empty printable part without upper case, '1' included, is accepted as itself within the limit. |
| Bech32.EncodeDecode | src/bech32.cpp:358-400 | Decoding what was encoded gives it back. |
| Bech32.CharsetInverse | src/bech32.cpp:22-35 | The two character tables are inverse to one another. |
| Bech32.CharsetIs | src/bech32.cpp:22-23 | The characters are those of the source's table, in its order. |
| Bech32.CharsetRevInverse | src/bech32.cpp:25-35 | Each accepted character, in either case, stands for the symbol that is written as its lower case. |
| Base58.MulAdd | src/base58.cpp:63-70 | The in-place inner loop multiplies and adds exactly; if the result fits the buffer, nothing is carried out, and the length stays the number of digits. |
| Base58.FitsIn58 | src/base58.cpp:98-100 | 138/100 suffices at every length: any bytes fit in the buffer sized for them. |
| Base58.FitsIn256 | src/base58.cpp:53-55 | 733/1000 suffices at every length: any base 58 digits fit in the buffer sized for them. |
| Base58.CharIs | src/base58.cpp:20-20 | The digits are written in the source's alphabet, in its order. |
| Base58.EncodeBase58 | src/base58.cpp:89-127 | A one per leading zero byte, then the base 58 digits of the rest without leading zeros; the assertion on the carry never fires. |
| Base58.DecodeBase58 | src/base58.cpp:40-135 | Accepts exactly the strings that are, up to outer white space, the encoding of a byte string within the limit, and returns that byte string; the assertion on the carry never fires. |
| Base58.ReadDigits | src/base58.cpp:57-73 | Gives up early only on strings that are not accepted: an invalid character, or a result already too long. |
| Base58.AcceptedExactly | src/base58.cpp:40-87 | What is accepted, in terms of the parts the decoder splits a string into. |
| Base58.EncodeDecode | src/base58.cpp:40-127 | Decoding what was encoded gives it back, for every byte string within the limit. |
| Base58.DecodeEncode | src/base58.cpp:40-127 | Encoding what was decoded gives the string back without the white space around it. |
| Base58.EncodeBase58Check | src/base58.cpp:137-144 | The encoding of the bytes followed by four bytes of their hash. |
| Base58.DecodeBase58Check | src/base58.cpp:146-169 | Accepts exactly the encodings whose last four bytes are the hash of the rest, under a limit raised by four, so that the payload obeys the one given. |
| Base58.CheckRoundTrip | src/base58.cpp:137-169 | Decoding a checked encoding gives the payload back. |
| CompactBlock.PartiallyDownloadedBlock.InitData | src/blockencodings.cpp:48-172 | INVALID exactly for a malformed compact block or a used object, FAILED exactly for repeated short ids or an overfull bucket. Otherwise prefilled transactions are in place, and on a new object the position of each short id holds the only mempool transaction that has it, unless an extra one with another witness hash has it too; or, if none of the mempool has it, the extra one if all that have it are the same; and is empty if none has it. That holds although the scan may stop early; and if some short id is unknown, so that it cannot, no other position is filled. |
| CompactBlock.ScannedFinds | src/blockencodings.cpp:104-167 | The same of the two scans, one short id at a time, from any counter that is not positive. |
| CompactBlock.StaleCountMisses | src/blockencodings.cpp:104-132 | With a counter left at the number of short ids by earlier use of the object, the scan ends after one mempool transaction and misses the next one. |
| CompactBlock.ExtraFirst | src/blockencodings.cpp:135-167 | While the scan goes on, a position without a match takes the first extra transaction that has its short id, and loses it to the first different one. |
| CompactBlock.AllFilled | src/blockencodings.cpp:127-166 | The scan stops only when every position is filled. |
| CompactBlock.PartiallyDownloadedBlock.PlacePrefilled | src/blockencodings.cpp:60-75 | Accepts exactly the lists whose positions ascend within range, and puts each transaction in its own position. |
| CompactBlock.PartiallyDownloadedBlock.MapIds | src/blockencodings.cpp:82-100 | The i-th short id is mapped to the i-th position that is not prefilled; the search never leaves the array and no 16-bit value wraps. |
| CompactBlock.ScannedOk | src/blockencodings.cpp:104-167 | Whatever transactions are known: prefilled positions stay, every other position holds at most a known transaction with the right short id, and the count is exact. |
| CompactBlock.OnlyMatch | src/blockencodings.cpp:109-132 | While the scan goes on, a position is filled exactly if one mempool transaction matches it; a second match empties it for good. |
| CompactBlock.PartiallyDownloadedBlock.IsTxAvailable | src/blockencodings.cpp:174-180 | True exactly if the object is in use and the position is filled. |
| CompactBlock.PartiallyDownloadedBlock.FillBlock | src/blockencodings.cpp:182-229 | Takes exactly as many transactions as positions are empty, in order, and reports the block check's verdict; the object cannot be used again, unless the list was too short, which empties the positions before the first one left over. |
| CompactBlock.FilledIsBlock | src/blockencodings.cpp:192-200 | If only transactions of the block are in place, filling in the others in order gives the block. |
| CompactBlock.ScannedIsPart | src/blockencodings.cpp:48-172 | If no known transaction shares a short id with a different block transaction, only transactions of the block are in place. |
| CompactBlock.Rebuild | src/blockencodings.cpp:48-229 | A compact block that describes a block, received, completed with the unavailable transactions and filled, is rebuilt exactly, unless the receiver has to fall back; and exactly when it has to. |
| CompactBlock.Shorten | src/blockencodings.cpp:20-30 | The coinbase is prefilled; every other transaction is its short id. |
| CompactBlock.ShortenedDescribes | src/blockencodings.cpp:20-30 | What the sender makes of a block is well formed and describes that block. |
| DifferenceCoding.DifferenceFormatter.Ser | src/blockencodings.h:28-33 | Refuses exactly a value that does not exceed its predecessor, and writes the distance otherwise. |
| DifferenceCoding.DifferenceFormatter.Unser | src/blockencodings.h:35-41 | Refuses exactly a sum that leaves the range of an index. |
| DifferenceCoding.Write | src/blockencodings.h:22-42 | A list can be written exactly if it is strictly increasing. |
| DifferenceCoding.Read | src/blockencodings.h:22-42 | A list can be read exactly if its values fit, is strictly increasing, and has the given differences. |
| DifferenceCoding.WriteRead | src/blockencodings.h:22-42 | Reading what was written gives it back. |

## Left out

- CoinsViewCache.CoinsViewCache.Flush: has no branch for a base that returns false, because neither base does: the cache returns true (src/coins.cpp:247) and the store returns true or throws (src/dbwrapper.cpp:285-300); the throw is not modelled. Over a database it requires a non-null best block, as the assertion at src/txdb.cpp:97 does.
- CoinsViewCache.CoinsViewCache.Sync: as for Flush.
- CoinsViewCache.CoinsDatabase.BatchWrite: partial batches, the head-blocks marker for crash recovery and errors of the store are not modelled.
- CompactBlock.PartiallyDownloadedBlock.InitData: requires the 16-bit limit on the number of transactions that deserialisation enforces (src/blockencodings.h:126-129); the test for overfull hash buckets is a parameter because it depends on the standard library.
- Bech32.Encode: requires an ASCII human-readable part; for bytes from 0x80 the source depends on the signedness of `char`.
- AddrMan.AddrMan.SelectTriedCollision: the random choice among the pending collisions is a parameter.
- AddrManDisk.Unserialize: the file is a record of fields and lists, not bytes; the encoding of addresses per format version is not modelled.
- Pointers of the flagged list are keys of the map that owns the pairs, and the bucket tables are maps from positions to ids instead of two-dimensional arrays.
- EmplaceCoinInternalDANGER, AddCoins, AccessByTxid, HaveInputs, SetBackend, ReallocateCache, CCoinsViewErrorCatcher: unchecked loading, wrappers and memory management.
- Select_, GetChance, GetEntries_, FindAddressEntry_, Size_: selection weights and plain queries of the address manager.
- Overflow of the 64-bit id counter of the address manager, of int counters of threads, and of int lengths in src/base58.cpp.
- Shutdown and thread creation of the check queue.
- getdouble, hex conversion and the bitwise operators of base_uint other than complement and shifts.
- LocatorEntries, FindEarliestAtLeast, GetBlockProofEquivalentTime.
- LocateErrors and the tables of GF(1024) in src/bech32.cpp; detection of four errors anywhere in 89 characters.
- The statistic extra_count and the logging of compact block reconstruction.
