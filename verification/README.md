# Verified models of the RT-Thread kernel services and SEGGER RTT

This project models, in Dafny, the parts of an RT-Thread 4.1.1 board support package whose
correctness is hardest to see from the code, and proves what they promise:

* the **small-memory heap** (`mem.c`): boundary tags in one byte array, refined to a sequence of tiles;
* **memheap** (`memheap.c`): an address-ordered circular block list and a free list that must agree;
* **IPC** (`ipc.c`) and **memory pools** (`mempool.c`): semaphore, recursive mutex with priority
  inheritance, event, mailbox, message queue and pool, as transition systems whose steps are the
  critical sections between disabling and enabling interrupts;
* the **RTT up-buffer** (`SEGGER_RTT.c`): a ring shared without a lock with a debug probe, its fast
  and slow write paths, overwrite mode, and virtual terminals.

`dafny verify dfyconfig.toml` checks everything.

## How it is organised

| files | what |
|---|---|
| `Machine` | bytes, unsigned 32-bit words, alignment |
| `ByteMemory`, `Tiling`, `HeapLayout`, `HeapBytes`, `HeapOutcomes`, `BlockHeap`, `SmallMem`, `HeapRuns`, `HeapTraces` | small-memory heap: little-endian words in bytes, the tile list and its operations, tiles laid out in words, what happens to payload bytes, the class that rewrites headers in place, the allocator with its account, whole runs on tiles and on bytes |
| `LinkedRing`, `MemheapLayout`, `Memheap` | circular doubly linked lists, the agreement of the two lists and the byte count, the allocator |
| `WaitList`, `NodeList`, `Deque` | wait lists and woken threads; singly linked node lists; what comes out of a queue filled at both ends, over its whole history |
| `Semaphore`, `Mutex`, `PriorityInheritance`, `PriorityRuns`, `Event`, `Mailbox`, `MessageQueue`, `MqObject`, `Mempool` | one kernel object each: a step function, its invariant over all runs, and the class whose methods refine the step function |
| `Ring`, `RttBuffer`, `Overwrite`, `RttProtocol`, `Terminal` | the ring as a value, the up-buffer class, overwrite mode, the interleaving of target and host, terminals |

## Decisions

* Configuration: 4-byte alignment, no memory tracing, so a small-heap header has 12 bytes, a memheap
  header 24, and the smallest allocation 12. Sizes and addresses are 32 bits wide: sums wrap around,
  and where that matters the exact condition is a lemma (`SmallMem.RegionFits`, `HeapRuns.RoomForRequest`,
  `Memheap.NeededRoomIff`, `Memheap.ResizedGoodIff`, `Mempool.BlocksFit`, `MqObject.MessagesFit`).
* `RT_ASSERT` conditions are preconditions: blocks passed to free and realloc are live, a waiting
  thread has asked for all or any of its flags.
* A blocking call is a sequence of passes. Each pass is one critical section: it succeeds, fails, or
  leaves the thread suspended; a woken thread starts its next pass. A thread whose timer runs out
  leaves its wait list (`thread.c`). `woken` is the set of threads resumed that have not run since.
  A call from an interrupt is a pass by a thread that never waits.
* The host of `WriteBlocking`, `SetTerminal` and `TerminalOut` is a list that says how many bytes it
  takes before each round; a blocked call ends, unfinished, when the list does.
* Event flags are sets of bit numbers below 32; `&`, `|` and `& ~` are intersection, union and difference.
* The model of memheap keeps one map per header field, keyed by the offset of the block; the header of
  the free list is the key -1. Stale links of blocks outside the free list are not cleared.
* The modes of an up-buffer are values of its flags word: writing compares the whole word, the terminal
  functions its two lowest bits.
* Overwrite mode takes buffer and data to lie in one 32-bit address space, so that adding their
  lengths does not wrap.

## Where the code and the natural claim part

* `heap_end`'s prev is not kept (`BlockHeap.EndPrevAfterInit`); it is left out of the prev invariant. The two redirections of lfree in
  `plug_holes` never take effect, because lfree is the lowest free block (`Tiling.JoinLowest`).
* `rt_smem_realloc` does not raise the size to the minimum when it shrinks, and a slight shrink
  allocates, copies and frees: both are part of the plan that `Tiling.ReallocPlan` spells out.
* memheap refuses a request for exactly the bytes available: `Memheap.RefusedIff`.
* `rt_memheap_realloc` decides whether a block can grow into a free one behind it by adding 12 to the new
  size, which wraps around for 2^32 - 12, 2^32 - 8 and 2^32 - 4. The block then "grows" into its own header:
  `Memheap.GrowsIntoItself`; exactly when the lists survive is `Memheap.ResizedGoodIff`.
* Priority inheritance holds for threads that hold one mutex at a time. For threads that hold several,
  `PriorityRuns.RunUrgentIff` says exactly which runs keep owners as urgent as those they block,
  `PriorityRuns.RunBaseIff` exactly which bring threads back to their own priority, and
  `PriorityRuns.RunAtBase` names an order of releasing that does; two runs show what goes wrong otherwise.
* Overwrite mode keeps the newest data exactly up to a length that depends on WrOff: `Overwrite.NewestKeptIff`.
* `SEGGER_RTT_GetBytesInBuffer` is wrong whenever the unread bytes wrap, except by accident
  (`RttBuffer.BytesMisreported`). On a one-byte buffer overwrite mode does not end (`Overwrite.LoopEndsIff`).
* Memory pools wake the newest waiter first, not the oldest; without room for one block `rt_mp_init` writes
  before the pool.

## Model

| member | source | states |
|---|---|---|
| `SmallMem.RegionFits` | RTT_template/rt-thread/src/mem.c:186-197 | whenever initialisation accepts a region, the heap is aligned and its size does not underflow; blocks and closing header lie inside the region behind the memory object if and only if neither the aligned start of the region nor the end of the object wraps around 2^32 |
| `SmallMem.SmallMem.constructor` | RTT_template/rt-thread/src/mem.c:203-240 | a fresh heap is one free tile up to heap_end, nothing used; `Valid` holds |
| `SmallMem.SmallMem.Alloc` | RTT_template/rt-thread/src/mem.c:279-404 | keeps `Valid` (bytes hold a tiling with right prev links, aligned offsets, no adjacent free tiles, lfree the lowest free tile, used the bytes of the live tiles, max at least that); with n the size rounded up to a multiple of 4 and at least 12 (12 where the rounding wraps), it refuses, changing nothing, exactly when every free tile has fewer than n data bytes, and otherwise hands out a live tile with at least n and fewer than n + 24, carved from the lowest one with room; max is the running maximum; the payload of every live block is unchanged |
| `SmallMem.SmallMem.Free` | RTT_template/rt-thread/src/mem.c:512-556 | keeps `Valid`; the block and its free neighbours become one free tile, all other live payloads are unchanged; the null pointer changes nothing |
| `SmallMem.SmallMem.Realloc` | RTT_template/rt-thread/src/mem.c:418-503 | keeps `Valid`; a null result for a size that does not align to zero, and null with zero, leave the whole state unchanged; a size that aligns to zero releases the block and leaves all other payloads intact; null with a size is served like an allocation, all payloads intact; a block of n bytes or of more than n + 24 stays and gets exactly n bytes, any other is refused exactly when no free tile has max(n, 12) bytes and otherwise moves to one that is left with fewer than 24 more; the first min(old, new) bytes are carried over and all other live blocks keep place and payload; max is the running maximum, the moment with both blocks included |
| `SmallMem.SmallMem.Resize` | RTT_template/rt-thread/src/mem.c:454-502 | the same for a live block, with max also covering the moment when old and new block are both in use |
| `SmallMem.RequestIs` | RTT_template/rt-thread/src/mem.c:300-305 | the size searched for, in numbers, for every 32-bit size: rounded up to a multiple of 4, at least 12, and 12 where the rounding wraps around |
| `HeapRuns.LeastRequest` | RTT_template/rt-thread/src/mem.c:300-305 | below 2^32 - 3 it is the least multiple of 4 that is at least the size asked for and at least 12 |
| `HeapOutcomes.AllocatedServed` | RTT_template/rt-thread/src/mem.c:313-377 | what first fit and carving mean in bytes: refusal exactly when every free tile is too small, else a live tile at the result with at least n and fewer than n + 24 data bytes |
| `HeapOutcomes.ResizedRefitted` | RTT_template/rt-thread/src/mem.c:454-502 | what keeping, shrinking, moving and refusing mean in bytes: which blocks stay, how large the result is, when it is null, and that the data follows |
| `BlockHeap.BlockHeap.constructor` | RTT_template/rt-thread/src/mem.c:220-239 | the bytes written by initialisation represent exactly the tile list with one free tile |
| `BlockHeap.BlockHeap.PlugHoles` | RTT_template/rt-thread/src/mem.c:125-163 | rewriting three words per join turns a free tile and its free neighbours into one, keeps all headers and prev links right (heap_end's prev excepted) and lfree the lowest free tile, and touches no byte outside the run |
| `BlockHeap.BlockHeap.Search` | RTT_template/rt-thread/src/mem.c:313-319 | starting at lfree and stopping at `mem_size_aligned - size` finds the first free tile with room in the whole heap, or shows that there is none |
| `BlockHeap.BlockHeap.SplitBlock` | RTT_template/rt-thread/src/mem.c:339-354 | the header writes of a split yield the tile list with the tile cut in two and leave the payload before the cut alone |
| `BlockHeap.BlockHeap.AdvanceLfree` | RTT_template/rt-thread/src/mem.c:383-387 | the loop leaves lfree at the lowest free tile or at heap_end |
| `BlockHeap.BlockHeap.AllocBlock` | RTT_template/rt-thread/src/mem.c:300-403 | allocation on the byte heap refines first fit on the tile list; all live payloads are intact |
| `BlockHeap.BlockHeap.FreeBlock` | RTT_template/rt-thread/src/mem.c:536-555 | release on the byte heap refines merging on the tile list; the bytes in use drop by exactly what is freed; other live payloads are intact |
| `BlockHeap.BlockHeap.ShrinkBlock` | RTT_template/rt-thread/src/mem.c:464-491 | shrinking in place refines splitting and joining on the tile list and keeps the first bytes and all other blocks |
| `BlockHeap.BlockHeap.MoveBlock` | RTT_template/rt-thread/src/mem.c:494-502 | allocate, copy, free: refuses without change exactly when no tile has room, else the data is in the new block and bystanders are safe |
| `Tiling.AllocWellTiled` | RTT_template/rt-thread/src/mem.c:313-377 | allocation keeps the tiles covering the heap exactly, with no two adjacent free ones |
| `Tiling.FreeWellTiled` | RTT_template/rt-thread/src/mem.c:125-163 | release keeps the tiles covering the heap exactly, with no two adjacent free ones |
| `Tiling.NoFitBeyond` | RTT_template/rt-thread/src/mem.c:313-315 | the loop bound skips no candidate: a tile starting beyond it is too small |
| `Tiling.FitsIff` | RTT_template/rt-thread/src/mem.c:313-319 | the search result is `none` if and only if no free tile fits |
| `Tiling.TilesDisjoint` | RTT_template/rt-thread/src/mem.c:317-400 | different blocks, headers included, never overlap |
| `Tiling.InUseIsLive` | RTT_template/rt-thread/src/mem.c:355-371 | the incremental account is the sum over the live tiles |
| `Tiling.AllocThenFree` | RTT_template/rt-thread/src/mem.c:313-400 | releasing a block right after allocating it restores the exact tile list, hence lfree |
| `Tiling.FreeEverything` | RTT_template/rt-thread/src/mem.c:541-555 | releasing every live block once, in any order, leaves the single free tile of a fresh heap |
| `Tiling.NothingLive` | RTT_template/rt-thread/src/mem.c:220-224 | a well-tiled heap without live blocks is the initial one |
| `HeapRuns.RunInvariant` | RTT_template/rt-thread/src/mem.c:279-556 | after every run of calls: exact tiling, no adjacent free tiles, every offset aligned, tile bytes add up to the heap |
| `Machine.Aligns` | RTT_template/rt-thread/src/mem.c:300-301 | every size a caller passes becomes a multiple of 4, and a multiple of 4 stays as it is |
| `HeapTraces.Perform` | RTT_template/rt-thread/src/mem.c:279-556 | every call of the allocator, on its bytes, is a step of the runs below |
| `HeapTraces.RunTiled` | RTT_template/rt-thread/src/mem.c:279-556 | in every run of calls and of owners writing to their blocks the tiles cover the heap, with no two adjacent free ones |
| `HeapTraces.PayloadStays` | RTT_template/rt-thread/src/mem.c:279-556 | in every such run the payload of a live block stays what it is, byte for byte, and the block where it is, until it is freed, reallocated or written by its owner |
| `BlockHeap.BlockHeap.OwnerStores` | RTT_template/rt-thread/src/mem.c:398-399 | an owner writing inside its block leaves the heap sound |
| `BlockHeap.EndPrevAfterInit` | RTT_template/rt-thread/src/mem.c:233-233 | in every fresh heap heap_end's prev is heap_end itself, not the last block |
| `HeapRuns.RoomForRequest` | RTT_template/rt-thread/src/mem.c:300-304 | the block handed out is at least as large as asked for if and only if the size is at most 2^32 - 4 (alignment wraps beyond) |
| `HeapRuns.LayoutUnique` | RTT_template/rt-thread/src/mem.c:220-233 | the header words determine the tile list: two tilings of the same memory are equal |
| `Memheap.Memheap.constructor` | RTT_template/rt-thread/src/memheap.c:86-137 | a pool of at least two headers gives one free block and the used end block, in both lists, with the right count; `Valid` holds if and only if the pool is that large |
| `Memheap.Memheap.LinkBehind` | RTT_template/rt-thread/src/memheap.c:261-265 | the four link writes insert a block into the circular list behind a given one |
| `Memheap.Memheap.Unlink` | RTT_template/rt-thread/src/memheap.c:41-49 | the two link writes take a block out of the circular list; forward and backward links stay inverse |
| `Memheap.Memheap.Search` | RTT_template/rt-thread/src/memheap.c:218-228 | the walk finds the first block of the free list with room, with its size read from the links, or none |
| `Memheap.Memheap.Alloc` | RTT_template/rt-thread/src/memheap.c:183-346 | keeps `Valid` (circular address-ordered block list with inverse links, free list holding exactly the free blocks once each, no adjacent free blocks, available_size the sum of the free data sizes); null, changing nothing, exactly when no free block has the n bytes needed or n is all that is available; else the first block of the free list with n bytes is now used and has at least n and fewer than n + 36; from n + 36 bytes on the rest is a free block at its end and n + 24 bytes are no longer available, below that the whole block is taken; max_used_size is the running maximum |
| `Memheap.Memheap.Free` | RTT_template/rt-thread/src/memheap.c:597-724 | keeps `Valid`; the block is no longer used, no other mark changes, and its data and 24 bytes for each block merged away become available; merges left, right, both or neither, in both lists; null is ignored |
| `Memheap.Memheap.Grow` | RTT_template/rt-thread/src/memheap.c:413-474 | growth into a free neighbour moves the boundary between the two blocks; it keeps `Valid` if and only if the sum in the test for it does not wrap around; the count is the unsigned difference |
| `Memheap.Memheap.Shrink` | RTT_template/rt-thread/src/memheap.c:521-578 | shrinking keeps `Valid`, with and without a merge of the rest with a free neighbour |
| `Memheap.Memheap.Realloc` | RTT_template/rt-thread/src/memheap.c:361-588 | every branch as specified; `Valid` is kept if and only if no sum that wrapped around decides that the block grows; a block stays exactly if it is large enough or, by the test of the code, together with a free one behind it; null for a nonzero size leaves lists, count and maximum unchanged, and comes exactly when it cannot stay and an allocation would be refused; a block that stays has exactly the n bytes needed, or is unchanged and large enough; one in another place was free, has at least n and fewer than n + 36 bytes, and if there was room for that the rest is a free block at its end |
| `LinkedRing.InsertAfter` | RTT_template/rt-thread/src/memheap.c:261-277 | the four assignments of an insertion turn the ring of a sequence into the ring of the sequence with the element inserted |
| `LinkedRing.RemoveAt` | RTT_template/rt-thread/src/memheap.c:41-49 | the two assignments of a removal turn the ring of a sequence into the ring without the element |
| `MemheapLayout.SplitGood` | RTT_template/rt-thread/src/memheap.c:236-277 | splitting keeps the agreement of the two lists |
| `MemheapLayout.FreedGood` | RTT_template/rt-thread/src/memheap.c:645-713 | release with any combination of merges keeps the agreement |
| `MemheapLayout.MovedGood` | RTT_template/rt-thread/src/memheap.c:444-474 | moving the boundary behind a live block keeps the agreement |
| `MemheapLayout.SplitBytes` | RTT_template/rt-thread/src/memheap.c:282-285 | the decrement after a split is exact |
| `MemheapLayout.GivenBackBytes` | RTT_template/rt-thread/src/memheap.c:647-657 | the increments of a release and of a left merge are exact |
| `MemheapLayout.TakesNextBytes` | RTT_template/rt-thread/src/memheap.c:672-673 | the increment of a right merge is exact |
| `MemheapLayout.MovedBytes` | RTT_template/rt-thread/src/memheap.c:432-433 | the change of the count by growing and shrinking in place is exact |
| `Memheap.RefusedIff` | RTT_template/rt-thread/src/memheap.c:200-235 | a request is refused if and only if no free block has room or it equals all available bytes |
| `Memheap.RefusesTheLastBlock` | RTT_template/rt-thread/src/memheap.c:200-200 | a concrete heap whose only free block has just the requested size refuses the request |
| `Memheap.CarvedOut` | RTT_template/rt-thread/src/memheap.c:233-299 | of a free block with n + 36 bytes or more exactly n are handed out, a free block begins behind them, and the count falls by n + 24; a smaller one is handed out whole |
| `Memheap.ResizedOut` | RTT_template/rt-thread/src/memheap.c:391-588 | the sizes of what reallocation of a live block gives, in place and elsewhere, and the free block left behind what was taken elsewhere |
| `Memheap.FreedMore` | RTT_template/rt-thread/src/memheap.c:645-713 | a release adds the data size of the block and one header for each merge to the count, and changes no other mark |
| `Memheap.CarvedStays` | RTT_template/rt-thread/src/memheap.c:231-312 | allocation leaves every live block in place and as large as it was |
| `Memheap.FreedStays` | RTT_template/rt-thread/src/memheap.c:645-713 | so does the release of another block, whatever it is merged with |
| `Memheap.ResizedStays` | RTT_template/rt-thread/src/memheap.c:391-578 | so does reallocation of another block: growing, shrinking, moving or refusing, unless a wrapped sum decides |
| `Memheap.RunGood` | RTT_template/rt-thread/src/memheap.c:74-724 | after every run from initialisation, of calls none of which lets a wrapped sum decide, the two lists agree |
| `Memheap.RunGoodIff` | RTT_template/rt-thread/src/memheap.c:74-724 | the two lists agree all along a run if and only if no call in it lets a wrapped sum decide |
| `Memheap.ResizedGoodIff` | RTT_template/rt-thread/src/memheap.c:391-506 | reallocation of a live block keeps the agreement if and only if no wrapped sum decides that it grows |
| `Memheap.GrowthSoundIff` | RTT_template/rt-thread/src/memheap.c:430-430 | for an aligned size above the old one: if and only if it is at most 2^32 - 16, or the block behind is used, or the wrapped test fails |
| `Memheap.GrowsIntoItself` | RTT_template/rt-thread/src/memheap.c:430-447 | a concrete heap in which a block of 12 bytes, reallocated to 2^32 - 12, is given a free block that begins in its own header |
| `Memheap.NeededRoomIff` | RTT_template/rt-thread/src/memheap.c:192-195 | the size reserved is at least the size asked for if and only if that is at most 2^32 - 4 |
| `Memheap.LeastNeeded` | RTT_template/rt-thread/src/memheap.c:192-195 | up to 2^32 - 4 it is the least multiple of 4 that is at least the size asked for and at least 12 |
| `Memheap.NeededTwice` | RTT_template/rt-thread/src/memheap.c:377-384 | a size that was aligned and raised once is not changed by the second round in alloc |
| `RttProtocol.StepSafe` | RTT_template/RTT/SEGGER_RTT.c:380-422 | every single memory access of target or host keeps: received followed by unread equals published, the target's chunk lies in free cells, the host's window in unread ones |
| `RttProtocol.RunSafe` | RTT_template/RTT/SEGGER_RTT.c:380-422 | the same in every state of every interleaving, with stale offsets and copies in any order; the received bytes are a prefix of the published ones |
| `RttProtocol.StoreMissesUnread` | RTT_template/RTT/SEGGER_RTT.c:399-407 | a cell the target writes on the strength of an old RdOff is never an unread cell |
| `RttProtocol.HostPublishSafe` | RTT_template/RTT/SEGGER_RTT.c:591-648 | what the host hands over when it moves RdOff are the oldest unread bytes, although it looked at WrOff only once |
| `RttProtocol.CaughtUp` | RTT_template/RTT/SEGGER_RTT.c:579-652 | the offsets are equal if and only if the host has received everything published |
| `RttProtocol.RoundMayStart` | RTT_template/RTT/SEGGER_RTT.c:391-397 | the chunk size computed by a round is always permitted, and is zero exactly when there is no data or the ring is full |
| `RttBuffer.UpBuffer.GetAvailWriteSpace` | RTT_template/RTT/SEGGER_RTT.c:532-548 | the free space is the size minus one minus the number of unread bytes |
| `RttBuffer.UpBuffer.GetBytesInBuffer` | RTT_template/RTT/SEGGER_RTT.c:2085-2103 | the result is the number of unread bytes if and only if RdOff <= WrOff or the offsets differ by 2^31 |
| `RttBuffer.UpBuffer.WriteNoCheck` | RTT_template/RTT/SEGGER_RTT.c:442-495 | stores and publishes all data, in one or two chunks |
| `RttBuffer.UpBuffer.WriteSkipNoLock` | RTT_template/RTT/SEGGER_RTT.c:940-1000 | stores all data if and only if it fits, by whichever of its five cases; otherwise changes nothing |
| `RttBuffer.UpBuffer.ReadUpBufferNoLock` | RTT_template/RTT/SEGGER_RTT.c:579-652 | returns and removes the oldest bytes, as many as asked for or present, across the wrap-around |
| `RttBuffer.UpBuffer.WriteBlocking` | RTT_template/RTT/SEGGER_RTT.c:380-422 | whatever the host reads between rounds, bytes taken followed by unread bytes equal the old contents followed by what was written; two rounds suffice if the data fits at the start; a host that keeps reading lets it finish |
| `RttBuffer.UpBuffer.WriteNoLock` | RTT_template/RTT/SEGGER_RTT.c:1106-1155 | per mode: what is stored, the status, and conservation of the bytes; flags that are no mode store nothing |
| `RttBuffer.SkipPathsAgree` | RTT_template/RTT/SEGGER_RTT.c:958-999 | fast and simple path, from equal rings: same success, same offsets, same contents, namely the old queue with all of the data or unchanged |
| `RttBuffer.UpBuffer.WriteWithOverwriteNoLock` | RTT_template/RTT/SEGGER_RTT.c:839-909 | the loops leave exactly the ring described by `Overwritten`, for every buffer and data for which they end |
| `Overwrite.LoopEndsIff` | RTT_template/RTT/SEGGER_RTT.c:866-909 | the write loop ends if and only if the buffer has two cells or nothing is left after its first round |
| `RttBuffer.BytesMisreported` | RTT_template/RTT/SEGGER_RTT.c:2100-2100 | a ring of 8 bytes with 5 unread reports 11 |
| `Overwrite.NewestKept` | RTT_template/RTT/SEGGER_RTT.c:852-909 | for at most 2 * SizeOfBuffer - WrOff - 2 bytes the queue holds the newest SizeOfBuffer - 1 of old contents followed by data |
| `Overwrite.NewestLost` | RTT_template/RTT/SEGGER_RTT.c:907-907 | for every longer length there is data that is not kept: the last cell keeps a byte of the first round |
| `Overwrite.NewestKeptIff` | RTT_template/RTT/SEGGER_RTT.c:852-909 | all data of length n is kept if and only if n <= 2 * SizeOfBuffer - WrOff - 2 |
| `Ring.WrittenContents` | RTT_template/RTT/SEGGER_RTT.c:442-495 | storing and publishing appends to the unread bytes |
| `Ring.ConsumedContents` | RTT_template/RTT/SEGGER_RTT.c:579-652 | moving RdOff removes from their front |
| `Terminal.Terminals.SetTerminal` | RTT_template/RTT/SEGGER_RTT.c:1927-1957 | in blocking mode or with 2 bytes free the switch is sent and the terminal becomes active, both or neither, with the status saying which |
| `Terminal.Terminals.TerminalOut` | RTT_template/RTT/SEGGER_RTT.c:1976-2045 | in skip and trim mode at most the space measured at entry is written, so all three blocking writes finish with no host progress; between two switches skip mode sends the text or, without room for all, nothing, trim mode the longest beginning that fits with both switches, blocking mode all; status per mode |
| `Terminal.ShownText` | RTT_template/RTT/SEGGER_RTT.c:510-516 | a demultiplexer passes text on unchanged if and only if it contains no byte 0xFF |
| `Terminal.OutShown` | RTT_template/RTT/SEGGER_RTT.c:1999-2036 | the text reaches exactly the named terminal and the host ends on the active one |
| `Terminal.RunShown` | RTT_template/RTT/SEGGER_RTT.c:1927-2045 | the same over every run of writes, terminal switches and terminal outputs, in any mode and with any space |
| `WaitList.ListSuspend` | RTT_template/rt-thread/src/ipc.c:122-169 | the loop puts the thread where the specification says; in order of arrival that is the end |
| `WaitList.PlaceIsFirst` | RTT_template/rt-thread/src/ipc.c:137-163 | by priority it goes before the first less urgent thread |
| `WaitList.QueuedKeeps` | RTT_template/rt-thread/src/ipc.c:122-169 | in order of arrival it goes last, and in either order the others keep theirs |
| `WaitList.QueuedOrdered` | RTT_template/rt-thread/src/ipc.c:137-163 | a list ordered by priority and then arrival stays so when a thread is suspended |
| `WaitList.WithoutOrdered` | RTT_template/rt-thread/src/thread.c:126-155 | it stays so when a waiting thread times out |
| `WaitList.WakeInv` | RTT_template/rt-thread/src/ipc.c:191-204 | waking a thread for each thing made available loses no wakeup |
| `WaitList.BlockInv` | RTT_template/rt-thread/src/ipc.c:122-169 | a thread that suspends because nothing is available loses no wakeup |
| `Semaphore.StepInv` | RTT_template/rt-thread/src/ipc.c:503-644 | a value above zero implies an empty wait list, the value stays within 16 bits; each step conserves units |
| `Semaphore.RunInv` | RTT_template/rt-thread/src/ipc.c:484-704 | the same in every run, resets included |
| `Semaphore.UnitsConserved` | RTT_template/rt-thread/src/ipc.c:503-644 | in every run without reset: initial value plus successful releases equals value plus granted takes |
| `Semaphore.WaiterGetsNothing` | RTT_template/rt-thread/src/ipc.c:519-563 | a thread that waits, or times out, is granted nothing meanwhile |
| `Semaphore.SemaphoreObject.Take` | RTT_template/rt-thread/src/ipc.c:484-569 | keeps the invariant; a unit is taken if and only if there is one, a suspended thread takes none and joins the list |
| `Semaphore.SemaphoreObject.Release` | RTT_template/rt-thread/src/ipc.c:606-654 | keeps the invariant; one unit more is in the count or with the first waiting thread; refused, changing nothing, if and only if nobody waits and the count is at 65535 |
| `Mutex.StepSafe` | RTT_template/rt-thread/src/ipc.c:942-1187 | owner null, value 1, hold 0 and no waiters go together; an owned mutex has value 0 and hold between 1 and 255; kept by every step |
| `Mutex.RunSafe` | RTT_template/rt-thread/src/ipc.c:914-1198 | the same in every run |
| `Mutex.OverflowOnlyNested` | RTT_template/rt-thread/src/ipc.c:968-977 | only the 256th nested take overflows; the checks after a first take and a last release never fail |
| `Mutex.DirectHandOver` | RTT_template/rt-thread/src/ipc.c:1141-1167 | ownership goes to the first waiter in the same step; any other thread finds the mutex taken |
| `Mutex.HoldsAreBalance` | RTT_template/rt-thread/src/ipc.c:942-1131 | in every run, for every thread: granted takes minus releases is what it holds |
| `Mutex.MutexObject.Take` | RTT_template/rt-thread/src/ipc.c:914-1052 | keeps safety; success makes the thread owner with one hold more; a thread that may wait is suspended behind an owner that is now as urgent as the more urgent of the two, one that may not changes nothing; an owner as urgent as all waiters stays so; only the owner's priority changes; only the 256th nested take is refused as full |
| `Mutex.MutexObject.Release` | RTT_template/rt-thread/src/ipc.c:1090-1198 | keeps safety; succeeds if and only if called by the owner, with one hold less; the last release restores the saved priority and hands over, held once, to the first waiter, or frees the mutex |
| `PriorityInheritance.StepInv` | RTT_template/rt-thread/src/ipc.c:965-1167 | over any number of mutexes, for threads that hold at most one: owners are at least as urgent as those they block, waiters are ordered by priority and arrival, threads that own nothing run at their own priority |
| `PriorityInheritance.RunInv` | RTT_template/rt-thread/src/ipc.c:914-1198 | the same in every run of such threads, with timeouts |
| `PriorityInheritance.ReleaseKeepsUrgentIff` | RTT_template/rt-thread/src/ipc.c:1131-1167 | without that discipline, a last release keeps owners urgent if and only if the saved priority suits the thread's other mutexes and the first waiter is the most urgent |
| `PriorityInheritance.BlockKeepsUrgentIff` | RTT_template/rt-thread/src/ipc.c:995-1010 | without it, a blocking take keeps owners urgent if and only if the owner need not be boosted or waits for nobody less urgent than the newcomer |
| `PriorityRuns.OtherStepsKeepUrgent` | RTT_template/rt-thread/src/ipc.c:942-1187 | every step other than a blocking take and a last release keeps every owner as urgent as those it blocks |
| `PriorityRuns.RunUrgentIff` | RTT_template/rt-thread/src/ipc.c:914-1198 | for any threads, holding any number of mutexes: owners stay urgent all along a run if and only if each blocking take and each last release in it meets its condition |
| `PriorityInheritance.ReleaseRestoresBaseIff` | RTT_template/rt-thread/src/ipc.c:1134-1139 | a last release brings a thread back to its own priority if and only if that is what the mutex saved |
| `PriorityRuns.RunBaseIff` | RTT_template/rt-thread/src/ipc.c:965-1187 | for any threads: all along a run those that own nothing are at their own priority if and only if each release that leaves a thread without mutexes finds that priority saved |
| `PriorityRuns.RunAtBase` | RTT_template/rt-thread/src/ipc.c:965-1187 | in every run, with any nesting, in which each thread gives up last the mutex it got first: a thread that owns nothing is at its own priority |
| `PriorityRuns.ReverseRunAtBase` | RTT_template/rt-thread/src/ipc.c:965-1187 | the same for threads that release in the reverse order of taking |
| `PriorityInheritance.InnerReleaseLosesInheritance` | RTT_template/rt-thread/src/ipc.c:1131-1139 | a run with two nested mutexes in which an owner becomes less urgent than a thread it blocks |
| `PriorityInheritance.OuterReleaseKeepsBoost` | RTT_template/rt-thread/src/ipc.c:967-967 | a run in which a thread that owns nothing is left at an inherited priority |
| `Event.Check` | RTT_template/rt-thread/src/ipc.c:1470-1511 | the test and clearing of the send loop: satisfied exactly when all flags asked for, for AND, or one of them, for OR, are there; flags received and left are those of an immediate receive |
| `Event.EventObject.Send` | RTT_template/rt-thread/src/ipc.c:1440-1529 | the loop over the wait list refines: set the flags, then let each waiter in order receive immediately from what is left; afterwards each AND waiter lacks a flag and each OR waiter lacks all; each resumed thread got flags it asked for that were there, all for AND; a flag is gone only if a resumed CLEAR thread got it |
| `Event.EventObject.Recv` | RTT_template/rt-thread/src/ipc.c:1565-1685 | succeeds exactly when flags are asked for and all of them, for AND, or one, for OR, are there; it then gets just those asked for that are there, and with CLEAR just these disappear; otherwise it is suspended if it may wait, and else nothing changes; no waiter is left satisfied |
| `Event.SameLeft` | RTT_template/rt-thread/src/ipc.c:1508-1510 | clearing the flags received and clearing the flags asked for leave the same flags |
| `Event.ReceiveMeaning` | RTT_template/rt-thread/src/ipc.c:1598-1633 | a satisfied receiver gets some of the flags it asked for, all of them for AND; with CLEAR exactly these disappear from the event, without it nothing does |
| `Event.ReceivedOnce` | RTT_template/rt-thread/src/ipc.c:1469-1518 | a flag received with CLEAR in a send is not left in the event and not received by any thread behind |
| `Event.ResumedGot` | RTT_template/rt-thread/src/ipc.c:1469-1518 | whoever a send resumes had what it asked for: it gets some, for AND all, of these flags, and only flags that were there |
| `Event.WhoCleared` | RTT_template/rt-thread/src/ipc.c:1505-1511 | a flag there before the delivery and not after it was received by a thread that asked for clearing |
| `Event.DeliverQuiet` | RTT_template/rt-thread/src/ipc.c:1461-1518 | after a send each AND waiter lacks one of its flags and each OR waiter lacks every one |
| `Event.RunQuiet` | RTT_template/rt-thread/src/ipc.c:1440-1731 | in every run, between operations, each AND waiter lacks one of its flags and each OR waiter lacks every one |
| `Mailbox.MailboxObject.constructor` | RTT_template/rt-thread/src/ipc.c:1795-1808 | a fresh mailbox is empty; the size is kept in 16 bits |
| `Mailbox.MailboxObject.StoreLast` | RTT_template/rt-thread/src/ipc.c:2085-2101 | appends; in_offset stays (out_offset + entry) mod size; the overflow branch is unreachable |
| `Mailbox.MailboxObject.StoreFirst` | RTT_template/rt-thread/src/ipc.c:2183-2197 | prepends by rewinding out_offset |
| `Mailbox.MailboxObject.Fetch` | RTT_template/rt-thread/src/ipc.c:2340-2352 | removes the front |
| `Mailbox.MailboxObject.Send` | RTT_template/rt-thread/src/ipc.c:2024-2119 | one pass of a send is the specified step on a bounded deque: with room the mail goes last and the first waiting receiver is woken; without, the thread is suspended if it may wait, and else the call fails |
| `Mailbox.MailboxObject.Urgent` | RTT_template/rt-thread/src/ipc.c:2164-2215 | fails, changing nothing, exactly when the mailbox is full; otherwise the mail goes in front of all others and the first waiting receiver is woken |
| `Mailbox.MailboxObject.Recv` | RTT_template/rt-thread/src/ipc.c:2277-2374 | one pass of a receive is the specified step: the first mail is taken and the first waiting sender woken; without a mail the thread is suspended if it may wait, and else the call fails |
| `Mailbox.MailboxObject.Reset` | RTT_template/rt-thread/src/ipc.c:2401-2419 | a reset empties mailbox and wait lists |
| `Mailbox.StepInv` | RTT_template/rt-thread/src/ipc.c:2024-2357 | a suspended sender implies that free places do not outnumber woken senders, a suspended receiver that mails do not outnumber woken receivers; kept by every step |
| `Mailbox.RunInv` | RTT_template/rt-thread/src/ipc.c:1991-2425 | the same in every run with timeouts and resets |
| `Mailbox.NobodyForgotten` | RTT_template/rt-thread/src/ipc.c:2024-2357 | once all woken threads have run, receivers wait only on an empty mailbox and senders only on a full one |
| `Mailbox.MailsConserved` | RTT_template/rt-thread/src/ipc.c:2085-2346 | in every run each mail is in the box, received or dropped by a reset, as often as it was sent |
| `Mailbox.FirstInFirstOut` | RTT_template/rt-thread/src/ipc.c:2085-2346 | without urgent mails they leave in the order in which they came |
| `Mailbox.UrgentFirst` | RTT_template/rt-thread/src/ipc.c:2164-2374 | in every run a receive returns the urgent mail sent last of those still in the box, and only without one the oldest ordinary mail |
| `Mailbox.StepLeads` | RTT_template/rt-thread/src/ipc.c:2024-2374 | a send or urgent send is accepted exactly when there is room, a receive when there is a mail; a pass that may wait never fails, one that may not is never suspended; each moves the one mail it should, at its end of the deque |
| `MessageQueue.StepInv` | RTT_template/rt-thread/src/ipc.c:2794-3271 | every node is in exactly one of free list, queue and flight, with one thread; what a receiver took is untouched; no lost wakeups on either side; kept by every critical section and every copy in between |
| `MessageQueue.RunInv` | RTT_template/rt-thread/src/ipc.c:2749-3282 | the same in every run, with resets in any of the windows |
| `MessageQueue.NobodyForgotten` | RTT_template/rt-thread/src/ipc.c:2794-3198 | once all woken threads have run, receivers wait only on an empty queue and senders only when no node is free |
| `MessageQueue.InFlightRoom` | RTT_template/rt-thread/src/ipc.c:2881-2890 | while a node is in flight the queue is shorter than the pool, so the entry counter cannot overflow |
| `MessageQueue.StepMessages` | RTT_template/rt-thread/src/ipc.c:2866-3193 | seen through its messages the object is a deque; only linking, taking and reset change it |
| `MessageQueue.StepLeads` | RTT_template/rt-thread/src/ipc.c:2749-3198 | a node or message is taken exactly when there is one; a pass that may wait never fails, one that may not is never suspended |
| `MessageQueue.MessagesConserved` | RTT_template/rt-thread/src/ipc.c:2866-3277 | in every run each message linked is queued, was taken, or was dropped by a reset, exactly as often |
| `MessageQueue.FirstInFirstOut` | RTT_template/rt-thread/src/ipc.c:2866-3183 | without urgent messages they are taken in the order in which they were linked |
| `MessageQueue.UrgentFirst` | RTT_template/rt-thread/src/ipc.c:2960-3183 | in every run a receiver takes the urgent message linked last of those still queued, and only without one the oldest of the others |
| `MessageQueue.SentIsReceived` | RTT_template/rt-thread/src/ipc.c:2861-3193 | in every run, what a sender copied into a node that is linked, stays queued and is then taken is the beginning of what that receiver copies out |
| `MessageQueue.CopiesWhatItTook` | RTT_template/rt-thread/src/ipc.c:3168-3193 | whatever others do between the two sections of a receive, the text copied out is the message that was first |
| `MqObject.MqObject.constructor` | RTT_template/rt-thread/src/ipc.c:2511-2534 | the loop puts every node on the free list; sizes are cut to 16 bits |
| `MqObject.MessagesFit` | RTT_template/rt-thread/src/ipc.c:2512-2514 | a cell has room for the size asked for if and only if that is at most 65532, and then wastes less than 4 bytes; as many messages with links as fit into the pool are counted, if there are fewer than 65536 |
| `MqObject.MqObject.TakeFree` | RTT_template/rt-thread/src/ipc.c:2794-2859 | one pass of the first section of a send is the specified step on the linked lists: the first free node is taken if there is one; else the thread is suspended if it may wait, and the call fails if not |
| `MqObject.MqObject.Prepare` | RTT_template/rt-thread/src/ipc.c:2861-2864 | filling a node in flight: its cell begins with the message and keeps the rest, and no other cell changes |
| `MqObject.MqObject.CopyIn` | RTT_template/rt-thread/src/ipc.c:2995-2997 | the same for an urgent send |
| `MqObject.MqObject.CopyOut` | RTT_template/rt-thread/src/ipc.c:3186-3187 | copies out at most as much as the caller has room for and a cell holds |
| `MqObject.MqObject.Link` | RTT_template/rt-thread/src/ipc.c:2866-2908 | the second section of a send is the specified step; the overflow branch is unreachable |
| `MqObject.MqObject.LinkFirst` | RTT_template/rt-thread/src/ipc.c:2999-3037 | the second section of an urgent send is the specified step; the overflow branch is unreachable |
| `MqObject.MqObject.TakeFirst` | RTT_template/rt-thread/src/ipc.c:3105-3183 | one pass of the first section of a receive is the specified step: the first node is taken if there is one; else the thread is suspended if it may wait, and the call fails if not |
| `MqObject.MqObject.Release` | RTT_template/rt-thread/src/ipc.c:3189-3215 | the second section of a receive is the specified step |
| `MqObject.MqObject.Reset` | RTT_template/rt-thread/src/ipc.c:3243-3277 | the reset loop moves all queued nodes to the free list; nodes in flight stay with their threads |
| `MqObject.ShapedAfterLink` | RTT_template/rt-thread/src/ipc.c:2868-2879 | head is null if and only if tail is null; appending keeps both linked lists and the conservation of nodes |
| `MqObject.MqObject.SendAtOnce` | RTT_template/rt-thread/src/ipc.c:2749-2908 | an uninterrupted send succeeds if and only if the message is short enough and a node is free; then the last queued message begins with the one sent, what was behind a shorter one staying in the cell, and the others are as before |
| `MqObject.MqObject.UrgentAtOnce` | RTT_template/rt-thread/src/ipc.c:2960-3037 | the same, with the first queued message |
| `MqObject.MqObject.RecvAtOnce` | RTT_template/rt-thread/src/ipc.c:3068-3215 | an uninterrupted receive returns the first message as far as there is room |
| `Mempool.BlocksFit` | RTT_template/rt-thread/src/mempool.c:107-116 | the blocks lie inside the pool one after the other; each has room for its link and the size asked for if and only if that is at most 2^32 - 8, and then wastes less than 4 bytes; behind the last one there is no room for another |
| `Mempool.MempoolObject.constructor` | RTT_template/rt-thread/src/mempool.c:103-133 | the loop threads all blocks in order of address; if no block fits, and only then, the last write goes before the pool and the object is not valid |
| `Mempool.MempoolObject.Alloc` | RTT_template/rt-thread/src/mempool.c:335-398 | one pass of an allocation is the specified step on the linked blocks: the thread gets the first free block, which nobody had, exactly when there is one; else it waits in front if it may, and fails if not, and no block changes hands; the free count is the length of the list |
| `Mempool.MempoolObject.Free` | RTT_template/rt-thread/src/mempool.c:434-464 | the block, and no other, goes from its user to the free list; the newest waiter is woken |
| `Mempool.StepInv` | RTT_template/rt-thread/src/mempool.c:335-452 | each block is free once or with a user; a waiting thread implies that free blocks do not outnumber woken threads; kept by every step |
| `Mempool.RunInv` | RTT_template/rt-thread/src/mempool.c:319-464 | the same in every run with timeouts |

## Left out

- Detaching and deleting objects, object names, hooks, debug logs, memory tracing and shell commands: no effect on the state modelled.
- The scheduler, thread and timer internals: only suspend, resume, timeout and change of priority are used. Remaining timeouts are not computed; whether a pass may wait is a parameter.
- The memheap lock: operations are taken one at a time. The payload bytes of memheap blocks and the copy in its realloc are not modelled; the small heap shows that side.
- Down-buffers, single-character output, `SEGGER_RTT_printf.c` and the assembler version of the skip path: variations of the paths modelled, or formatting.
- Overwrite mode running at the same time as a host: it moves RdOff itself, so the protocol does not cover it.
- RttBuffer.UpBuffer.WriteWithOverwriteNoLock: covers the calls that return; two or more bytes for a one-byte ring never do.
- Drivers, board support, signals, device and idle code, and the formatters of `kservice.c`.
- Memheap.Memheap.Grow: where the size wraps around, the new header overlaps the one of the block itself; the model keeps the fields of the two apart and shows that the lists no longer agree, not which bytes are overwritten.
- Mempool.BlocksFit: a block size of 2^32 - 7 to 2^32 - 4 divides by zero; the model takes the number of blocks to be zero.
- Mutex.MutexObject.Take: the owner of a mutex whose value is zero is never null in a reachable state; the model does nothing where the code would dereference it.
