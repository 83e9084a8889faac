# Nekros, verified

A Dafny model of the parts of the Nekros kernel whose correctness is a property of whole runs, with the
proofs. `dafny verify dfyconfig.toml` checks everything.

Each part has a specification on values, the theorems about it, and, where the kernel updates things in
place, classes and loops proved equal to the specification.

- **Physical memory** (`Pow2`, `BuddySpec`, `Buddy`, `BuddyNodes`, `BuddyCarve`, `BuddyRuns`,
  `BuddyMisfit`, `BuddyTouching`; in place: `BuddyLinks`, `PageBitmap`, `BuddyImpl`). The binary buddy
  allocator of `mm/pmm.c` over up to eight nodes that share one bitmap. The bitmap starts all set and carving
  never clears it, so a free block is either fresh (bits set) or returned (bits clear), and only returned blocks
  merge. The central invariant is a tiling: every page of a node belongs to exactly one block, free blocks
  are on the list of their order, and two clear buddies are never both free. Buddies are computed relative
  to the node base while carving aligns absolute addresses; `RegionSafeIff` gives the exact regions for
  which the two agree, and `RegionsSafeIff` the exact sets of regions whose buddies never reach into each
  other.
- **Virtual memory and the heap** (`PageTable`, `AddressSpace`, `Slab`). The four-level tables of
  `mm/vmm.c` refine a partial map from pages to entries, 2 MB entries included, down to the tables the boot
  code leaves; the slab heap partitions carved chunks into free lists and live objects.
- **Lock and trace ring** (`TicketLock`, `TraceRing`, `TraceLaps`). Interleavings of single memory accesses:
  the 16-bit ticket lock of `include/nekros/types.h` and the claim, copy, publish ring of `kernel/trace.c`,
  with and without the producer lapping the reader.
- **Scheduler** (`Sched`, `SchedFair`, `SchedWait`; in place: `RunLists`, `SchedCode`). The run queues of
  `kernel/sched.c`: partition of tasks, choice of the next task, fairness and waiting bounds, on the circular
  linked lists the kernel uses.
- **Hashing** (`ByteSeq`, `Sha256`, `Sha256Stream`, `Hkdf`). Streaming SHA-256, HMAC and HKDF against
  FIPS 180-4, RFC 2104 and RFC 5869.
- **Encryption** (`Gf8`, `Aes`, `AesCode`, `Gcm`, `GhashKernel`, `GhashDriver`, `GcmCode`). The two
  AES-256-GCM implementations of the kernel, `crypto/aes_gcm.c` and
  `drivers/cortexcrypto/core/aes256.c`, both proved against one specification written from FIPS 197 and
  NIST SP 800-38D: field elements as bit strings, the field of 256 elements as reduced polynomials.
- **Message channels** (`Nonces`, `CryptoIpc`, `CryptoTable`, `IpcRing`, `IpcRuns`; in place: `CryptoRing`,
  `IpcCode`). The encrypted byte rings of `cc_proc.c` as queues, and the signed slots of `ipc.c` as
  interleavings of single accesses of a sender and an unlocked receiver.
- **Weights** (`Neki`; in place: `NekiCode`). The fixed-point controller of `neki_loop.c`.
- **System-call gate** (`Pledge`). Argument scrubbing, the pledge mask and the in-progress flag of
  `kernel/syscall.c`.

Where the code and its comments differ, the model follows the code:

- the free-page counter is credited with the merged order (`CounterTheorem`), and the global statistic is
  overwritten by the node added last (`StatisticAfterAdd`);
- `pt_next_level` does not look at the large-page bit (`MapEffectiveIff`), and the range `vmm_alloc` hands out
  lies under the large pages of the boot tables (`VmallocIneffective`);
- the double-free poison is overwritten by the list link (`SecondFreeIff`);
- the per-band minimum vruntime is never updated (`NewTaskStartsAtZero`);
- HKDF past 8192 bytes starts over (`OutputRepeats`);
- the receipts of `ipc.c` cover number, sender and payload, not the length field;
- `neki_loop.c` can divide by zero (`CrashIff`) and its processor weight never moves (`TickTheorem`);
- a pledge of a mask with a bit from 47 up allows nothing (`HonouredIff`);
- a task that exits through the gate leaves the in-progress flag set if another task takes over, and comes back
  from the call if none does (`ExitIff`, `LoneExitReturns`);
- `ipc_recv` copies the payload a second time after checking it, so a sender 65 ahead can change what is
  delivered (`TornDelivery`);
- the trace ring does not wait for its reader, so a read can return a torn entry (`TornRead`);
- channel descriptors start over at 100 without a look at those still open (`RecycledCollide`);
- `cc_proc.c` passes the cipher's arguments in the order of `drivers/cortexcrypto/core/aes256.h`, which is
  the order modelled, not that of `crypto/crypto.h`.

Bit-level words are bit vectors (`bv8`, `bv32`, `bv64`). Counters whose wrap-around matters are reduced
explicitly; other integers are unbounded, as listed at the end. Several definitions give a bit-vector
operation a name (`Add`, `Xor64`, `Plus`) so that proofs can treat it as a symbol.

## Model

| member | source | states |
|---|---|---|
| Pow2.BuddyFacts | mm/pmm.c:90-95 | the address `buddy_of` computes by exclusive or is the other half of the block one order up, for every aligned offset |
| Pow2.HalvesAreBuddies | mm/pmm.c:174-178 | the two halves of a split block are aligned one order down and are each other's buddies |
| Pow2.MaskIff | mm/pmm.c:144-144 | the mask test of the carving loop is divisibility by the block size |
| BuddySpec.ClearRegionIsFree | mm/pmm.c:225-237 | a region whose bits are all clear, that no larger block covers and that meets no held block, is one free block of exactly that order |
| BuddySpec.ClearBuddyIsListed | mm/pmm.c:225-237 | a buddy inside the node whose bits are all clear is on the free list of that order, so unlinking it is safe |
| BuddySpec.TakeKeeps | mm/pmm.c:72-79 | popping a block keeps the tiling, the lists, the bit discipline and full coalescing |
| BuddySpec.SplitKeeps | mm/pmm.c:174-178 | splitting the popped block and pushing its upper half keeps all of it |
| BuddySpec.CommitKeeps | mm/pmm.c:189-191 | setting the bits of the block handed out keeps all of it |
| BuddySpec.ReleaseKeeps | mm/pmm.c:220-222 | clearing the bits of a returned block, as far as the bitmap reaches, keeps all of it |
| BuddySpec.MergeKeeps | mm/pmm.c:234-236 | merging with a free buddy keeps all of it |
| BuddySpec.PutKeeps | mm/pmm.c:238-239 | pushing the merged block when its buddy cannot merge keeps all of it |
| BuddyNodes.AllocNodeKeeps | mm/pmm.c:162-197 | one node's allocation turns exactly one free region into a live block of the requested order and keeps the node invariant |
| BuddyNodes.CoalesceKeeps | mm/pmm.c:225-239 | a coalescing loop that finds every block it unlinks on its list keeps the node invariant and leaves no free buddy unmerged |
| BuddyNodes.CoalesceMerges | mm/pmm.c:225-239 | if no overrunning buddy region is all clear, the coalescing loop never unlinks a block from a list that does not hold it |
| BuddyNodes.FreeNodeMerges | mm/pmm.c:204-243 | the same for the free of any live block |
| BuddyNodes.FreeNodeKeeps | mm/pmm.c:204-243 | one node's free ends the life of exactly the freed block and keeps the node invariant |
| BuddyCarve.CarveShape | mm/pmm.c:138-153 | carving fills a region without gap or overlap with blocks aligned by absolute address |
| BuddyCarve.FitsAligned | mm/pmm.c:90-95 | in a region that fits, blocks aligned by absolute address are aligned relative to the node base too |
| BuddyCarve.AllocPagesCount | mm/pmm.c:166-180 | an allocation takes exactly 2^order pages off the free lists |
| BuddyCarve.CoalescePages | mm/pmm.c:225-239 | a free puts exactly the freed pages back on the lists, however far it merges |
| BuddyCarve.CarvePages | mm/pmm.c:138-153 | carving puts exactly the pages of the region on the lists |
| BuddyRuns.FreeMerges | mm/pmm.c:204-243 | with several nodes, a matching free never misses a list as long as no overrunning buddy region is covered by nodes to its end |
| BuddyRuns.RunKeeps | mm/pmm.c:107-243 | every legal run of add, alloc and free over up to eight nodes keeps the invariant of all nodes at once |
| BuddyRuns.RunTiles | mm/pmm.c:107-243 | in every legal run no unlink misses its list, and every page of every node belongs to exactly one block, free or live |
| BuddyRuns.AllocationsDisjoint | mm/pmm.c:158-199 | in every legal run a successful allocation returns pages that no live block holds |
| BuddyRuns.CounterTheorem | mm/pmm.c:204-243 | a node's counter equals the pages on its lists plus the pages over-credited by past merges; it never under-reports and is exact iff no free has merged |
| BuddyRuns.StatisticAfterAdd | mm/pmm.c:107-155 | in every legal run, the global free count written by the last added region equals the sum of the counters iff every earlier counter is zero |
| BuddyMisfit.MisfitBreaks | mm/pmm.c:138-243 | for every region that does not fit there is a run of allocations and matching frees that unlinks a block from a list that does not hold it |
| BuddyMisfit.RegionSafeIff | mm/pmm.c:90-243 | a single region is safe in every run iff its start is aligned to the largest block or it ends within three of the blocks its start is aligned to |
| BuddyTouching.CoveredBreaks | mm/pmm.c:225-239 | if other nodes cover an overrunning buddy region to its end, some run of allocations and matching frees unlinks a block from a list that does not hold it |
| BuddyTouching.ExposedIff | mm/pmm.c:225-239 | in a state with nothing freed yet, every run is safe iff no overrunning buddy region is covered to its end |
| BuddyTouching.RegionsSafeIff | mm/pmm.c:107-243 | an allocator over up to eight regions that fit and do not meet is safe in every run iff no buddy region that runs past the end of one is covered by others to its end |
| BuddyLinks.ChainPush | mm/pmm.c:63-70 | pushing rewrites links so that the list is the old one with the page in front |
| BuddyLinks.ChainPop | mm/pmm.c:72-79 | popping leaves the rest of the list linked |
| BuddyLinks.ChainRemove | mm/pmm.c:81-87 | unlinking in constant time from any position removes exactly that page |
| BuddyLinks.FreeArea.Push | mm/pmm.c:63-70 | all eleven linked lists: the page in front of its own list, every other list unchanged |
| BuddyLinks.FreeArea.Pop | mm/pmm.c:72-79 | the head of the list, or zero when it is empty; every other list unchanged |
| BuddyLinks.FreeArea.Remove | mm/pmm.c:81-87 | the page leaves its list; every other list unchanged |
| PageBitmap.Bitmap.Set | mm/pmm.c:52-54 | exactly that page stops being clear; pages past the bitmap are ignored |
| PageBitmap.Bitmap.Unset | mm/pmm.c:55-57 | exactly that page becomes clear; pages past the bitmap are ignored |
| PageBitmap.Bitmap.Test | mm/pmm.c:58-61 | true iff the page is not clear; pages past the bitmap count as allocated |
| BuddyImpl.MarkUsed | mm/pmm.c:189-191 | the loop sets the bits of all pages of the block and of no other |
| BuddyImpl.MarkFree | mm/pmm.c:220-222 | the loop clears the bits of all covered pages of the block and of no other |
| BuddyImpl.TestFree | mm/pmm.c:229-233 | the loop answers whether every bit of the buddy is clear |
| BuddyImpl.LargestFit | mm/pmm.c:141-147 | the loop, with its mask test, finds the largest order aligned at the address that fits before the end |
| BuddyImpl.CarveInto | mm/pmm.c:138-153 | the carving loop builds exactly the lists of the carving function and counts their pages |
| BuddyImpl.FindAvail | mm/pmm.c:166-169 | the smallest order at or above the request with a free block, or one past the last |
| BuddyImpl.SplitTo | mm/pmm.c:173-178 | the split loop on linked lists equals the split function |
| BuddyImpl.CoalesceFrom | mm/pmm.c:224-239 | the coalescing loop on links and bits equals the coalescing function, and every unlink finds its block |
| BuddyImpl.MemoryNode.constructor | mm/pmm.c:107-155 | a fresh node over a region that fits: carved lists, exact counter, invariant |
| BuddyImpl.MemoryNode.Alloc | mm/pmm.c:162-197 | the in-place allocation equals the allocation function on lists, bits and counter, and fails iff no order has a block |
| BuddyImpl.MemoryNode.Free | mm/pmm.c:204-243 | the in-place free of a live block equals the free function on lists, bits and counter |
| TicketLock.LockTheorem | include/nekros/types.h:157-171 | for at most 65536 threads, in every interleaving with timely trylocks: at most one holder, grants in ticket order, the holder holds the ticket served |
| TicketLock.NoLostGrant | include/nekros/types.h:157-164 | whenever somebody spins and nobody holds the lock, some spinning thread's next load gets it |
| TicketLock.TooManyThreads | include/nekros/types.h:157-164 | with 65537 threads there is an interleaving with two holders |
| TicketLock.LockSafeIff | include/nekros/types.h:157-164 | lock and unlock exclude in every interleaving iff at most 65536 threads use them |
| TicketLock.LateTrylock | include/nekros/types.h:165-171 | with only two threads, a trylock that stalls while 65536 tickets go by can take a held lock |
| PageTable.LeafWrite | mm/vmm.c:71-71 | writing a last-level entry changes the translation of its page and of no other 48-bit page |
| PageTable.LinkWalk | mm/vmm.c:36-46 | linking a zeroed table changes no translation |
| AddressSpaces.IndicesOf | mm/vmm.c:59-62 | the four indices taken from an address are those of its page number |
| AddressSpaces.LeafWordFacts | mm/vmm.c:50-71 | a mapped word holds the frame of its address and exactly the requested rights |
| AddressSpaces.OverlayMeaning | mm/vmm.c:48-74 | in a range of at most 2^36 pages each page is mapped to its own frame |
| AddressSpaces.OverlayElsewhere | mm/vmm.c:48-74 | a page outside the range keeps its translation |
| AddressSpaces.AddressSpace.NextLevel | mm/vmm.c:36-46 | the next table, or the memory a 2 MB entry maps: found, or linked fresh with no translation changed, or absent |
| AddressSpaces.AddressSpace.Descend | mm/vmm.c:64-69 | the frame that holds the leaf word of the address; nothing is linked when a 2 MB entry lies on the path or allocation is off |
| AddressSpaces.AddressSpace.MapOne | mm/vmm.c:55-72 | one page mapped and nothing else changed, or out of memory and nothing changed, or, under a 2 MB entry, success with a word of the mapped memory overwritten and no translation changed |
| AddressSpaces.AddressSpace.Map | mm/vmm.c:48-74 | on success the walk of every page of the range gives its frame and rights, on failure a prefix is mapped; pages under 2 MB entries and all others keep their translation |
| AddressSpaces.AddressSpace.UnmapOne | mm/vmm.c:78-115 | exactly that page loses its translation and its frame is reported; under a 2 MB entry a word of the mapped memory is cleared, reported as a frame if it looks present, and the page stays mapped |
| AddressSpaces.AddressSpace.Unmap | mm/vmm.c:76-119 | exactly the pages of the range lose their translation; the frames returned are those that were mapped |
| AddressSpaces.LargePathIneffective | mm/vmm.c:36-46 | under a 2 MB entry the write lands in mapped memory and changes no translation |
| AddressSpaces.MapEffectiveIff | mm/vmm.c:48-74 | after a successful call each page of the range has its new translation iff no 2 MB entry lay on its path |
| AddressSpaces.VmallocPages | mm/vmm.c:123-131 | every address of the vmalloc range selects slot 0 of the root table and the page of the low address at the same distance from zero, and is not canonical |
| AddressSpaces.BootWellFormed | arch/x86/boot/entry.S:91-131 | the tables the boot code builds, with one directory of 2 MB pages reached twice, are well formed |
| AddressSpaces.VmallocUnderBoot | arch/x86/boot/entry.S:98-131 | on those tables the first GB of the vmalloc range lies under the identity map, and its leaf words fall into the first frame of each 2 MB page |
| AddressSpaces.VmallocIneffective | mm/vmm.c:121-146 | so mapping there changes no translation of any page |
| Slab.PopKeeps | mm/vmm.c:199-207 | taking the head of a free list keeps lists and live chunks an exact partition of the carved chunks |
| Slab.PushKeeps | mm/vmm.c:341-351 | wiping a live chunk and linking it in front keeps the partition |
| Slab.CarveKeeps | mm/vmm.c:185-189 | a freshly carved chunk joins its free list and the partition |
| Slab.ChunkSpacing | mm/vmm.c:182-189 | chunks of a page do not overlap and stay on the page |
| Slab.FindCache | mm/vmm.c:195-196 | the first cache that holds the size is the smallest one that does |
| Slab.Heap.Grow | mm/vmm.c:176-190 | exactly the whole chunks that fit the page are added, all free; live objects are unaffected |
| Slab.Heap.Kmalloc | mm/vmm.c:192-207 | a chunk of the smallest fitting cache that was not live becomes live; failure only when no page is to be had; counters agree with the live objects |
| Slab.Heap.Kfree | mm/vmm.c:300-352 | a live object returns to the cache it came from; null is ignored; counters agree with the live objects |
| Slab.Heap.Store | mm/vmm.c:192-207 | callers writing inside a live payload disturb nothing the heap relies on |
| Slab.PayloadsDisjoint | mm/vmm.c:176-207 | payloads of live objects are disjoint and as large as their cache promises |
| Slab.SecondFreeIff | mm/vmm.c:300-352 | a repeated free is never recognised as a double free: it is a bad cookie iff the list was not empty, and accepted as cache 0 iff it was |
| TraceRing.ReadsAreLogPrefix | kernel/trace.c:162-287 | in every word-by-word interleaving of producer and consumer that never laps the ring, all reads together are the log up to the read position, and the unread slots hold the rest |
| TraceLaps.WordRead | kernel/trace.c:162-287 | in any state of any run the next word read is that of the latest entry stored in its slot: the entry asked for iff that word has not been overwritten |
| TraceLaps.ReadsAreRecent | kernel/trace.c:162-287 | in every run, lapped or not, each word returned for position p is that word of the entry logged at p or a whole number of laps later |
| TraceLaps.LappedReadIff | kernel/trace.c:162-287 | publishing distinct entries and then reading one returns the first entry of the latest lap, which is the first of all iff at most 1024 were published |
| TraceLaps.TornRead | kernel/trace.c:162-287 | with a full unread ring and k words of the next entry stored, a read returns those k words and the rest of the oldest entry, an entry nobody logged |
| Sched.PartitionTheorem | kernel/sched.c:142-323 | in every run on all CPUs each ready task is on exactly one queue, each running task on none and current on exactly one CPU |
| Sched.ChoiceTheorem | kernel/sched.c:156-302 | in every run the task chosen is ready in the highest band with a ready task, has the least vruntime there and came first among equals; the CPU idles only if nobody is ready |
| Sched.ReadyIsPicked | kernel/sched.c:156-171 | while some task is ready, one is picked |
| Sched.NewTaskStartsAtZero | kernel/sched.c:142-149 | no run raises the per-band floor, so every new task starts at vruntime zero |
| SchedFair.ScheduleFair | kernel/sched.c:257-302 | a reschedule starts a slice at the bottom of a vruntime window that never moves back |
| SchedFair.SpreadBound | kernel/sched.c:257-323 | one CPU, equal weights, one band: in every run of ticks and yields vruntimes differ by at most four ticks' worth |
| SchedWait.WaitBound | kernel/sched.c:257-323 | under any mixture of ticks and yields a waiting task is passed over for at most eight ticks per other task |
| SchedWait.LevelStart | kernel/sched.c:257-323 | from a level start the first tick gives the head of the queue a whole slice |
| SchedWait.TickClock | kernel/sched.c:305-323 | each further tick runs the same task or, after four, the next one of the cycle |
| SchedWait.RoundRobin | kernel/sched.c:305-323 | from a level start, for every number of ticks, the timer alone runs the queued tasks in queue order, four ticks each, over and over |
| SchedWait.SliceWait | kernel/sched.c:305-323 | from any tick on, each of n tasks is running at some tick within the next 4 * (n - 1) |
| SchedWait.BootedRoundRobin | kernel/sched.c:173-323 | from boot, n tasks created with one priority run in order of creation, four ticks each, for ever |
| RunLists.CircleAdd | include/nekros/types.h:180-187 | four stores turn the circle of a queue into the circle of the queue with the task at its tail |
| RunLists.CircleDelete | include/nekros/types.h:188-192 | unlinking a node from any place leaves the circle of the queue without that task |
| RunLists.RunQueues.constructor | include/nekros/types.h:177-177 | sixteen empty circles |
| RunLists.RunQueues.AddTail | include/nekros/types.h:180-187 | on the links of all bands: the task at the tail of its queue, every other queue unchanged |
| RunLists.RunQueues.Delete | include/nekros/types.h:188-192 | on the links of all bands: the task gone from its queue, every other queue unchanged |
| SchedCode.Scheduler.Enqueue | kernel/sched.c:142-149 | the enqueue on links equals the specification |
| SchedCode.Scheduler.Dequeue | kernel/sched.c:151-154 | the dequeue on links equals the specification |
| SchedCode.Scheduler.ScanBand | kernel/sched.c:156-171 | following the links of one band once round finds the best task of the specification |
| SchedCode.Scheduler.PickNext | kernel/sched.c:156-171 | the scan of all bands finds the pick of the specification |
| SchedCode.Scheduler.Schedule | kernel/sched.c:257-302 | the in-place reschedule equals the specification and keeps the partition |
| SchedCode.Scheduler.Tick | kernel/sched.c:305-323 | the in-place tick equals the specification and keeps the partition |
| SchedCode.Scheduler.Create | kernel/sched.c:233-240 | the in-place task creation equals the specification and keeps the partition |
| Sha256.PadIsWhole | crypto/sha256.c:99-110 | padding fills whole blocks with the fewest bytes that hold marker and length |
| Sha256.FoldConcat | crypto/sha256.c:83-97 | compressing whole blocks and then more equals compressing all of it |
| Sha256.AbsorbBlock | crypto/sha256.c:83-97 | a completed block moves from the buffer into the registers |
| Sha256.AbsorbPart | crypto/sha256.c:83-97 | an incomplete block waits in the buffer |
| Sha256Stream.Expand | crypto/sha256.c:56-62 | the schedule loops compute the message schedule of section 6.2.2 of FIPS 180-4 |
| Sha256Stream.Transform | crypto/sha256.c:56-72 | the round loop computes the compression function |
| Sha256Stream.Context.constructor | crypto/sha256.c:74-81 | a fresh context has absorbed nothing |
| Sha256Stream.Context.Update | crypto/sha256.c:83-97 | whatever was absorbed before and however the data is cut, the context stands for the concatenation |
| Sha256Stream.Context.PadOut | crypto/sha256.c:99-107 | the padding loop ends, having appended exactly the padding of section 5.1.1 of FIPS 180-4 |
| Sha256Stream.Context.Final | crypto/sha256.c:99-113 | the digest of everything absorbed; registers, counter and buffer are zero afterwards |
| Sha256Stream.DigestOf | crypto/sha256.c:83-121 | for every way of cutting a message into updates, the digest of the whole |
| Sha256Stream.BitCount | crypto/sha256.c:99-101 | eight times the wrapped byte counter is the bit length modulo 2^64 |
| Hkdf.XorInto | crypto/sha256.c:135-135 | the pad loop |
| Hkdf.MacPieces | crypto/sha256.c:137-146 | the two hash computations give HMAC of the concatenated pieces |
| Hkdf.HmacSha256 | crypto/sha256.c:125-152 | HMAC of section 2 of RFC 2104 for every key length |
| Hkdf.SameKey | crypto/sha256.c:125-135 | a long key and its digest, and a short key and its zero padding, give the same code |
| Hkdf.BlockIsStandard | crypto/sha256.c:171-191 | blocks 1 to 255 are T(1) to T(255) of section 2.3 of RFC 5869 |
| Hkdf.StreamIsStandard | crypto/sha256.c:171-196 | the block stream is the standard's for up to 255 blocks |
| Hkdf.NextBlock | crypto/sha256.c:172-191 | one turn of the expand loop, with its counter byte and its test for a previous block |
| Hkdf.Expand | crypto/sha256.c:167-196 | the loop fills the buffer with the front of the block stream |
| Hkdf.HkdfSha256 | crypto/sha256.c:156-199 | extract then expand; equal to RFC 5869 for every length up to 255 * 32 |
| Hkdf.OutputPrefix | crypto/sha256.c:167-196 | a shorter output is the front of a longer one |
| Hkdf.BlocksRepeat | crypto/sha256.c:169-191 | the counter byte wraps: block i + 256 equals block i |
| Hkdf.OutputRepeats | crypto/sha256.c:169-196 | output byte j + 8192 equals output byte j |
| Gf8.Mul | crypto/aes_gcm.c:40-51 | the shift-and-add loop gives the polynomial product reduced modulo x^8 + x^4 + x^3 + x + 1 |
| Gf8.ReduceLinear | crypto/aes_gcm.c:39-51 | reduction is linear |
| Gf8.ModulusVanishes | crypto/aes_gcm.c:39-51 | every multiple of the field polynomial reduces to zero |
| Gf8.TimesTwoThree | drivers/cortexcrypto/core/aes256.c:134-140 | multiplying by 2 and 3 on the right |
| Gf8.TwoTimes | crypto/aes_gcm.c:88-97 | multiplying by 2 on the left is the same doubling |
| Gf8.ThreeTimes | crypto/aes_gcm.c:88-97 | multiplying by 3 on the left is the same tripling |
| AesCode.RconTable | crypto/aes_gcm.c:54-56 | the round-constant table holds the powers of x |
| AesCode.RotSubAgree | crypto/aes_gcm.c:66-71 | the kernel's single expression is SubWord of RotWord with the round constant |
| AesCode.SubIsSub | drivers/cortexcrypto/core/aes256.c:87-90 | the word substitution is SubWord |
| AesCode.KernelTemp | crypto/aes_gcm.c:64-77 | the kernel's case distinction on the word number gives the temporary word of section 5.2 of FIPS 197 |
| AesCode.DriverTemp | drivers/cortexcrypto/core/aes256.c:99-103 | the driver's gives the same |
| AesCode.KernelExpand | crypto/aes_gcm.c:58-78 | the kernel's key schedule is that of section 5.2 of FIPS 197 |
| AesCode.DriverExpand | drivers/cortexcrypto/core/aes256.c:93-105 | the driver's key schedule is the same |
| AesCode.SubBytesIn | crypto/aes_gcm.c:80-80 | SubBytes in place |
| AesCode.ShiftRowsIn | crypto/aes_gcm.c:81-87 | the exchange sequence is ShiftRows |
| AesCode.KernelColumn | crypto/aes_gcm.c:88-97 | a column with the constants on the left |
| AesCode.DriverColumn | drivers/cortexcrypto/core/aes256.c:134-140 | a column with the constants on the right |
| AesCode.ColumnIsMixed | crypto/aes_gcm.c:88-97 | both orders of the sums are the circulant matrix of section 5.1.3 of FIPS 197 |
| AesCode.MixColumnsIn | crypto/aes_gcm.c:88-97 | MixColumns in place, for either column computation |
| AesCode.AddRoundKeyIn | crypto/aes_gcm.c:98-103 | AddRoundKey in place |
| AesCode.EncryptBlock | crypto/aes_gcm.c:105-124 | the fourteen rounds are the cipher of section 5.1 of FIPS 197, for either MixColumns |
| GhashKernel.Mul128 | crypto/aes_gcm.c:153-167 | the loop on two 64-bit words is the block multiplication of section 6.3 of NIST SP 800-38D on bits |
| GhashKernel.ShiftBits | crypto/aes_gcm.c:162-163 | shifting the word pair is the one-bit right shift |
| GhashKernel.PutBits | crypto/aes_gcm.c:203-204 | serialising big-endian keeps every bit in place |
| GhashKernel.BlockBits | crypto/aes_gcm.c:180-184 | XORing a block into the word pair adds its bits |
| GhashKernel.AbsorbInto | crypto/aes_gcm.c:178-186 | the block loop hashes the zero-padded blocks |
| GhashKernel.Ghash | crypto/aes_gcm.c:169-205 | GHASH of section 6.4 over associated data, text and lengths |
| GhashDriver.ShiftIn | drivers/cortexcrypto/core/aes256.c:213-218 | the carry loop shifts sixteen bytes by one bit |
| GhashDriver.ShiftBytesBits | drivers/cortexcrypto/core/aes256.c:213-218 | which is the one-bit right shift on bits |
| GhashDriver.TimesXIn | drivers/cortexcrypto/core/aes256.c:212-220 | shift and conditional reduction are multiplication by x |
| GhashDriver.GhashBlock | drivers/cortexcrypto/core/aes256.c:196-223 | the byte-array loop is the same block multiplication |
| GhashDriver.Multiply | drivers/cortexcrypto/core/aes256.c:206-221 | the 128-turn loop |
| GhashDriver.AbsorbInto | drivers/cortexcrypto/core/aes256.c:231-239 | the block loops hash the zero-padded blocks |
| GhashDriver.Lengths | drivers/cortexcrypto/core/aes256.c:251-257 | the backwards loop writes both bit lengths big-endian |
| GhashDriver.Ghash | drivers/cortexcrypto/core/aes256.c:225-260 | GHASH of section 6.4, for every length its loops end on |
| GhashDriver.LoopEndsIff | drivers/cortexcrypto/core/aes256.c:231-249 | the 32-bit block loop ends iff the length is at most 2^32 - 16 |
| Gcm.CryptTwice | crypto/aes_gcm.c:127-148 | counter mode undoes itself, with the 32-bit counter wrapping |
| Gcm.SealOpen | crypto/aes_gcm.c:208-267 | what was sealed opens to the plaintext under exactly one tag |
| Gcm.OpenSeal | crypto/aes_gcm.c:208-267 | whatever opens is what sealing its plaintext gives |
| GcmCode.TagsDiffer | crypto/aes_gcm.c:256-259 | the accumulated difference is zero iff the tags are equal |
| GcmCode.KernelBlock | crypto/aes_gcm.c:105-124 | key expansion and rounds for one block |
| GcmCode.KernelCtr | crypto/aes_gcm.c:127-148 | counter mode into a buffer; bytes past the data are untouched |
| GcmCode.KernelTag | crypto/aes_gcm.c:213-230 | the tag of section 7.1 |
| GcmCode.KernelEncrypt | crypto/aes_gcm.c:208-233 | ciphertext and tag are those of the specification, for every length |
| GcmCode.KernelDecrypt | crypto/aes_gcm.c:236-267 | success iff the tag is the recomputed one; then the plaintext, otherwise the buffer is untouched |
| GcmCode.DriverCtr | drivers/cortexcrypto/core/aes256.c:166-189 | counter mode over an expanded key |
| GcmCode.DriverTag | drivers/cortexcrypto/core/aes256.c:272-290 | the tag of section 7.1 |
| GcmCode.DriverEncrypt | drivers/cortexcrypto/core/aes256.c:264-295 | the same ciphertext and tag as the kernel, for every length up to 2^32 - 16 |
| GcmCode.DriverDecrypt | drivers/cortexcrypto/core/aes256.c:297-340 | the same verdict and plaintext as the kernel, for every length up to 2^32 - 16 |
| Nonces.NonceTheorem | drivers/cortexcrypto/core/cc_proc.c:103-127 | whatever the clock says, no nonce is issued twice, and the generator has halted iff 2^32 were asked for, having issued 2^32 - 1 |
| CryptoIpc.Le32Back | drivers/cortexcrypto/core/cc_proc.c:435-467 | a length written to the ring is read back |
| CryptoIpc.FrameCarries | drivers/cortexcrypto/core/cc_proc.c:433-441 | read the way the receiver reads it, a frame opens to its message |
| CryptoIpc.SendKeeps | drivers/cortexcrypto/core/cc_proc.c:425-443 | a send appends a whole frame iff it fits behind the tail, else changes nothing; an empty ring takes any message up to half its size |
| CryptoIpc.RecvKeeps | drivers/cortexcrypto/core/cc_proc.c:463-484 | a receive hands out the oldest message unaltered and removes it; with none waiting, or a buffer too small, nothing changes |
| CryptoTable.SendFifo | drivers/cortexcrypto/core/cc_proc.c:404-444 | a send keeps first-in-first-out |
| CryptoTable.RecvFifo | drivers/cortexcrypto/core/cc_proc.c:446-485 | a receive keeps first-in-first-out, and answers "try again" iff everything accepted was handed out |
| CryptoTable.ChannelTheorem | drivers/cortexcrypto/core/cc_proc.c:361-485 | in every run of create, send, receive and close, each open direction has handed out exactly the front of what it accepted |
| CryptoTable.FindOwn | drivers/cortexcrypto/core/cc_proc.c:411-416 | with distinct descriptors each one leads to its own channel |
| CryptoTable.DescriptorTheorem | drivers/cortexcrypto/core/cc_proc.c:391-394 | before the descriptor counter can reach its limit, no two open descriptors are equal |
| CryptoTable.CreateDistinctIff | drivers/cortexcrypto/core/cc_proc.c:391-394 | in every state creating a channel keeps descriptors distinct iff neither new descriptor is in use |
| CryptoTable.RecycledCollide | drivers/cortexcrypto/core/cc_proc.c:391-394 | with one channel open from the start, a run comes to hand out its descriptors a second time, and calls on them reach the old channel |
| CryptoRings.CryptoRing.constructor | drivers/cortexcrypto/core/cc_proc.c:388-389 | an empty ring |
| CryptoRings.CryptoRing.Send | drivers/cortexcrypto/core/cc_proc.c:417-443 | the in-place send: the message joins the queue, or the ring is too full and unchanged |
| CryptoRings.CryptoRing.Recv | drivers/cortexcrypto/core/cc_proc.c:458-485 | the in-place receive: the oldest message, or an error and nothing changed |
| CryptoRings.CryptoRing.Take | drivers/cortexcrypto/core/cc_proc.c:463-484 | reading, checking and decrypting the frame at the head |
| IpcRing.SlotsApart | ipc/ipc.c:132-140 | the 64 slots lie behind the header, inside the eight pages and apart from each other; payloads hold 446 bytes |
| IpcRing.ClaimOk | ipc/ipc.c:175-180 | claiming a sequence number keeps "every word of every slot is that of the newest message begun there" |
| IpcRing.PutOk | ipc/ipc.c:182-206 | writing one header field or one byte of the slot keeps it |
| IpcRing.ReceiverOk | ipc/ipc.c:223-283 | every step of a receive leaves the slots and the sender alone |
| IpcRing.RunOk | ipc/ipc.c:168-283 | in every interleaving of single accesses the slots hold, word by word, what was written to them |
| IpcRing.StepInOrder | ipc/ipc.c:168-283 | a timely step keeps what has been delivered equal to the front of what was sent, and what the receiver has gathered equal to the message of its turn |
| IpcRing.FifoTheorem | ipc/ipc.c:168-283 | in every interleaving with the sender at most 64 messages ahead and receives that begin on written messages, all messages arrive once, in order and unaltered, and no receipt check fails |
| IpcRuns.Alone | ipc/ipc.c:223-283 | a receive that nothing interrupts ends with the answer its slot calls for and moves on only when it delivers |
| IpcRuns.InOrderIff | ipc/ipc.c:223-283 | in every run an uninterrupted receive returns the newest whole message of its slot, which is the message of its turn iff that is written and none newer is begun there |
| IpcRuns.StaleDelivery | ipc/ipc.c:177-180 | a receiver that sees the claim before the slot is written gets the message of 64 turns ago again |
| IpcRuns.LappedDelivery | ipc/ipc.c:177-180 | a receiver more than 64 behind skips to a later message |
| IpcRuns.TornDelivery | ipc/ipc.c:263-277 | with the sender 65 ahead, a run delivers as genuine a payload nobody sent |
| IpcRuns.BoundIff | ipc/ipc.c:168-283 | receives that begin on written messages deliver in order in every interleaving iff the sender is kept at most 64 ahead |
| IpcRuns.EarlyBegin | ipc/ipc.c:245-283 | a receive that begins on an unwritten message breaks the order even with the sender one message ahead |
| IpcCode.Differ | ipc/ipc.c:267-270 | the accumulated difference is zero iff the receipts are equal |
| IpcCode.IpcChannel.constructor | ipc/ipc.c:107-165 | an empty ring under the channel key |
| IpcCode.IpcChannel.Write | ipc/ipc.c:182-206 | filling a slot field by field and byte by byte makes it hold the message, signed with HMAC, and touches no other slot |
| IpcCode.IpcChannel.Send | ipc/ipc.c:168-220 | too long: refused and unchanged; otherwise claimed and written whole |
| IpcCode.IpcChannel.Recv | ipc/ipc.c:223-283 | the in-place receive gives the answer of an uninterrupted receive; errors leave ring and buffer alone |
| Neki.EmaStays | drivers/neri/neki/neki_loop.c:72-84 | from any positive word a step never passes its signal, and rests iff three times the distance, as a 64-bit word, is below 64 |
| Neki.EmaBetween | drivers/neri/neki/neki_loop.c:72-84 | held at one signal the average stays on its side and never moves away |
| Neki.EmaConvergesIff | drivers/neri/neki/neki_loop.c:72-84 | it comes within 21 of the signal iff three times the first distance fits 64 bits |
| Neki.SignalRange | drivers/neri/neki/neki_loop.c:109-115 | the ratio faults iff the demand is 1 to 63, and is at most two otherwise |
| Neki.AnalyseKeeps | drivers/neri/neki/neki_loop.c:87-139 | for any samples alpha stays in [1/4, 1], beta and gamma in [1/4, 2]; analysis faults iff some sum is 1 to 63 |
| Neki.AnalyseTame | drivers/neri/neki/neki_loop.c:87-139 | on samples without waste alpha stays exactly one and beta and gamma at or below one |
| Neki.RecordFollows | drivers/neri/neki/neki_loop.c:146-156 | the window always holds the last 64 readings, and its sums are theirs |
| Neki.TickTheorem | drivers/neri/neki/neki_loop.c:142-161 | in every run of ticks alpha is exactly one, beta and gamma lie in [1/4, 1], and the processor bias is 60 from the eighth tick on |
| Neki.CrashIff | drivers/neri/neki/neki_loop.c:109-161 | a tick divides by zero iff at least eight readings are in and the last 64 of some dimension sum to 1 to 63 |
| Neki.FewPagesCrash | drivers/neri/neki/neki_loop.c:109-161 | eight epochs with one to seven pages allocated are such a run, whatever the processor time |
| NekiCode.NekiLoop.SumUp | drivers/neri/neki/neki_loop.c:96-107 | the 64-bit running sums are the sums modulo 2^64 |
| NekiCode.NekiLoop.AnalyseWindow | drivers/neri/neki/neki_loop.c:87-139 | the in-place analysis equals the specification |
| NekiCode.NekiLoop.OnTick | drivers/neri/neki/neki_loop.c:142-161 | the in-place tick equals the specification |
| Pledge.NoHighCalls | kernel/syscall.c:207-216 | a scrubbed mask allows none of the calls 47 to 63, the pledge call among them |
| Pledge.HonouredIff | kernel/syscall.c:207-216 | the mask asked for is the mask in force iff it is below 2^47; otherwise no call at all is allowed |
| Pledge.StepPledged | kernel/syscall.c:218-271 | one step leaves a pledged mask alone and runs only handlers it allows |
| Pledge.PledgeTheorem | kernel/syscall.c:218-271 | through every run after the first pledge the mask never changes and only handlers it allows run |
| Pledge.StuckIff | kernel/syscall.c:224-271 | a set in-progress flag is never cleared again iff no handler other than exit is unfinished and no exit will find itself alone |
| Pledge.ExitIff | kernel/syscall.c:224-287 | a task that exits alone comes back to user mode with the flag clear; with another task there it is gone, the flag stays set, and its processor refuses every later call iff another task is in user mode and no other handler is unfinished |
| Pledge.LoneExitReturns | kernel/sched.c:257-341 | the only task there is, calling exit, goes on running and may call again |
| Pledge.KillIff | kernel/syscall.c:249-258 | a call the mask forbids ends the task iff there is another one to run |

## Left out

- BuddyRuns.RunTiles: regions must satisfy `RegionFits`, meet no node and leave `Exposed` true; `RegionSafeIff` and `RegionsSafeIff` show that the first and the last are exact. The loop over nodes is modelled on values; the classes cover one node.
- BuddyImpl.MemoryNode.Free: frees of blocks that are live at that order only; what any other free does to the lists is not modelled.
- TicketLock.LockTheorem: a trylock is assumed to reach its exchange before 65536 further tickets are issued; `LateTrylock` shows that the assumption is needed.
- AddressSpaces.AddressSpace.Map: the memory a 2 MB entry on the path maps is no table and not about to become one. TLB flushes and the accessed and dirty bits have no model.
- AddressSpaces.AddressSpace.Unmap: no 2 MB entry lies on a path of the range; `UnmapOne` states what one step does under such an entry.
- Slab.Heap.Kmalloc: sizes up to 2048 bytes; the large path goes through `vmm_alloc`, which is not modelled.
- Slab.Heap.Kfree: null and live pointers only; `SecondFreeIff` covers the immediately repeated free.
- SchedFair.SpreadBound: one CPU and a fixed set of equally weighted tasks in one band, starting level.
- SchedWait.RoundRobin: the same, and no yields.
- TraceRing.ReadsAreLogPrefix: one producer and one consumer, the producer at most one ring ahead; `ReadsAreRecent` says what holds without the bound and `TornRead` that it is needed. Signing of entries is not modelled.
- IpcRing.FifoTheorem: receives begin on written messages and the sender is at most 64 messages ahead; `BoundIff` and `EarlyBegin` show that both are needed, and `BoundIff` that 64 is exact. One receiver.
- IpcCode.IpcChannel.Recv: in place only while no sender runs; the interleavings are on values.
- GcmCode.DriverEncrypt: lengths up to 2^32 - 16, where the hash loop ends (`LoopEndsIff`).
- CryptoTable.ChannelTheorem: channels are found, created and closed on values; `CryptoRing` has one ring in place.
- CryptoTable.DescriptorTheorem: runs too short for the counter to reach its limit; `RecycledCollide` is a run in which it does.
- Task exit in the scheduler: it unlinks a node that is on no queue.
- Weak memory ordering: steps of the lock, the trace ring and the slot ring are sequentially consistent. What `cc_proc.c` and the allocators do under a lock is one step.
- 64-bit overflow of page numbers, byte counts, vruntimes, trace positions and message sequence numbers; 64-bit sums in SHA-256, GHASH lengths and `neki_loop.c` are reduced.
- The substitution box is the table both files share; that it is inversion followed by an affine map is not proved, nor is any cryptographic strength.
- In-place encryption with input and output in the same buffer: inputs are values.
- Error returns that only test whether a subsystem is ready, a pointer is null or a channel number is in range.
- Boot code, interrupt entry, context switching, device drivers, the file system, string helpers and console output.
- Admission, placement and anomaly scoring of Neri, and the chain-of-custody log: clamps, single decisions and list shifts that would only add easy members.
