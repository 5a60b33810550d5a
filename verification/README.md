# 31kernel: models and proofs

A Dafny 4.11 model of the algorithmic cores of the 31kernel operating system, with proofs of what each of
them is for. `dafny verify dfyconfig.toml` checks everything.

| part | files |
|---|---|
| buddy allocator | Dyadic, Blocks, ZoneLists, ZoneRuns, ZoneTotals, FalsePartner (values); NodeLists, CarriedLists, PoolBytes, BuddyAllocator (linked nodes) |
| page-table mapper | PageEntries, Radix, PageTables, PageDestroy, PageMapper |
| object cache | SizeClasses, CachePages, CacheSlots, CacheManager |
| scheduler and task memory | Fairness, Pops, NiceValues, Segments, TaskMemory, Scheduler, UserCopy |
| devicetree parser | Devicetree, DevicetreeNames, DevicetreeMisreads, DevicetreeParser, DevicetreeFormat |
| AES and CBC | AesData, AesRounds, AesLinear, AesTables, AesCipher, AesStandard, Aes, AesKeys, AesKeyWords, Cbc, AesModes |
| ChaCha20 | ChaChaStream, ChaChaBlock, ChaCha20, ChaChaStandard |
| MT19937 | Tempering, MersenneTwister, Reseeding |
| spinlock | Spinlock |
| shared | Common |

## How the model is made

- Objects that the kernel updates in place are classes, and each method is proved against a function or
  predicate on values; what the kernel promises is then proved of those.
- Raw memory is a map from addresses: the `FreeNode`s of the buddy allocator, the page tables, the first
  words of cache cells, the bytes behind a task's records.
- The page allocator under the object cache, the task segments and the page tables, the clock and the order
  of interrupts are parameters or free choices. Byte operations of the ciphers are passed as functions that
  obey stated laws, and the tables of the source are shown to obey them.
- Ghost state names what the code does not store: which blocks are live, which terms a window holds, what has
  been freed.

## Where the code parts from its intent

The code is modelled as written. Each of these has the exact condition under which the intended property holds.

- **Merging free blocks** (`src/page/buddy_allocator.rs:209-268`). The loop goes on after a level without the
  partner and may take a block further up for one. `ZoneLists.WrittenMergeExact`, `ZoneRuns.WrittenFreeExact`,
  `ZoneRuns.AllocThenWrittenFree` and `BuddyAllocator.FreePages` hold exactly if it does not (`NoFalsePartner`);
  `FalsePartner` has a run where it does. Runs with the written loop are legal while the condition holds, and runs with the loop that
  stops are legal always.
- **Node counter** (`src/page/buddy_allocator.rs:319-334`). A failed extension leaves it too high; `phantom` is
  by how much. Freeing takes a node without the refill check, so a node must be there if no merge gives one back.
- **Teardown of page tables** (`src/page/mapping.rs:244-252`) never frees the tables of level 1.
- **Partial counts** (`src/mcache.rs:307`) grow by one for each 512 KB cache ever made.
- **Nice values** (`src/task.rs:133`): -19 costs nothing, so that a task at -19 that comes first stays first, and
  -20 wraps around. `NiceValues.WaitingExact`, `SpreadExact` and `FairExact` have the conditions, for every mix of
  nice values. The wrap is that of a release build; a debug build panics at it.
- **Names in a devicetree** (`lib/dtb/src/lib.rs:51`): the padding is computed from the UTF-8 length;
  `DevicetreeNames.TreeExact` and `ParsedTotal` have the condition, `DevicetreeMisreads.WideNamePanics` a name of
  one character.
- **NOP tokens before the root** (`lib/dtb/src/lib.rs:49`), which section 5.4.2 of the Devicetree Specification
  allows: the first word is skipped unread and the next one is taken for the name. `DevicetreeMisreads.LeadingNops`
  and `DevicetreeParser.BlobExact` have the condition; the guard is that the structure block starts with a begin
  token.
- **Guards dropped out of order** (`lib/spinlock/src/lib.rs:77-82`) can turn interrupts on under a held lock:
  exactly if `Spinlock.DropExact` says so.
- **Reseeding** (`src/rand.rs:84-93`) keeps the index: `Reseeding.ReseedExact`.
- **Re-keying** (`crypto/chacha20/src/lib.rs:91-102`) keeps the buffered block: `ChaCha20.SetKey`, `SetNonce`.

## Model

| member | source | states |
|---|---|---|
| Dyadic.FloorLog2 | src/page/buddy_allocator.rs:274-276 | the order of the largest power of two that does not exceed the number of pages |
| Dyadic.CeilLog2 | src/page/buddy_allocator.rs:278-280 | the order of the least power of two that holds the number of pages, one page for zero |
| Blocks.MergeKeeps | src/page/buddy_allocator.rs:209-268 | coalescing a block with its buddies, as long as they are there, keeps blocks disjoint and covers the same pages plus the new ones |
| Blocks.SplitKeeps | src/page/buddy_allocator.rs:172-185 | splitting a block down keeps blocks disjoint and coalesced and takes away exactly the block handed out |
| Blocks.Canonical | src/page/buddy_allocator.rs:161-271 | two fully coalesced sets of disjoint blocks that cover the same pages are the same set |
| ZoneLists.WrittenMergeExact | src/page/buddy_allocator.rs:209-268 | the merge loop as written keeps the number of pages if and only if it meets no false partner after a miss, and then equals the loop that stops at the first missing partner |
| ZoneLists.StoppingMergeRefines | src/page/buddy_allocator.rs:209-268 | taking partners off the per-order lists is coalescing in the set of blocks |
| ZoneLists.PartnerIsBuddy | src/page/buddy_allocator.rs:214-241 | the start address that the loop looks for is that of the buddy |
| ZoneLists.AllocLowest | src/page/buddy_allocator.rs:161-188 | the block handed out is the lower end of the first block of the lowest order that is large enough and has one |
| ZoneRuns.AllocCorrect | src/page/buddy_allocator.rs:161-188 | allocation is exact and complete: the block is aligned, of the order asked for, wholly free before and all that leaves the free pages; there is none only when every free block is too small |
| ZoneRuns.StoppingFreeCorrect | src/page/buddy_allocator.rs:189-271 | freeing with merging that stops keeps blocks in bounds, aligned, disjoint, coalesced and complete |
| ZoneRuns.WrittenFreeExact | src/page/buddy_allocator.rs:189-271 | freeing as written keeps the zone in order if and only if no false partner is met |
| ZoneRuns.CanonicalLists | src/page/buddy_allocator.rs:161-271 | two states of a zone with the same live pages hold the same blocks at every order |
| ZoneRuns.AllocThenFree | src/page/buddy_allocator.rs:161-271 | freeing a block just allocated, with merging that stops, restores every free list as a set |
| ZoneRuns.AllocThenWrittenFree | src/page/buddy_allocator.rs:161-271 | freeing it with merging as written restores every free list as a set if and only if no false partner is met |
| ZoneRuns.NewZoneCorrect | src/page/buddy_allocator.rs:125-142 | the blocks a new zone is carved into are aligned, disjoint and coalesced and cover the zone exactly |
| ZoneRuns.RunKeeps | src/page/buddy_allocator.rs:125-271 | over every run of allocations and frees, every state tiles the zone: free blocks in bounds, aligned, disjoint, apart from live ones, coalesced, and together with them all the pages |
| ZoneTotals.AllocTotal | src/page/buddy_allocator.rs:161-188 | allocation takes exactly its pages off the total of the lists |
| ZoneTotals.NewTotal | src/page/buddy_allocator.rs:125-142 | the lists of a new zone hold exactly its pages |
| FalsePartner.FalsePartnerWitness | src/page/buddy_allocator.rs:209-268 | a legal run of an 8-page zone after which one more free lists page 1, which is still allocated, and leaves pages 2 and 3 unlisted, which are free |
| NodeLists.OnOneList | src/page/buddy_allocator.rs:64-87 | every node is on exactly one list, at one place of it |
| NodeLists.MoveFirstKeeps | src/page/buddy_allocator.rs:74-87 | taking the first node of one list to the front of another keeps all lists acyclic and separate |
| NodeLists.MoveAtKeeps | src/page/buddy_allocator.rs:225-236 | unlinking a node inside a list keeps all lists acyclic and separate |
| NodeLists.GrownLinked | src/page/buddy_allocator.rs:100-107 | a new array of nodes joins the front of the pool and no other list changes |
| BuddyAllocator.BuddyAllocator.constructor | src/page/buddy_allocator.rs:64-73 | the node pool starts with all its 512 nodes on its list |
| BuddyAllocator.BuddyAllocator.LinkPool | src/page/buddy_allocator.rs:100-107 | linking an array of nodes lengthens the pool by exactly that many and touches no other list |
| BuddyAllocator.BuddyAllocator.AddNode | src/page/buddy_allocator.rs:144-149 | a block goes to the front of its order and one node leaves the pool |
| BuddyAllocator.BuddyAllocator.TakeFirst | src/page/buddy_allocator.rs:153-157 | the first block of an order comes off, and its node goes back to the pool |
| BuddyAllocator.BuddyAllocator.SplitDown | src/page/buddy_allocator.rs:177-184 | the loop lists the upper halves at each lower order |
| BuddyAllocator.BuddyAllocator.ZoneAlloc | src/page/buddy_allocator.rs:161-188 | the linked lists end up carrying what allocation on values gives, or nothing changes |
| BuddyAllocator.BuddyAllocator.TakePartner | src/page/buddy_allocator.rs:210-264 | the search unlinks the partner wherever it stands in its list, or finds none |
| BuddyAllocator.BuddyAllocator.ZoneFree | src/page/buddy_allocator.rs:189-271 | the linked lists end up carrying what the written merge on values gives |
| BuddyAllocator.BuddyAllocator.NewZone | src/page/buddy_allocator.rs:125-142 | the carving loop builds the lists of a new zone |
| BuddyAllocator.BuddyAllocator.AddZone | src/page/buddy_allocator.rs:313-317 | a zone apart from the others joins; `free` grows by its pages |
| BuddyAllocator.BuddyAllocator.NewExtendedPool | src/page/buddy_allocator.rs:319-334 | the block given for a pool has room for its 8196 nodes and its pointer, and the pool grows by them; a failed extension leaves the counter too high by 8196, and changes nothing else |
| PoolBytes.PoolPages | src/page/buddy_allocator.rs:324-325 | 64 pages are the least power of two that holds 8196 nodes of 16 bytes and a pointer |
| BuddyAllocator.BuddyAllocator.NodeHome | src/page/buddy_allocator.rs:319-334 | in every state the 16 bytes of a node of an extended pool lie inside the block that was handed out for its pool |
| BuddyAllocator.BuddyAllocator.NodeOutside | src/page/buddy_allocator.rs:319-334 | so they overlap no listed block and no other block that has been handed out |
| BuddyAllocator.BuddyAllocator.NodesSeparate | src/page/buddy_allocator.rs:319-334 | and no other node of an extended pool |
| BuddyAllocator.BuddyAllocator.RefillSuffices | src/page/buddy_allocator.rs:341-344 | more than 36 counted nodes are enough for any split, as long as no extension has failed |
| BuddyAllocator.BuddyAllocator.AllocPages | src/page/buddy_allocator.rs:341-356 | the first zone with a large enough block gives it, after an extension when nodes run low; every node stays on one list, the counter is the length of the pool plus what failed extensions left, `free` is the total of the listed blocks |
| BuddyAllocator.BuddyAllocator.FreePages | src/page/buddy_allocator.rs:357-367 | the block goes back to its zone; the allocator is in order afterwards if and only if no false partner is met |
| BuddyAllocator.FreeNoPanic | src/page/buddy_allocator.rs:189-271 | freeing a live block never leaves the array of orders |
| PageEntries.RiscvLeaf | src/arch/riscv64/page.rs:39-65 | a leaf entry holds the frame and exactly the access bits asked for |
| PageEntries.ArmLeaf | src/arch/arm64/page.rs:67-91 | a leaf descriptor holds the frame in bits 12 to 47, is a valid page with the access flag set, and forbids what the mode does not allow |
| PageEntries.TableEntry | src/page/mapping.rs:106-112 | a table entry holds the page and no other bits but those of a table: 1 on RISC-V and 3 on ARM |
| PageEntries.TableRoundTrip | src/page/mapping.rs:106-112 | an entry made for a table is valid and leads back to that table, on both architectures |
| Radix.EntryOpsLawful | src/arch/arm64/page.rs:60-95 | both entry formats do what the mapper relies on |
| Radix.NextLeaf | src/page/mapping.rs:129-145 | the entry for the next page of a range is that of the next frame, in the mode of the range |
| Radix.DigitMeans | src/page/mapping.rs:98-117 | the index at level l is the page number divided by 512 to the power of l, modulo 512 |
| Radix.LowMeans | src/page/mapping.rs:98-117 | the part of the page number that the walk sees is its remainder modulo 512 to the power of the number of levels |
| Radix.PathSpells | src/page/mapping.rs:98-117 | the indexes of the path, read as digits to the base 512, spell the page number |
| PageTables.ThreeLevels | src/page/mapping.rs:98-117 | with three levels a translation is the entry that vpn / 262144 % 512, vpn / 512 % 512 and vpn % 512 lead to, if all three are valid |
| Radix.SameSlot | src/page/mapping.rs:98-117 | two virtual pages share a leaf slot exactly if they agree in the low LEVEL * PTE_BITS bits |
| PageTables.AttachKeeps | src/page/mapping.rs:104-113 | hanging a new empty table under an invalid entry keeps a tree of distinct pages and every translation |
| PageTables.LookupFinds | src/page/mapping.rs:98-117 | following entries from the root finds the slot that the tree has for a page |
| PageMapper.PageMapper.constructor | src/page/mapping.rs:45-53 | a new root maps nothing |
| PageMapper.PageMapper.LeafTable | src/page/mapping.rs:98-113 | the descent reaches the table for the page, making missing ones, and changes no translation |
| PageMapper.PageMapper.Map4k | src/page/mapping.rs:98-117 | afterwards every page with the same remainder modulo 512 to the power of the number of levels translates to the new frame and mode, and every other page as before; the tables are still a tree |
| PageMapper.PageMapper.MapRange | src/page/mapping.rs:129-145 | the loop maps the pages one by one; all of them unless the allocator runs out |
| PageMapper.RangedExact | src/page/mapping.rs:129-145 | a range no longer than the address space maps exactly the shifted range and nothing else |
| PageMapper.PageMapper.Destroy | src/page/mapping.rs:232-275 | from 3 levels on the loop ends, reads no freed table, and frees each table but those of level 1 exactly once, and no leaf frame |
| PageDestroy.TeardownExact | src/page/mapping.rs:232-275 | the pages freed are all distinct and are the tables of every level but level 1 |
| SizeClasses.SizeToClass | src/mcache.rs:42-64 | the first class whose cells are large enough, and none only above 512 KB |
| SizeClasses.CacheShape | src/mcache.rs:141-152 | the cells of a class fill its pages, and the header takes one of them |
| SizeClasses.CacheBytes | src/mcache.rs:42-64 | the cells of a cache take 16 pages up to 8 KB, then 32, 64 and 128, and 256 pages from 128 KB on |
| SizeClasses.HeaderPadding | src/mcache.rs:66-70 | the least padding that aligns what follows the header pointer |
| SizeClasses.ObjectFits | src/mcache.rs:92-95 | at every power-of-two alignment up to a page an object is aligned and inside its cell |
| CachePages.AccountedCount | src/mcache.rs:141-157 | free and live cells add up to all cells but the header |
| CachePages.CellsApart | src/mcache.rs:125-140 | cells do not overlap |
| CachePages.CachePage.constructor | src/mcache.rs:141-157 | a new cache has every cell but the header on its free list, in order |
| CachePages.CachePage.Init | src/mcache.rs:125-140 | the loop threads all usable cells into one list that ends in null |
| CachePages.CachePage.AllocObj | src/mcache.rs:162-179 | the first free cell leaves the list and becomes live; none only when the list is empty |
| CachePages.CachePage.FreeObj | src/mcache.rs:180-186 | a live cell goes to the front of the list |
| CachePages.CachePage.WriteHead | src/mcache.rs:96-99 | writing a live cell cannot harm the free list |
| CacheSlots.ZeroMeansNone | src/mcache.rs:260-263 | the count of a class never falls below the caches with a free cell and equals them but in the 512 KB class, so the early exit agrees with the full scan |
| CacheSlots.LargestCount | src/mcache.rs:307-307 | the count of the 512 KB class is the number of such caches ever made, though none of them has a free cell |
| CacheSlots.LiveApart | src/mcache.rs:92-192 | live cells of one manager never overlap |
| CacheManager.Manager.constructor | src/mcache.rs:211-223 | a new manager has empty slots and zero counts |
| CacheManager.Manager.CacheAlloc | src/mcache.rs:260-284 | the first cache of the class with a free cell gives it; none exactly if no cache has one |
| CacheManager.Manager.AddCache | src/mcache.rs:226-234 | a cache goes to the first empty slot |
| CacheManager.Manager.NewCacheAlloc | src/mcache.rs:286-318 | a cache on fresh pages joins with its first cell taken, and the counts stay right |
| CacheManager.Manager.Alloc | src/mcache.rs:319-345 | an object is aligned, in a cell of the smallest fitting class that was not live, whose first word names the manager, and no other cell changes; the cell is the first free one of the first cache that has one, of a new cache in the first empty slot only if none has, and another manager is asked only if no slot is empty either |
| CacheManager.Manager.AllocIn | src/mcache.rs:325-337 | the same for one class: which slot and which cell serve the request |
| CacheManager.Manager.Release | src/mcache.rs:359-385 | the cell is free again, the cache goes with its last live cell, and the counts stay right |
| CacheManager.Manager.Dealloc | src/mcache.rs:346-385 | the pages that hold the pointer identify its cache; only that cell is freed |
| Fairness.ChargeRange | src/task.rs:133 | the amount added, cast to 64 bits, lies between 1 and 38 if and only if the nice value lies between -18 and 19 |
| Fairness.AdvanceMeans | src/task.rs:133 | the new vruntime is v + nice + 19 modulo 2^64, for every nice value and every vruntime from 0 to 2^64 - 39 |
| Fairness.FirstMeans | src/task.rs:131 | the least vruntime comes first, and among equal ones the least pid |
| Pops.BoundedWaiting | src/task.rs:129-149 | with n tasks and none created, every task is popped within 39 * (n - 1) + 1 pops, whatever each is charged from 1 to 38 |
| NiceValues.PricedWaits | src/task.rs:129-149 | with nice values from -18 on the same holds from every point of the run on |
| NiceValues.FirstCheap | src/task.rs:129-149 | of the tasks at nice -19 or -20 the one with the least (vruntime, pid) gets its turn first, and the spread is kept until then |
| NiceValues.FreeRider | src/task.rs:133 | a task that is first at nice -19 stays first for ever, and nothing changes |
| NiceValues.WrapsAway | src/task.rs:133 | a task that is first at nice -20 breaks the spread of 38 within 39 pops: it falls to 0 one by one and then wraps to 2^64 - 1 |
| NiceValues.CheapWaits | src/task.rs:129-149 | if that task is at -19 waiting has no bound at all, and if it is at -20 none below 2^64, whatever the others are at |
| NiceValues.WaitingExact | src/task.rs:129-149 | with two tasks or more at any nice values: from every point of the run on every task is popped within 39 * (n - 1) + 1 pops if and only if all are from -18 on |
| NiceValues.SpreadExact | src/task.rs:129-149 | with two tasks or more at any nice values: vruntimes stay within 38 of each other over the whole run if and only if the least of the tasks at -19 or -20, if there is one, is at -19 |
| NiceValues.FairExact | src/task.rs:129-149 | some bound on waiting and the spread hold together over the whole run if and only if all nice values are from -18 on |
| NiceValues.WrapWitness | src/task.rs:133 | two new tasks, one at -20: one pop sends it to 2^64 - 1 |
| Scheduler.Scheduler.constructor | src/task.rs:373-405 | one kernel task, one entry, no segments |
| Scheduler.Scheduler.Turn | src/task.rs:131-136 | one entry per task stays; the least (vruntime, pid) is charged, with the wrap at nice -20 |
| Scheduler.Scheduler.Schedule | src/task.rs:129-149 | if some task may run at reading i of the clock, ends within i + 39 * (n - 1) + 1 pops: the task that runs is the one that the last pop yields, every one popped before it is asleep at its reading, vruntimes are those after these pops and within 38 of each other, and nothing of the tasks changes but that the one that runs is woken |
| Scheduler.Scheduler.Insert | src/task.rs:114-116 | a new task joins at the least vruntime |
| Scheduler.Scheduler.CreateTask | src/task.rs:40-119 | a stack of 16 pages and one segment per loadable header, each on a block of its own; the task gets the next pid and joins at the least vruntime; nothing else changes |
| Scheduler.Scheduler.ForkSegments | src/task.rs:179-200 | read-only and executable segments are shared and writable ones get blocks of their own, in order |
| Scheduler.Scheduler.Fork | src/task.rs:168-217 | the child has the segments of the parent as forked, its nice value and no sleep, gets the next pid and joins at the least vruntime; ownership stays exact |
| Scheduler.Scheduler.DropSegments | src/task.rs:361-371 | each block whose last reference goes is freed, once, with the size it was made with |
| Scheduler.Scheduler.Kill | src/task.rs:150-154 | afterwards exactly the segments that some task still holds are alive, and the task that runs, the vruntimes and the sleeping times are those of scheduling without the killed task |
| Scheduler.Scheduler.Renice | src/task.rs:268-272 | any value from -20 to 19 is taken, for any task in any state within the spread; afterwards the bound on waiting and the spread hold for the run exactly as the nice values say |
| Scheduler.Scheduler.ReniceFair | src/task.rs:268-272 | with all others from -18 on: the bound on waiting holds if and only if the value is from -18 on, and the spread if and only if it is from -19 on |
| Scheduler.Scheduler.SleepUntil | src/task.rs:137-145 | the running task is passed over until the time comes |
| Segments.LastReference | src/task.rs:364-369 | the reference count is 1 if and only if no other task holds the segment |
| TaskMemory.FreedOnce | src/task.rs:361-371 | a segment ever made has been freed, exactly once and with the block and size it was made with, if and only if no task holds it any more |
| Segments.WritableOnce | src/task.rs:179-200 | no frame is mapped user-writable in one task and mapped in another |
| TaskMemory.AliveIffHeld | src/task.rs:361-371 | the segments alive are those that some task holds, so no task refers to a freed frame |
| UserCopy.TaskView.Find | src/task.rs:285-287 | the record that covers the page of an address, if there is one |
| UserCopy.LocationMeans | src/task.rs:287-292 | page j of a record is the frame j after its first one, in the linear map of the kernel, and the place in the page stays |
| UserCopy.TaskView.CopyFromUser | src/task.rs:282-307 | ends, copies the longest covered prefix, each byte from where its address translates to, across records |
| UserCopy.TaskView.CopyToUser | src/task.rs:314-340 | the same for writing, and nothing but those bytes changes |
| UserCopy.OwnedFrames | src/task.rs:179-200 | no frame backs two records of one task, as copying to the user needs it, over every history of create, fork and kill |
| UserCopy.ReadBack | src/task.rs:282-340 | reading back what was written returns it |
| UserCopy.TaskView.WriteThenRead | src/task.rs:282-340 | a write and then a read of the same range give the data back |
| DevicetreeNames.ParsedTotal | lib/dtb/src/lib.rs:48-108 | a tree is parsed back only if the characters beyond ASCII in all its names together are a multiple of 4 in number: what the parser consumes plus those of the names it returns always is |
| DevicetreeNames.TreeExact | lib/dtb/src/lib.rs:48-108 | a tree of any contents, with at most one name whose characters beyond ASCII are no multiple of 4 in number, is parsed back up to its own end token if and only if there is no such name |
| DevicetreeNames.LeafExact | lib/dtb/src/lib.rs:48-108 | in particular a node without contents |
| DevicetreeMisreads.WideNamePanics | lib/dtb/src/lib.rs:50-52 | a node named by one character beyond ASCII is a panic, whatever follows below 32 MiB |
| DevicetreeMisreads.FirstToken | lib/dtb/src/lib.rs:49 | whether NOP tokens precede the root shows in the first word of the structure block |
| DevicetreeMisreads.LeadingNops | lib/dtb/src/lib.rs:48-108 | a root is found if and only if no NOP token precedes it: every root with a name, every root behind two or more, and behind one a root without a name whose contents are telling (`Telling`) |
| DevicetreeMisreads.NamelessLost | lib/dtb/src/lib.rs:48-108 | a root without a name is lost behind one NOP token: its padding and first token read as a property of 1 to 4 bytes that stays the first one, unless that happens to be a cell count or the root has such a property first |
| DevicetreeMisreads.LuckyRootFound | lib/dtb/src/lib.rs:48-108 | a root whose contents are not telling can be found behind one NOP token, by chance |
| Devicetree.GatherMeans | lib/dtb/src/lib.rs:54-96 | whatever the order of properties and children, every child ends up with the final cell counts |
| Devicetree.NodeParses | lib/dtb/src/lib.rs:48-108 | parsing a flattened tree, with NOP tokens anywhere inside, returns that tree and stops at its own end token |
| DevicetreeParser.ParseNullString | lib/dtb/src/lib.rs:24-31 | the loop splits at the first NUL |
| DevicetreeParser.ParseProperty | lib/dtb/src/lib.rs:74-95 | name, value and padding are taken, and cell counts reach all children so far |
| DevicetreeParser.Parse | lib/dtb/src/lib.rs:48-108 | the recursive loop computes what the parse of a node means, panics included |
| DevicetreeParser.ParseTree | lib/dtb/src/lib.rs:136-150 | the header is checked and the root parsed; a tree that the blob holds is returned if the structure block starts with its begin token |
| DevicetreeParser.BlobParses | lib/dtb/src/lib.rs:136-150 | a blob whose header points to a flattened tree and its strings parses to that tree, if the structure block starts with the begin token of the root |
| DevicetreeParser.BlobExact | lib/dtb/src/lib.rs:136-150 | with NOP tokens before it, the root is returned if and only if the structure block starts with its begin token; behind one NOP token, of roots without a name those with telling contents |
| DevicetreeFormat.CellNames | lib/dtb/src/lib.rs:83-88 | the two properties looked for are "#size-cells" and "#address-cells" |
| DevicetreeFormat.WordMeans | lib/dtb/src/lib.rs:18-22 | a word is four bytes, the upper one first |
| DevicetreeFormat.Tokens | lib/dtb/src/lib.rs:11-15 | the tokens and the magic number, byte by byte |
| DevicetreeFormat.Padding | lib/dtb/src/lib.rs:51-81 | a name with its NUL and a value are padded to the next multiple of 4, and no further |
| AesTables.SboxInverse | crypto/aes/src/lib.rs:12-47 | the two substitution tables are inverse |
| AesTables.SboxMeans | crypto/aes/src/lib.rs:12-29 | all 256 entries: the affine image of the inverse of the index in GF(2^8), and of 0 for 0, as section 5.1.1 of FIPS 197 defines it |
| AesTables.Times2Means | crypto/aes/src/lib.rs:48-65 | multiplication by x shifts to the left, and reduces by x^8 + x^4 + x^3 + x + 1 if the upper bit was set |
| AesTables.Mul2Means | crypto/aes/src/lib.rs:48-65 | the table is multiplication by x |
| AesTables.Mul3Means | crypto/aes/src/lib.rs:66-83 | the table is multiplication by x + 1 |
| AesTables.Mul9Means | crypto/aes/src/lib.rs:84-101 | the table is multiplication by 9 |
| AesTables.Mul11Means | crypto/aes/src/lib.rs:102-119 | the table is multiplication by 11 |
| AesTables.Mul13Means | crypto/aes/src/lib.rs:120-137 | the table is multiplication by 13 |
| AesTables.Mul14Means | crypto/aes/src/lib.rs:138-155 | the table is multiplication by 14 |
| AesTables.RcMeans | crypto/aes/src/lib.rs:156-158 | each round constant is the one before times x |
| AesTables.TablesLawful | crypto/aes/src/lib.rs:12-155 | the tables obey every law that decryption relies on |
| AesRounds.ShiftRowsMeans | crypto/aes/src/lib.rs:182-209 | byte (row, col) comes from column col + row, around |
| AesRounds.UnmixMix | crypto/aes/src/lib.rs:211-249 | the inverse mixing matrix undoes the mixing matrix on one column |
| AesRounds.MixInverse | crypto/aes/src/lib.rs:211-249 | mixing columns is undone |
| Aes.AddRoundKey | crypto/aes/src/lib.rs:161-165 | the block is added to the round key in place |
| Aes.SubBytes | crypto/aes/src/lib.rs:167-179 | every byte goes through the table in place |
| Aes.ShiftRowsOf | crypto/aes/src/lib.rs:197-202 | the rows are shifted in place |
| Aes.ShiftRowsInvOf | crypto/aes/src/lib.rs:204-209 | the rows are shifted back in place |
| Aes.MixColumnsOf | crypto/aes/src/lib.rs:211-223 | the columns are mixed in place |
| Aes.MixColumnsInvOf | crypto/aes/src/lib.rs:225-249 | the columns are unmixed in place |
| Aes.BlockEncrypt | crypto/aes/src/lib.rs:283-296 | the block becomes its encryption, for any number of rounds |
| Aes.BlockDecrypt | crypto/aes/src/lib.rs:297-312 | the block becomes its decryption |
| AesCipher.DecryptEncrypt | crypto/aes/src/lib.rs:283-312 | decryption undoes encryption, for any round keys, number of rounds and invertible steps |
| AesCipher.AesInvertible | crypto/aes/src/lib.rs:161-249 | the AES steps are invertible over any tables that obey the laws |
| AesStandard.RoundMeans | crypto/aes/src/lib.rs:161-223 | each byte of a round: the key byte added to 2, 3, 1 and 1 times the substituted bytes that the shifted column has, in GF(2^8) |
| AesStandard.LastMeans | crypto/aes/src/lib.rs:293-295 | each byte of the last round: the key byte added to the substituted byte that the shifted row has |
| AesStandard.EncryptIsStandard | crypto/aes/src/lib.rs:283-296 | encryption is the chain of section 5.1 of FIPS 197, byte by byte: the first key, n rounds and the last round |
| AesModes.EncryptMeans | crypto/aes/src/lib.rs:283-296 | the same with the tables of the source: the substitution of section 5.1.1 and multiplication in GF(2^8) |
| AesKeys.SetKey128 | crypto/aes/src/lib.rs:259-282 | the round keys are the words of the recurrence of section 5.2 of FIPS 197 with Nk = 4 |
| AesKeys.SetKey256 | crypto/aes/src/lib.rs:322-354 | the round keys are the words of that recurrence with Nk = 8 |
| AesKeyWords.ExpansionMeans | crypto/aes/src/lib.rs:259-282 | the recurrence word by word, as figure 11 of FIPS 197 has it: the word before is rotated, substituted and added to the round constant at multiples of Nk, and substituted half way between with 256-bit keys |
| AesModes.BlockRoundTrip | crypto/aes/src/lib.rs:283-384 | decryption inverts encryption for every key and block |
| AesModes.AesCipherState.BlockEncrypt | crypto/aes/src/lib.rs:355-368 | the block becomes its ciphertext of FIPS 197, byte by byte: 9 full rounds and the last one with 11 round keys, 13 and the last one with 15 |
| AesModes.AesCipherState.BlockDecrypt | crypto/aes/src/lib.rs:369-384 | decryption with the source's tables and the scheduled keys |
| AesModes.AesCipherState.SetKey128 | crypto/aes/src/lib.rs:259-282 | the key object holds 11 scheduled round keys, word for word those of section 5.2 of FIPS 197 with Nk = 4 |
| AesModes.AesCipherState.SetKey256 | crypto/aes/src/lib.rs:322-354 | the key object holds 15 scheduled round keys, word for word those with Nk = 8 |
| AesModes.MessageRoundTrip | crypto/crypto_framework/src/lib.rs:39-63 | AES in CBC mode gives back every message, for any key, initial vector and length |
| Cbc.RoundTrip | crypto/crypto_framework/src/lib.rs:39-63 | CBC decryption from the same initial vector inverts CBC encryption over any invertible block cipher, at any length |
| Cbc.AddMeans | crypto/crypto_framework/src/lib.rs:48-62 | the operator that chains bytes is the exclusive or |
| Cbc.CbcCipher.SetIv | crypto/crypto_framework/src/lib.rs:34-36 | the initial vector becomes the block before the first |
| Cbc.CbcCipher.BlockEncrypt | crypto/crypto_framework/src/lib.rs:48-54 | the block is chained to the ciphertext before it, which it replaces |
| Cbc.CbcCipher.BlockDecrypt | crypto/crypto_framework/src/lib.rs:55-62 | the block is decrypted and unchained, and its ciphertext kept |
| Cbc.CbcCipher.EncryptAll | crypto/crypto_framework/src/lib.rs:48-54 | block after block the object produces the CBC ciphertext |
| Cbc.CbcCipher.DecryptAll | crypto/crypto_framework/src/lib.rs:55-62 | block after block the object produces the CBC plaintext |
| ChaChaBlock.DoubleRoundOf | crypto/chacha20/src/lib.rs:71-78 | the eight quarter rounds are the four columns and the four diagonals of section 2.3 of RFC 8439 |
| ChaChaBlock.MakeBlock | crypto/chacha20/src/lib.rs:62-85 | ten double rounds, the first matrix added, little-endian bytes |
| ChaChaBlock.LittleEndianInverse | crypto/chacha20/src/lib.rs:93-95 | reading little-endian words loses nothing |
| ChaChaStandard.QuarterExample | crypto/chacha20/src/lib.rs:14-36 | the example of section 2.1.1 of RFC 8439 |
| ChaChaStandard.DoubleRoundMeans | crypto/chacha20/src/lib.rs:70-79 | a double round, and only it, is the eight quarter rounds of section 2.3 in their order, word by word |
| ChaChaStandard.BlockIsStandard | crypto/chacha20/src/lib.rs:62-85 | the keystream block of every key, nonce and counter: ten double rounds from the matrix that starts with "expand 32-byte k", and the word-by-word sum with it, low byte first |
| ChaChaStream.MaskMeans | crypto/chacha20/src/lib.rs:103-122 | the operator that combines message and keystream is the exclusive or |
| ChaCha20.ChaCha20.SetKey | crypto/chacha20/src/lib.rs:91-96 | what is left of the buffered block stays in the keystream, and the blocks of the new key follow; it is the new key's keystream if and only if nothing is left or what is left is the same |
| ChaCha20.ChaCha20.SetNonce | crypto/chacha20/src/lib.rs:97-102 | the same for a new nonce |
| ChaChaStream.SplicedExact | crypto/chacha20/src/lib.rs:91-122 | a buffered block of another key does not show if and only if its unused bytes are those of the new key |
| ChaChaStream.SplicedShows | crypto/chacha20/src/lib.rs:91-122 | for every new key and every place inside a block there is a buffered block that shows |
| ChaCha20.ChaCha20.UpdateState | crypto/chacha20/src/lib.rs:62-85 | the buffer becomes the block of the current counter |
| ChaCha20.ChaCha20.Encrypt | crypto/chacha20/src/lib.rs:103-122 | the message is combined with the keystream from the current position on, and the position moves on by its length |
| ChaCha20.ChaCha20.EncryptChunks | crypto/chacha20/src/lib.rs:103-122 | however a message is cut into calls, the outputs are the message combined with one keystream |
| ChaCha20.ChaCha20.Decrypt | crypto/crypto_framework/src/lib.rs:73-75 | decryption is encryption |
| ChaChaStream.CipherTwice | crypto/crypto_framework/src/lib.rs:73-75 | a cipher in the same start state undoes the encryption |
| ChaChaStream.CipherSplit | crypto/chacha20/src/lib.rs:103-122 | the keystream of two messages in a row is that of their concatenation |
| MersenneTwister.WindowNext | src/rand.rs:95-105 | overwriting the oldest term by the next one moves the window of 624 terms on by one |
| MersenneTwister.MT19937.constructor | src/rand.rs:70-80 | a new generator holds the seeded words as the first 624 terms, and has drawn nothing |
| MersenneTwister.MT19937.Seed | src/rand.rs:84-93 | the array is filled with the seeded terms |
| MersenneTwister.MT19937.Reseed | src/rand.rs:84-93 | a new seed starts the sequence over from the seeded words read around the array from the index, which stays where it is |
| Reseeding.OutputsExact | src/rand.rs:94-112 | two generators give the same outputs for ever if and only if they start from the same 624 words, up to the lower 31 bits of the first; by running the recurrence backwards |
| Reseeding.ReseedExact | src/rand.rs:84-112 | for every seed, a reseeded generator gives the outputs of a new one if and only if its index is at the front |
| MersenneTwister.MT19937.RandomUint32 | src/rand.rs:94-112 | output n is the tempering of term n + 624 of the infinite recurrence |
| MersenneTwister.MT19937.GenBytes | src/rand.rs:48-57 | the big-endian bytes of successive outputs in order, the last one cut off |
| MersenneTwister.SeedExample | src/rand.rs:84-93 | the first seeded words of seed 5489 are the known ones |
| MersenneTwister.OutputExample | src/rand.rs:94-112 | the first outputs of seed 5489 are 3499211612, 581869302 and 3890346734 |
| Tempering.TemperBijection | src/rand.rs:107-112 | tempering is a bijection on 32-bit words |
| Spinlock.StepKeeps | lib/spinlock/src/lib.rs:57-82 | every step keeps locks exclusive and CPUs in order if and only if it does not drop a guard that was taken with interrupts on while others are held |
| Spinlock.DropExact | lib/spinlock/src/lib.rs:77-82 | the end of a drop leaves an owner of a lock with interrupts on if and only if the guard was taken with interrupts on while others are held |
| Spinlock.LifoIsSafe | lib/spinlock/src/lib.rs:77-82 | dropping guards in the reverse order of taking them is safe |
| Spinlock.RunKeeps | lib/spinlock/src/lib.rs:57-82 | so does every run, from any start, on any number of CPUs with any nesting of handlers |
| Spinlock.FlagMeansOneOwner | lib/spinlock/src/lib.rs:57-68 | in every reachable state a flag is set exactly when one guard of one context owns the lock |
| Spinlock.OwnerIsQuiet | lib/spinlock/src/lib.rs:57-64 | in every reachable state a CPU that owns a lock has interrupts off, and no handler stands above an owner |
| Spinlock.OutermostDropRestores | lib/spinlock/src/lib.rs:34-43 | from the outermost lock to the end of the drop of the last guard, through any nesting and interrupts, the interrupt state is what it was |
| Spinlock.TwoLocksReached | lib/spinlock/src/lib.rs:57-68 | a legal run of one CPU takes two locks, the second with interrupts already off |
| Spinlock.EarlyDrop | lib/spinlock/src/lib.rs:77-82 | dropping the outer of two guards first leaves interrupts on while the inner lock is owned |

## Left out

- Assembly, device registers, boot, traps, UART and interrupt controllers: hardware effects; only the entry encodings of the page tables are modelled.
- `unmap_4k` (`src/page/mapping.rs:189-219`): it frees a table and leaves the entry that points to it.
- The chain of cache managers (`src/mcache.rs:238-252`, `src/mcache.rs:387-403`): one manager is modelled; `CacheManager.Manager.Alloc` answers `Next` where the source asks another one, and `try_init_next` is not part of a step.
- `kernel_fork` (`src/task.rs:407-426`): it makes a task without a vruntime entry, so no invariant of the scheduler holds of it.
- `copy_user_string` (`src/task.rs:341-358`): its address never advances.
- SHA-256, HMAC, `lib/dtb/src/utils.rs`, the ELF parser, VFS, devfs and system calls.
- Widths of counters: pages, pids, vruntimes and lengths are unbounded integers, except that a vruntime wraps at 2^64 at nice -20; a vruntime that grows past 2^64 is not modelled. The 32-bit words of the ciphers and the generator and the 64-bit table entries are bit vectors.
- BuddyAllocator.BuddyAllocator.AllocPages: requires nodes enough for the split when an extension is due, whose own allocation is made with 36 nodes or fewer, and after an extension has failed, when the counter that the source checks is too high.
- BuddyAllocator.BuddyAllocator.FreePages: requires a node unless a merge gives one back, because the source takes it without a check.
- PageMapper.PageMapper.Map4k: answers false where the source panics because the allocator has no page.
- PageMapper.PageMapper.Destroy: trees of 3 to 5 levels, the sizes that the source's array holds and its loop ends on.
- CacheManager.Manager.NewCacheAlloc: without the allocation that `try_init_next` makes for the next manager.
- CacheManager.Manager.Alloc: the same; that allocation is another call of it.
- CacheManager.Manager.Dealloc: the manager is the one that the cell's header names; zero-sized objects are not allocated through it.
- Scheduler.Scheduler.Schedule: requires nice values from -18 on, and a task that may run at some reading of the clock; without one the loop does not end.
- Scheduler.Scheduler.Kill: the same, of a task that is not killed.
- Scheduler.Scheduler.CreateTask: starts from the loadable headers of the executable; the bytes, the page tables and the context of the task are not modelled.
- Scheduler.Scheduler.Fork: ownership of frames, not their bytes; the copy reads through the user address.
- Scheduler.Scheduler.DropSegments: the test of a reference count and the release of the reference are one step; the segments of one task are distinct, so the order does not matter.
- UserCopy.TaskView.CopyFromUser: requires that no user address is covered by two records.
- UserCopy.TaskView.CopyToUser: requires in addition that no frame backs two records, which `UserCopy.OwnedFrames` shows of every task.
- Devicetree.NodeParses: requires names without NUL, each with a multiple of 4 of wide characters. `DevicetreeNames.TreeExact` shows the condition exact for trees with at most one other name; of a tree with several, `ParsedTotal` says what the parser needs.
- DevicetreeMisreads.LeadingNops: says nothing of one NOP token before a root without a name whose contents are not telling, such as the one of `LuckyRootFound`.
- DevicetreeParser.ParseTree: debug assertions are off; a token that is none of the four is read as a property, as in a release build.
- AesModes.BlockRoundTrip: the key length is in the number of round keys.
- ChaCha20.ChaCha20.Encrypt: up to the block at which the 32-bit counter would overflow, where the source panics or wraps.
- Spinlock.RunKeeps: handlers return with the interrupt state of the moment they came, and contexts turn interrupts on or off themselves only while they hold no lock.
