# HeliumOS kernel: memory, tasks and the initial ramdisk

A Dafny model of the parts of the HeliumOS kernel where correctness depends on many steps fitting together, with
proofs of what those steps guarantee.

* **Physical frames.** A first-fit bitmap allocator over the usable regions of the firmware's memory map (`Phys`), and
  its start-up, which carves room for its own headers out of one of those regions (`PhysInit`).
* **Virtual memory.** Four-level page tables in physical memory, the hardware walk and the translation buffer
  (`Paging`, `Hardware`). The *VCache* is a window of 2048 page slots through which the kernel reaches any frame; slots
  that are given back stay mapped and are reclaimed lazily (`VCacheSpec`, `Window`, `VCache`, and `VCacheCores` for
  several cores). The mapper walks and extends the tables through two borrowed slots (`Tables`, `Steps`, `Ranges`,
  `Mapper`), `Rights` states what runs of it guarantee, `Boot`, `Relocation` and `Startup` model the start-up chain that
  makes the kernel independent of the identity mapping.
* **Tasks.** The scheduler as interleaved lock-level steps of any number of cores (`Scheduler`, and `SchedulerRuns`,
  `SchedulerTimes`, `SchedulerSearch` and `SchedulerProgress` for what holds over whole runs);
  loading a program through a temporary view of its frames, and who owns which frame (`Memory`, `Loader`, `Exec`, and
  `Backing` for why the plain memory used there stands for page tables);
  the shortcut that skips applying a memory map (`ActiveMap`).
* **Initial ramdisk.** The tar reader and the scan of the archive (`Tar`, `Initrd`).

The code that updates things in place is modelled by classes and methods with loops; each method is proved against a
specification on values, and the lemmas are about those specifications. Every access to a page table goes through a
window page and requires that the core's translation buffer agrees with the tables there, and every store that all four
entries on the page's way let stores through, so that a stale or a read-only slot would show up as an unprovable call. After every store and flush the hardware may add any translation the tables allow.

Integer overflow panics in the kernel's build; it is a precondition or an explicit failure, never wrap-around. A
panic is an explicit outcome (`None`, `OutOfFrames`, `Halted`, ...) unless stated below.

## Results worth knowing

* The VCache never runs dry as the kernel uses it, but the bound is 512 live slots of 2048 (`NotStuck`,
  `StuckAtTheBound`), because only the first row's count limits the reclaim.
* The error return of the VCache's `map` cannot happen: the count it tests is set in the first round of the search.
* A slot must not be given back twice, a free one must not be re-aimed, and neither must one of the cache's own four:
  `Unmap` and `Remap` say exactly when the cache stays in order.
* The four last-level tables of the window must be consecutive frames, which nothing checks. They are the frames that
  first fit hands out after those for the missing upper tables, and the cache that start-up leaves is valid if and only
  if these follow one another and the links it finds on the window's way let stores through (`Boot.Init`). They do
  follow if the first segment with a usable page has enough of them
  (`StartUpInRow`); `ScatteredTables` is an accepted memory map for which they do not.
* A new table is linked before it is cleared, so that the hardware may read what the frame held. One reload afterwards
  is enough if and only if the frame's present words are neither global nor links to other frames, which the model calls
  tame (`ReloadEnoughIff`); `StaleGigabyte` is a frame for which it is not, and `StaleAfterLeaf` a page that is seen
  wrongly after its leaf is stored.
* The scan's index is not updated when a better task replaces the candidate; this never shows, because every task has
  priority 0 (`NeverSwaps`). On one core tasks therefore run strictly in spawn order (`RunsInSpawnOrder`).
* A core passes over a task only if another core holds its lock or it is not Pending at that moment (`TakesFirst`), and
  a task keeps its core until the clock has been read ten times per core since the tick that adopted it (`SliceLength`).
* No run of the scheduler comes to a state in which no core can move (`NeverDeadlocked`).
* All memory maps get the id 0, because the counter is a constant. Skipping a map with the id applied last is right if
  and only if all maps with one id say the same (`ShortcutRightIff`), so that with this id it is wrong as soon as two
  tasks differ (`SecondTaskNotApplied`).
* Segments that share a page do not share a frame: only the last one is seen there (`FrameSeenIffLast`), and
  `SharedPageLoses` is a program that is accepted and does not see its first segment.
* A segment that does not start at a page can exceed the core's 32 GiB temporary view by one page although its size is
  accepted (`ViewKeptIff`, `ViewExceeded`), contrary to the comment at kernel/src/proc/task.rs:36-40.
* Rounding a firmware entry's address up and its size down can move its end past the entry's end
  (`RoundingStaysInside` is an equivalence), even into memory in use (`RoundingLeavesEntry`), but never makes two
  regions overlap (`UsableApart`).

## Model

| member | source | states |
|---|---|---|
| Phys.BitmapWordsCoverPages | kernel/src/mem/phys.rs:39-44 | the bitmap has one bit for each page and less than a word of padding |
| Phys.SegmentHeader.constructor | kernel/src/mem/phys.rs:116-130 | a new bitmap has exactly the pages 0 to n-1 free if n mod 64 is not 0, and 0 to n-65 otherwise |
| Phys.InitialBits | kernel/src/mem/phys.rs:121-127 | the shifted last word marks exactly those pages, seen bit by bit |
| Phys.SegmentHeader.FindClearBit | kernel/src/mem/phys.rs:213-224 | the first word that is not all ones and its trailing ones give the lowest clear bit of the bitmap, if there is one |
| Phys.PhysicalFrameAllocator.FindFree | kernel/src/mem/phys.rs:209-224 | finds the lowest free page of the first segment that has one, or all bitmaps are full |
| Phys.PhysicalFrameAllocator.AllocateFrame | kernel/src/mem/phys.rs:207-231 | marks exactly the first-fit bit and returns its frame; fails only when every bit is set, and then changes nothing |
| Phys.PhysicalFrameAllocator.PaddingIsUsed | kernel/src/mem/phys.rs:222-227 | the bit found is never padding |
| Phys.PhysicalFrameAllocator.Palloc | kernel/src/mem/mod.rs:31-34 | on the set of free frames: fails if and only if the set is empty, otherwise takes one frame out of it |
| Phys.PhysicalFrameAllocator.DeallocateFrame | kernel/src/mem/phys.rs:233-252 | clears exactly the bit of the frame; a frame of no segment changes nothing |
| Phys.PhysicalFrameAllocator.Pfree | kernel/src/mem/mod.rs:35-37 | on the set of free frames: adds the frame, also when it is free already |
| Phys.FirstFitUnique | kernel/src/mem/phys.rs:207-231 | there is only one first-fit bit |
| Phys.FollowsInOrder | kernel/src/mem/phys.rs:207-231 | a trail of first-fit allocations holds the frames the order function names, and all of them if the view is full in the end |
| Phys.FollowsFree | kernel/src/mem/phys.rs:207-231 | what is free after such a trail is what was free without its frames |
| Phys.FullIffEmpty | kernel/src/mem/phys.rs:207-231 | the bitmaps are full if and only if no frame is free |
| Phys.WriteChangesOneFrame | kernel/src/mem/phys.rs:225-250 | one bit write adds or removes exactly one frame of the free set |
| Phys.RunRefinesFreeSet | kernel/src/mem/phys.rs:207-252 | every run of allocations and frees of held frames is a run of the free set, never hands out a held frame, and conserves free and held frames |
| Phys.FreeUndoesAllocate | kernel/src/mem/phys.rs:207-252 | freeing the frame just allocated restores every bit |
| PhysInit.CollectUsable | kernel/src/mem/phys.rs:68-91 | the usable regions, last firmware entry first, and the bytes their headers need; stops if and only if an entry has an unknown kind |
| PhysInit.UsableAligned | kernel/src/bootboot.rs:141-149 | the rounded regions start at a page and are whole, non-empty runs of pages |
| PhysInit.RoundingStaysInside | kernel/src/bootboot.rs:141-149 | a rounded region stays inside its firmware entry if and only if the bytes skipped at the front are no more than those dropped at the back |
| PhysInit.RoundingLeavesEntry | kernel/src/bootboot.rs:141-149 | a free entry whose rounded region reaches into the next entry, which is in use |
| PhysInit.RoundedApart | kernel/src/bootboot.rs:141-149 | rounding two disjoint entries never makes them overlap |
| PhysInit.UsableApart | kernel/src/mem/phys.rs:68-91 | the regions of disjoint usable entries are disjoint |
| PhysInit.FindHost | kernel/src/mem/phys.rs:93-109 | the first region that is large enough for all headers, or none is |
| PhysInit.PlaceHeaders | kernel/src/mem/phys.rs:111-139 | one fresh header and bitmap for each region, at consecutive addresses |
| PhysInit.Init | kernel/src/mem/phys.rs:58-151 | which of the three panics happens, exactly when; otherwise an allocator over the carved regions, which is valid if the usable entries are disjoint; a frame is managed or holds headers if and only if some entry has kind 1, at least 4096 bytes, and the frame among its pages from the rounded-up address on |
| PhysInit.UsableOffers | kernel/src/bootboot.rs:127-149 | the usable regions hold exactly the frames that start in the whole pages' worth of bytes of an entry of kind 1 with a page at least |
| PhysInit.ManagedFrames | kernel/src/mem/phys.rs:85-109 | those frames are divided between the segments and the header area, without overlap if the entries are disjoint |
| PhysInit.OfferedStartsInside | kernel/src/bootboot.rs:141-149 | every such frame starts inside an entry of kind 1, so that only its end can lie beyond |
| PhysInit.NeverFree | kernel/src/mem/phys.rs:85-91 | a frame that no entry of kind 1 offers is free under no bitmaps, whatever is allocated and freed |
| PhysInit.SmallerRegionsNeedLess | kernel/src/mem/phys.rs:86-103 | carving never makes a header start later than measured before carving |
| PhysInit.LayoutSound | kernel/src/mem/phys.rs:93-139 | headers and bitmaps do not overlap, are word aligned, fit the carved area although they were measured before carving, and the area is disjoint from every frame the allocator may hand out |
| Paging.WriteLocal | kernel/src/mem/virt/mapper.rs:142-142 | a store into a table changes the translation of no page whose walk does not read that entry |
| Paging.OffTreeWrite | kernel/src/mem/virt/mapper.rs:174-179 | clearing a frame that is not yet a table changes no translation |
| VCacheSpec.GrantUnlessStuck | kernel/src/mem/virt/vcache.rs:187-258 | a request has an answer if and only if some row has a free slot or row 0 has a lazy one |
| VCacheSpec.GrantSparesLive | kernel/src/mem/virt/vcache.rs:187-274 | the slot handed out was not live, and every live slot keeps its frame |
| VCacheSpec.NotStuck | kernel/src/mem/virt/vcache.rs:187-242 | below 512 live slots every request succeeds |
| VCacheSpec.StuckAtTheBound | kernel/src/mem/virt/vcache.rs:192-242 | with 512 live slots a request can panic although 1536 slots could be reclaimed |
| VCacheSpec.GrantedNext | kernel/src/mem/virt/vcache.rs:275-295 | any number of requests in a row get different slots, each shows its frame, and no live slot is disturbed |
| VCacheSpec.RunNeverStuck | kernel/src/mem/virt/vcache.rs:187-340 | in every run with five permanent slots and the mapper's borrowed ones, however long, no request is stuck and the permanent slots stay |
| VCache.VCache.Reclaim | kernel/src/mem/virt/vcache.rs:210-230 | frees exactly the lazy slots of a row, reports how many and the last one, without flushing and without disturbing any other page |
| VCache.VCache.ReclaimRow | kernel/src/mem/virt/vcache.rs:207-239 | with no free slot anywhere: fails if and only if row 0 has no lazy slot, otherwise frees all lazy slots of row 0 |
| VCache.VCache.FindFree | kernel/src/mem/virt/vcache.rs:245-256 | the first slot of the row that is not present |
| VCache.VCache.Map | kernel/src/mem/virt/vcache.rs:149-274 | panics if and only if stuck; otherwise grants a slot as specified, keeps the counters equal to the numbers of free and lazy slots, and disturbs no page outside the window; the slot's page leads to the frame, may be written through all four levels, is global and closed to users, and the buffer holds nothing else for it |
| VCache.VCache.MapMany | kernel/src/mem/virt/vcache.rs:275-295 | any number of grants in a row; without a panic if at most 512 slots are live afterwards, and a panic only at a stuck cache |
| VCache.VCache.Remap | kernel/src/mem/virt/vcache.rs:296-328 | refuses pages outside the window; otherwise re-aims the slot, and a live slot's page then leads to the frame as after `Map`, also when the flush is skipped because the frame is the same; the cache stays valid if and only if the slot was not free and is not one of its own aimed elsewhere |
| VCache.VCache.Mislead | kernel/src/mem/virt/vcache.rs:296-328 | re-aiming one of the cache's own slots disturbs nothing else and leaves the cache not valid |
| VCache.VCache.Unmap | kernel/src/mem/virt/vcache.rs:329-335 | a live slot becomes lazy and stays mapped; the cache stays valid if and only if the slot was live and is not one of its own |
| VCache.CountersDecide | kernel/src/mem/virt/vcache.rs:192-209 | the counters are zero exactly when the row has no free or lazy slot |
| VCache.GrantFromFree | kernel/src/mem/virt/vcache.rs:241-263 | taking the first free slot of the first row with one is a grant |
| VCache.GrantFromLazy | kernel/src/mem/virt/vcache.rs:207-263 | reclaiming row 0 and taking its last lazy slot is a grant |
| VCache.AgeingKeepsCounts | kernel/src/mem/virt/vcache.rs:329-335 | giving a slot back keeps the counters true if and only if the slot was live |
| Window.SlotRights | kernel/src/mem/virt/vcache.rs:263-268 | a slot that is not free may be written if the links above it let stores through, by the rights of all four entries |
| VCacheCores.NeverStale | kernel/src/mem/virt/vcache.rs:219-335 | from the state after start-up, over every interleaving of calls at the lock, buffer fills and evictions on any number of cores, a core that may use a slot sees the frame the slot holds |
| VCacheCores.BootInv | kernel/src/mem/virt/vcache.rs:81-115 | the state after start-up satisfies the invariant |
| VCacheCores.BootLeaves | kernel/src/mem/virt/mapper.rs:19-32 | the cache and the buffer that start-up leaves on its core are that state, with nothing in the buffers of the others |
| VCacheCores.StaleElsewhere | kernel/src/mem/virt/vcache.rs:260-328 | from any quiet state another core can come to hold an outdated frame for the slot, so that holding the slot is necessary |
| Tables.GrownWalk | kernel/src/mem/virt/mod.rs:28-49 | linking a cleared table at an unused entry changes no translation |
| Tables.DescendedWalk | kernel/src/mem/virt/mapper.rs:153-188 | following or creating a table changes no translation outside the window |
| Tables.CreatedGlobals | kernel/src/mem/virt/mapper.rs:159-180 | creating a table from a frame whose words are tame brings no new global translation into the buffer, although the frame is linked before it is cleared |
| Steps.LeafMapsOne | kernel/src/mem/virt/mapper.rs:121-146 | descending and then storing the leaf changes the translation of that page only, and takes exactly the new tables out of the free set |
| Steps.DescendedGains | kernel/src/mem/virt/mapper.rs:159-180 | one step down takes a frame if and only if the table was missing |
| Steps.DescendedLinks | kernel/src/mem/virt/mapper.rs:159-166 | one step down brings no link but one that lets stores through, lets user code through in the lower half only, and has no other bit |
| Steps.LinksKept | kernel/src/mem/virt/mapper.rs:159-166 | such links keep the lower half open to user code, kernel space closed to it, and every way open to stores, if they were |
| Mapper.KernelMapper.Create | kernel/src/mem/virt/mapper.rs:159-180 | the new table is linked with the wanted flags, shown in the window and cleared; the tables form a tree again |
| Mapper.KernelMapper.EnsureAllocated | kernel/src/mem/virt/mapper.rs:153-188 | afterwards the window page shows the table below the entry, new or old; fails only when no frame is free and the table is missing |
| Mapper.KernelMapper.Descend | kernel/src/mem/virt/mapper.rs:116-127 | three levels through the two borrowed pages end at the page's last-level table, with every translation and the contents of every frame that is no table unchanged |
| Mapper.KernelMapper.MapPage | kernel/src/mem/virt/mapper.rs:104-146 | one round maps one page, no other page outside the window changes, and no frame that is not a table does |
| Mapper.KernelMapper.MapRun | kernel/src/mem/virt/mapper.rs:104-147 | the loop maps page i to frame i for the whole run, with the forced flags, and leaves every frame that is no table alone |
| Mapper.KernelMapper.Map | kernel/src/mem/virt/mapper.rs:64-151 | each error exactly when, running out of frames if and only if fewer are free than tables are missing on the way; on success every page that holds one of the bytes leads to its frame, present, with writable, large-page and other bits as asked, user as asked below kernel space and off in it, global as asked or in kernel space; every other translation is unchanged, the tables form a tree, the frames taken are the new tables, both slots are given back, this core's buffer agrees on the run if it is flushed page by page or, when no translation of the run was global and the free frames were tame, by one reload, and holds nothing new about other mapped pages, and frames that are no tables keep their contents |
| Mapper.MappedAsAsked | kernel/src/mem/virt/mapper.rs:80-151 | the same page by page for any mapped run, bit by bit in the caller's flags; the buffer agrees on the run if the call asks for global pages, starts in kernel space or has fewer than 32 pages |
| Mapper.KernelMapper.RemoveIdentity | kernel/src/mem/virt/mapper.rs:34-47 | no lower-half page stays mapped, kernel pages translate as before, lower-half links are open to user code from then on, the buffer keeps a lower-half translation only if it was global, and no frame but the root table changes |
| Ranges.AgreesStep | kernel/src/mem/virt/mapper.rs:144-146 | flushing page by page keeps the buffer in agreement on the pages done |
| Ranges.FlushedRun | kernel/src/mem/virt/mapper.rs:148-150 | one reload makes the buffer agree on the run if none of its translations was global and the free frames were tame |
| Ranges.MappedKeepsLocal | kernel/src/mem/virt/mapper.rs:130-150 | with tame free frames, a call that asks for no global user page leaves the lower half without global translations |
| Ranges.MappedKeepsCoherent | kernel/src/mem/virt/mapper.rs:144-150 | with tame free frames and no global user pages, a call, flushed either way, leaves the buffer true about every mapped page |
| Ranges.PurgedLower | kernel/src/mem/virt/mapper.rs:34-47 | after the lower half is cleared and the buffer reloaded, no lower-half translation is left if none was global and the free frames were tame |
| Rights.UserRightsAreLeafRights | kernel/src/mem/virt/mapper.rs:130-168 | for a user page the rights combined over all four levels are those of the leaf |
| Rights.RunRefinesPlainMap | kernel/src/mem/virt/mapper.rs:64-151 | in every run of calls a page that no call covers translates as at the start, and any other leads to the frame, with the bits, that the last call covering it asked for |
| Rights.RunKeepsUserRights | kernel/src/mem/virt/mapper.rs:130-168 | the same rights in every state of every run that starts after the identity mapping is removed |
| Rights.WritesAreLeafWrites | kernel/src/mem/virt/mapper.rs:130-168 | where all links let stores through, the leaf alone decides about stores |
| Rights.RunKeepsLinks | kernel/src/mem/virt/mapper.rs:159-166 | in every state of every run the links are those of the start and those the kernel makes, and keep what they keep |
| Rights.RunGrantsRights | kernel/src/mem/virt/mapper.rs:64-168 | in every run the hardware's rights for a page, over all four levels, are those the last call covering it asked for, with user code kept out of kernel space |
| Rights.RunShutsKernel | kernel/src/mem/virt/mapper.rs:159-166 | if no link of kernel space lets user code through at the start, user code never gets at a page there, window included |
| Rights.RunClosesKernel | kernel/src/mem/virt/mapper.rs:130-140 | in every run a kernel page translates as at the start or is closed to user code |
| Rights.RunKeepsBufferTrue | kernel/src/mem/virt/mapper.rs:64-151 | in every run of calls without global user pages and with tame free frames, in every state, the buffer is true about every mapped page outside the window, so that both ways of flushing are enough |
| Rights.ReloadEnoughIff | kernel/src/mem/virt/mapper.rs:148-180 | after a frame is linked and then cleared, one reload is enough, wherever it is linked and whatever the rest of memory holds, if and only if its present words are not global and link to no other frame |
| Rights.StaleGigabyte | kernel/src/mem/virt/mapper.rs:164-179 | a free frame that is read as a global gigabyte page before it is cleared, so that a reload is not enough |
| Rights.StaleAfterLeaf | kernel/src/mem/virt/mapper.rs:104-151 | three tables are created for a page and its leaf is stored; with such a frame for the first table the buffer disagrees about the page after the reload |
| Relocation.RunResolves | kernel/src/mem/phys.rs:160-166 | the bytes of a mapped run are consecutive physical bytes |
| Relocation.LaidOutInArea | kernel/src/mem/phys.rs:146-150 | the headers start-up lays out lie in the area it has mapped |
| Relocation.MapHeader | kernel/src/mem/phys.rs:153-184 | fails if and only if too few frames are free for the tables; otherwise each shifted header and bitmap is behind its new address, counted from 0xFFFF_8040_0000_0000, the mapper leaves its bytes alone if its frames are neither tables nor free, the buffer agrees on the header pages, and only the new tables left the free set |
| Boot.FirstFitAdvances | kernel/src/mem/virt/vcache.rs:56-67 | first fit hands out a run of free pages in order |
| Boot.RunHandedOut | kernel/src/mem/phys.rs:207-231 | a run of free pages that comes first is handed out as consecutive frames |
| Boot.StartUpRuns | kernel/src/mem/phys.rs:111-139 | the bitmaps the allocator's start-up leaves offer all pages of the first segment with a usable page in one run |
| Boot.StartUpInRow | kernel/src/mem/virt/vcache.rs:56-67 | if that segment has pages for all the tables, the window's four follow one another |
| Boot.ScatteredCarved | kernel/src/mem/phys.rs:68-109 | a memory map of two entries that start-up accepts, with three pages left in the first segment |
| Boot.ScatteredTables | kernel/src/mem/virt/vcache.rs:56-111 | with it and both upper tables missing, the window's tables come from two segments and do not follow one another |
| Boot.StartUpView | kernel/src/mem/phys.rs:111-139 | in the bitmaps the allocator's start-up leaves, the first pages of each segment are free |
| Boot.AllocSubstruct | kernel/src/mem/virt/mod.rs:28-49 | the first-fit frame, cleared, becomes the table at the entry; fails if and only if every bit is set |
| Boot.BuildTables | kernel/src/mem/virt/vcache.rs:20-68 | with any free frames: which panic happens, and why; otherwise builds the tables above the window from the frames first fit hands out, in order, makes no link but those the kernel makes, changes no translation and no frame that is no table |
| Boot.FreshGrants | kernel/src/mem/virt/vcache.rs:81-104 | a fresh cache grants the slots of row 0 in order, so that one table is enough |
| Boot.EarlyMap | kernel/src/mem/virt/vcache.rs:149-274 | a request on the one-table cache of start-up gets the first absent entry of the first row with a free slot, or exactly which panic happens |
| Boot.RequestGetsSlot | kernel/src/mem/virt/vcache.rs:86-104 | the k-th request of start-up stays in the one table, gets slot k, and is the grant the cache specifies |
| Boot.MapTables | kernel/src/mem/virt/vcache.rs:86-104 | the four requests succeed; after them the slots 0 to 3 hold the four frames counted from the first, and no page outside the window changed |
| Boot.SelfMappedIff | kernel/src/mem/virt/vcache.rs:106-111 | those slots show the tables themselves if and only if the tables are consecutive frames; the counters are true in any case |
| Boot.Init | kernel/src/mem/virt/vcache.rs:20-115 | panics if and only if an entry is in use or first fit has too few frames; otherwise a cache with four live slots that is valid if and only if the four frames first fit hands out for its tables follow one another and the links found on the window's way let stores through; which frames are left, the allocator is valid, the tables form a tree apart from the free frames, and outside the window no translation, no way to a page and no frame that is no table has changed |
| Boot.InitMapper | kernel/src/mem/virt/mapper.rs:19-32 | the root table gets the fifth slot, and the mapper is ready with five live slots |
| Startup.VirtInit | kernel/src/mem/virt/mod.rs:17-22 | cache, mapper, header move and end of the identity mapping in a row: exactly which start fails at the cache, goes on with a broken one, or has too few frames for the tables on the way to the header pages, each from the state before the call; otherwise a valid mapper with five live slots, every header behind its new address with its bytes, and open to stores if the firmware's links are, the lower half empty, and every other kernel page as it was |
| Startup.MemInit | kernel/src/mem/mod.rs:24-30 | the same from the firmware's memory map on, with the allocator's start-up before it, and which frames that manages: no assumption about the allocator or the headers is left |
| Startup.AreaSetAside | kernel/src/mem/phys.rs:93-150 | the frames the allocator hands out are memory without tables, and the header area is none of them |
| Scheduler.NeverSwaps | kernel/src/proc/task.rs:152-155 | a reachable scan never replaces its candidate |
| Scheduler.NeverMisses | kernel/src/proc/task.rs:206-213 | an exiting task is always found in the list |
| Scheduler.NextKeepsInv | kernel/src/proc/task.rs:78-217 | every step of every core keeps the invariant on locks, list, claims, scans and times |
| SchedulerRuns.RunInv | kernel/src/proc/task.rs:78-217 | the invariant holds in every state of every run, on any number of cores |
| SchedulerRuns.Exclusive | kernel/src/proc/task.rs:118-167 | no task is current on two cores, and every current task is listed and Running, so that the unreachable arm is unreachable |
| SchedulerRuns.AdoptsWhatItMarked | kernel/src/proc/task.rs:161-166 | the task at the chosen index is the one marked Running, and no other core has it |
| SchedulerRuns.RemovesOnlyTheExiting | kernel/src/proc/task.rs:193-217 | an exit removes exactly the exiting task and keeps the order of the others |
| SchedulerRuns.SpawnsOne | kernel/src/proc/task.rs:229-252 | loading a program adds exactly one task, at the end, Pending, whose id is the number of tasks added so far, and changes nothing else of the tasks |
| SchedulerRuns.SpawnedByTask | kernel/src/proc/syscall.rs:61-104 | only a core that runs a task adds one by a system call |
| SchedulerRuns.ChangesUnderLock | kernel/src/proc/task.rs:127-163 | a task's state changes only while no other core holds its lock |
| SchedulerRuns.TaskLocks | kernel/src/proc/task.rs:142-163 | a task that a core looks at, has as its candidate or has marked is so for no other core, and its id is read by none |
| SchedulerRuns.TickEnds | kernel/src/proc/task.rs:108-167 | a tick ends with the task kept, one adopted or none found, and an exit with the task out of the list |
| SchedulerRuns.InitOnlyIfEmpty | kernel/src/proc/task.rs:103-116 | /bin/init is added only to an empty list, and a core that judges or scans finds a task in it |
| SchedulerRuns.JudgedByAge | kernel/src/proc/task.rs:118-135 | the age never underflows; a judged task, which no other core is writing, is released if and only if its age is at least ten ticks per core, and otherwise kept |
| SchedulerRuns.ReleasedAtFirstTick | kernel/src/proc/task.rs:78-135 | between two ticks at which a core gets the list's lock it judges its task exactly once, and a task that is old enough at the first of them is released there |
| SchedulerTimes.ClockCounts | kernel/src/proc/task.rs:94-95 | in every run the clock is the number of times it has been read |
| SchedulerTimes.MarkedWithFreshClock | kernel/src/proc/task.rs:94-163 | a task that is marked is Running since the clock as it was before the core's last reading, which is that of the same tick |
| SchedulerTimes.SliceLength | kernel/src/proc/task.rs:94-163 | the task a core judges is the one it marked last, and is released if and only if the clock has been read at least ten times per core since the tick that adopted it |
| SchedulerSearch.RunningIffClaimed | kernel/src/proc/task.rs:78-217 | in every state a listed task is Running if and only if a core runs it, has chosen it, or is about to release or remove it |
| SchedulerSearch.TakesFirst | kernel/src/proc/task.rs:142-167 | the task a core marks is Pending, and each one before it in the list was locked by another core or not Pending when this scan looked at it |
| SchedulerSearch.IdlesOnlyWithoutWork | kernel/src/proc/task.rs:142-167 | a scan that takes nothing found every task of the list locked by another core or not Pending |
| SchedulerProgress.MovesOrWaits | kernel/src/proc/task.rs:78-217 | at every position a core can move, or waits for the list's lock, for its readers to leave, or for one task's lock |
| SchedulerProgress.NeverDeadlocked | kernel/src/proc/task.rs:78-217 | in every state of every run some core can move |
| SchedulerRuns.MissedBecauseHeld | kernel/src/proc/task.rs:82-91 | a core misses a tick only while another core holds the list's lock upgradeably or for writing |
| SchedulerRuns.MissesBounded | kernel/src/proc/task.rs:79-92 | the miss counter counts the ticks missed in a row, and there are never more than 11 |
| SchedulerRuns.MissesReached | kernel/src/proc/task.rs:79-92 | runs in which a core misses k ticks in a row, for every k up to 11 |
| SchedulerRuns.RunsInSpawnOrder | kernel/src/proc/task.rs:118-167 | with one core the current task is the list's head, and every other task is Pending and was spawned later |
| Memory.Memory.PfreeAll | kernel/src/mem/mod.rs:38-42 | all the frames are free |
| Memory.Memory.Vmap | kernel/src/mem/mod.rs:44-51 | maps one page, links exactly the tables that were missing on its way, one frame each, and conserves frames; fails if and only if fewer frames are free than tables are missing |
| Memory.Memory.VmapMany | kernel/src/mem/mod.rs:52-61 | page i shows frame i, all other pages are unchanged, and frames are conserved; fails if and only if fewer frames are free than tables are missing on all the ways together |
| Backing.MapIsVmap | kernel/src/mem/mod.rs:44-51 | a one-page call of the mapper does to page tables in memory what `vmap` does to the plain memory that stands for them: page map, linked tables, free frames, and no byte outside the tables |
| Backing.ShortIsFull | kernel/src/mem/mod.rs:44-51 | and the mapper runs out of frames exactly when it does |
| Memory.Memory.Valloc | kernel/src/mem/mod.rs:63-74 | each page shows a new frame that the kernel keeps, and frames are conserved |
| Memory.Memory.StoreAll | kernel/src/proc/task.rs:318-319 | bytes written through consecutive pages land in the frames behind them at their positions, and nothing else changes |
| Loader.FoldAppend | kernel/src/proc/task.rs:455-457 | applying two lists of mappings one after the other is applying their concatenation |
| Loader.FoldShows | kernel/src/proc/task.rs:455-457 | the last mapping of a page decides |
| Loader.SegmentFits | kernel/src/proc/task.rs:279-310 | an accepted segment's pages lie in user space and hold all its bytes |
| Loader.AcceptedIff | kernel/src/proc/task.rs:279-300 | a segment is not refused if and only if it is aligned to 4096 at most, ends below 0x7fff_ffff_ffff, has at most 32 GiB, and its bytes are in the file |
| Loader.OneVerdict | kernel/src/proc/task.rs:279-322 | for every header, file length and number of frames at most one failure applies, and none if the segment can be loaded |
| Loader.FewestPages | kernel/src/proc/task.rs:304-310 | a segment's pages start at the page of its address and are the fewest that hold it |
| Loader.LastHomeShows | kernel/src/proc/task.rs:275-328 | a page shows the frame and flags of the last segment that covers it |
| Loader.FrameSeenIffLast | kernel/src/proc/task.rs:275-328 | a page shows a segment's frame if and only if no later segment covers it |
| Loader.SharedPageLoses | kernel/src/proc/task.rs:275-328 | two accepted segments in one page: the first one's byte is not what the program sees |
| Loader.SegmentVisible | kernel/src/proc/task.rs:273-350 | once the map is applied, byte k of a segment is the file's byte, or zero past the file's bytes, in a user page that may be written if and only if bit 1 of the header's flags is set, with no other bit set, unless a later segment or the stack shares the page |
| Loader.DisjointSegmentsVisible | kernel/src/proc/task.rs:273-350 | segments that share no page are visible whole |
| Loader.ViewKeptIff | kernel/src/proc/task.rs:59-76 | a segment is filled through the core's own pages if and only if its size and its offset in the first page fit 32 GiB together |
| Loader.ViewExceeded | kernel/src/proc/task.rs:288-290 | an accepted segment that needs a page of the next core's view |
| Exec.FilledThenCopied | kernel/src/proc/task.rs:318-319 | a zero fill and a copy leave the segment's image in its frames |
| Exec.TaskList.Allocate | kernel/src/proc/task.rs:392-446 | succeeds if and only if enough frames are free; on failure the free set is as before, but the map keeps the mappings it got |
| Exec.TaskList.DropMap | kernel/src/proc/task.rs:476-482 | dropping a map frees the frame of each of its mappings |
| Exec.TaskList.Abandon | kernel/src/proc/task.rs:407-412 | dropping a map whose newest frames were freed already leaves every frame with one owner |
| Exec.TaskList.LoadSegment | kernel/src/proc/task.rs:302-322 | the segment's image lies in new frames that the map names; other frames keep their bytes |
| Exec.TaskList.LoadNext | kernel/src/proc/task.rs:311-322 | one more segment keeps the earlier ones in place; without frames everything taken is given back |
| Exec.TaskList.LoadAll | kernel/src/proc/task.rs:275-328 | all segments are in place if and only if each is accepted and the free frames are enough for their pages and for the missing tables of their views; otherwise the outcome names the first header that cannot be loaded and why |
| Exec.EnoughNext | kernel/src/proc/task.rs:302-322 | what is left is enough for the next segment exactly when what was free at first is enough for all so far |
| Exec.TaskList.Exec | kernel/src/proc/task.rs:273-350 | succeeds if and only if every segment is within the limits, its bytes fit its memory, and the free frames are enough for the pages of the segments and the stack and for the missing tables of their views; each other result happens if and only if it is the verdict on the first header that stops the load, in terms of its fields, the file's length and the frames left; success adds one task with the next id whose map holds all segments and a zeroed stack; a failure leaves tasks, kernel frames and other tasks' bytes alone and gives every frame back or leaves it as a table; no page changes but those of the core's own view |
| Exec.StopsOnce | kernel/src/proc/task.rs:273-350 | a list of headers has at most one such result, and none if all can be loaded |
| Exec.StackIsSeen | kernel/src/proc/task.rs:330-345 | a program that sees its segments sees half a mebibyte of zeros it may write from 0x7fff_ffe8_0000 on |
| Exec.TaskList.NewLocked | kernel/src/proc/task.rs:229-252 | the task is added at the end with the next id, and owns its map's frames |
| Exec.TaskList.Exit | kernel/src/proc/task.rs:193-217 | the task's frames become free, and every frame still has one owner |
| Exec.TaskList.Valloc | kernel/src/mem/mod.rs:63-74 | keeps one owner for every frame |
| Exec.TaskList.Apply | kernel/src/proc/task.rs:448-459 | the page map is unchanged if the id was applied last, and the last-wins fold of the mappings otherwise |
| Exec.ProgramVisible | kernel/src/proc/task.rs:273-459 | applying the map a start has built shows every byte whose page no later segment has |
| Exec.TaskList.ExecAndSwitch | kernel/src/proc/task.rs:273-459 | after a start and a switch the program sees every byte of every segment and a zeroed stack, unless a later segment shares the page or a map with the same id was applied last |
| Exec.OneOwner | kernel/src/proc/task.rs:392-417 | every managed frame is free, a table, the kernel's or a task's, once |
| Exec.TasksApart | kernel/src/proc/task.rs:392-417 | no two tasks share a frame |
| ActiveMap.ShortcutAgrees | kernel/src/proc/task.rs:448-459 | if maps with one id say the same, skipping gives the page map of always applying, over any sequence of switches, and the last task's map is in force |
| ActiveMap.ShortcutRightIff | kernel/src/proc/task.rs:448-459 | skipping is right on all sequences if and only if maps with one id say the same |
| ActiveMap.DistinctIdsAgree | kernel/src/proc/task.rs:448-459 | distinct ids are enough |
| ActiveMap.SameIdsAgreeIff | kernel/src/proc/task.rs:383-390 | with the ids the kernel gives, skipping is right if and only if all maps say the same |
| ActiveMap.SecondTaskNotApplied | kernel/src/proc/task.rs:383-459 | two tasks with different frames behind one page: the second runs on the first one's frame |
| Tar.OctalRoundTrip | kernel/src/fs/tar.rs:71-77 | a size written in octal digits is read back |
| Tar.CutPadded | kernel/src/fs/tar.rs:50-57 | a name padded with NULs is read back |
| Tar.Utf8Iff | kernel/src/fs/tar.rs:56-57 | the bounds on the bytes of a name hold if and only if they are the UTF-8 of some text |
| Tar.NameIff | kernel/src/fs/tar.rs:50-65 | any header has a name if and only if prefix and name up to their first NUL are UTF-8, and it is a slash followed by both |
| Tar.SizeIff | kernel/src/fs/tar.rs:73-78 | any header has size n if and only if its field is n in eleven octal digits, or a plus sign and n in ten, with a NUL at the end |
| Tar.HeaderReadsBack | kernel/src/fs/tar.rs:43-82 | magic, size, type and name of a header are read as they were written, whatever the other fields hold |
| Initrd.InitMap | kernel/src/fs/initrd.rs:58-101 | the loop ends on every sequence of bytes: the index holds what the headers in a row list up to the first place without one, for each path the last, and there is none if and only if one of those headers has no size, or is a file's or a directory's and has no name |
| Initrd.ScanStep | kernel/src/fs/initrd.rs:65-98 | one round over an entry moves to the next header and adds the entry if it is kept |
| Initrd.ScanInvertsEncoding | kernel/src/fs/initrd.rs:58-101 | for every list of entries the scan finds exactly the supported entries that are not dot names, for each path the last one, and each file's slice holds the content that was written |

## Left out

- Kernel heap, early heap, device and console output, interrupt controllers, ACPI tables, GDT and core start-up: no deep property, or behaviour of foreign code.
- Register contents of tasks, the syscall register encoding and the assembly stubs: straight-line copying.
- Cross-core shootdown and per-core user address spaces: the kernel has neither; the mapper's statements are about the executing core.
- Header magic numbers of segments and the ELF identification: checks that only add easy members; program headers are taken as parsed.
- Release-build wrap-around of sums: the model follows the debug build, in which they panic.
- VCache.VCache.MapMany: the unmapping after an error return is not modelled, because that return cannot happen.
- VCacheCores.NeverStale: works on slots and frames; that one core's calls do what the steps say is proved in `VCache`. The buffers of cores that have not started are taken to hold nothing for the window.
- Mapper.KernelMapper.Map: assumes that the run lies in one half of the address space outside the VCache window, that no large page is on its way and that the caller does not ask for one; the kernel panics there, or the check of the first page alone lets the run into the window.
- Rights.RunKeepsBufferTrue: assumes that free frames are tame at every call, which is the condition of `ReloadEnoughIff`, and that no user page is asked for as global.
- Startup.VirtInit: what the kernel does with a cache that is not valid is not modelled.
- Boot.Init: assumes that no large page is on the window's way and that the buffer holds nothing for the window.
- Boot.EarlyMap: a request that would reclaim only reports so; start-up never makes one (`Boot.MapTables`).
- Mapper.KernelMapper.Palloc: takes any free frame; that the bitmap allocator is such a set is proved in `Phys` and used in `Boot`.
- Memory.Memory.Palloc: takes any free frame, for the same reason.
- Memory.Memory.Vmap: works on a plain page map; that it stands for what the mapper does to page tables is proved in `Backing`, outside the VCache window. The bytes of page tables are not tracked there.
- Exec.TaskList.Exec: calls are sequential; a frame that another core takes between the two frees of a failed allocation is not modelled.
- Exec.TaskList.Exit: the task is dropped when it leaves the list; that another reference may live a little longer is not modelled.
- Scheduler.NextKeepsInv: saving the registers of the current task, and other locks on a task held for a moment, happen inside one step; so does the removal from the list under the writer lock.
- Initrd.InitMap: mapping the archive into memory is not modelled; the archive is a sequence of bytes, and a file is a slice of it.
