# Verified model of kmi's memory management and thread migration

kmi is a small microkernel. This project models the parts whose correctness rests on invariants that span
many functions, in the shape the kernel gives them, and proves those invariants for every input and every run:

- **Physical pages** (`FreeList`, `BitScan`, `PhysMap`, `PhysStep`, `PhysLinks`, `PhysMem`): per-order bitmaps, split on demand and
  merged as soon as the last small page is freed. A set of live pages says what the bitmaps mean. `PhysStep` has one call of
  alloc, free and mark as a step on values, `PhysMem` is the code that takes these steps in place, and `PhysLinks` has the same
  steps on the list pointers as the source writes them.
- **Virtual regions** (`Tree`, `SpTree`, `RegionIndex`, `Layout`, `RegionList`, `Regions`, `Arena`): a doubly linked tiling of
  an arena, indexed by two intrusive self-adjusting trees. Nodes are heap objects; every pointer write of the tree and
  list code is there. `Layout` is the same thing as values, and the heap code is proved against it.
- **Sv39 page tables** (`PageTable`, `Vmem`, `Spaces`, `Teardown`, `SpaceRun`, `Sv39`): a memory of tables with 512 entries, lookup,
  map, unmap, gravestones, the early-stopping clone of the user half, teardown of spaces that share subtrees, runs of all of
  these, and agreement, word by word, with the translation of section 4.3.2 of the RISC-V Privileged Architecture (version 20211203).
- **Mapping regions** (`MapRegion`, `MapWalk`): backing a range with physical pages of falling order and giving them back, and what the
  hardware makes of it.
- **RPC stacks and IPC** (`Rpc`, `Ipc`, `Kernel`): threads that migrate between processes, their call contexts on a stack
  shared with user code, and the reference counts that keep processes alive.
- **Two fast algorithms** (`Bits`, `Bitmap`, `Strstr`): word-at-a-time bitmap search with the `ffs` bit trick, and Horspool search.

Integers are unbounded; bit vectors are used where the source relies on bits (page table entries, `ffs`, bitmap bytes), and
the `char` shift table of `strstr` is reduced modulo 256. Addresses and sizes are counted in base pages of 4096 bytes except
where a function's own contract is about bytes. `dafny verify dfyconfig.toml` checks everything.

Places where the code does not do what its comments or callers expect are stated as exact conditions, and each is reached from a
fresh state or holds for every state of its kind:

- the attach test of a freelist misses a listed tail (`FreeList.AttachLiteralCorrectIff`), exactly some frees run into it
  (`PhysLinks.FreeAgreesIff`, `PhysMem.TailReached`), and pages in use are handed out in the end (`PhysLinks.HandsOutUsedPage`);
- `mark_used` accepts a page inside a larger live page, which the allocator then forgets (`PhysMem.Pmap.MarkUsed`,
  `PhysMem.MarkInsideThenAlloc`, `PhysMem.Run`);
- an allocator that has lost its last live page hands out nothing any more (`PhysMem.Pmap.AllocPage`, `PhysMem.LostWithLastPage`);
- a page table that runs out of memory half way has a gap in its prefix (`Vmem.PageTables.MapPage`, `SpaceRun.GapReached`);
- destroying a process that an RPC space still shows leaves entries that lead nowhere (`Teardown.DestroyVmem`,
  `SpaceRun.DanglingReached`), and threads come to see the tables of a process that is gone (`Kernel.ShownGoneIff`,
  `Kernel.ShowsTheDead`);
- a page is lost when its mapping fails (`MapRegion.MapOne`, `MapRegion.LosesPage`), and `unmap_region` on some unaligned ranges
  leaves the last page behind or runs on past the end of the range (`MapRegion.UnmapPages`, `MapRegion.UnalignedEnd`,
  `MapRegion.UnalignedOverruns`);
- large pages fault in hardware unless RAM begins at a multiple of their size (`MapWalk.RangeWalk`);
- RPC stacks of one page or none pass the stack check and break the next call (`Rpc.EnoughIff`);
- tail calls, skipped callers and destroyed threads leave references behind that nobody drops (`Kernel.System.Run`,
  `Ipc.TailConsistent`, `Kernel.LeavesReference`);
- after a response the thread sees the user half of the process it left (`Kernel.StaleIff`, `Kernel.System.RequestThenRespond`);
- a thread created on behalf of a dead effective process has no root process (`Kernel.System.CreateThread`,
  `Kernel.CreatesForTheDead`);
- needles of 256 bytes and more may never be found (`Strstr.StuckIff`, `Strstr.LongNeedleSticks`).

One further exception, that wiping the last user entry leaves a gravestone with nothing above it when the stack area behind is in
use (`Vmem.PageTables.UnmapPage`), belongs to `unmap_vpage` alone: its callers unmap in process spaces, and only RPC spaces have
something in the stack area.

The comment of `bitmap_find_first` promises the index plus one and that of `do_ipc` an error for a target without a callback; the
code returns the index and has no such error, and so does the model.

## Model

| member | source | states |
|---|---|---|
| `FreeList.AttachLiteralCorrectIff` | src/pmem.c:151-161 | the pointer code attaches a set at most once exactly when the set is not the tail of a list of two or more |
| `FreeList.AttachTailMakesCycle` | src/pmem.c:151-161 | re-attaching the tail makes every listed set have a listed successor, so that the list has no end |
| `FreeList.DetachLiteralCorrect` | src/pmem.c:169-182 | the pointer code unlinks a set wherever it is in the list |
| `PhysMap.GetBitCorrect` | src/pmem.c:208-214 | an address is taken to the set and bit of the page of that order which contains it |
| `PhysMap.PageAddrCorrect` | src/pmem.c:192-197 | set and bit are taken to the start address of their page |
| `PhysMap.OrderSizes` | arch/riscv64/kernel/pmem.c:13-31 | pages of order 0, 1 and 2 have 4096, 0x200000 and 0x40000000 bytes |
| `PhysMap.InsideRam` | src/pmem.c:192-197 | a page starts a whole number of its size behind the base of RAM and ends inside RAM |
| `PhysMap.TakeCore` | src/pmem.c:264-300 | setting the bit of a free page keeps every bit set exactly when its page is live or split |
| `PhysMap.ReleaseCore` | src/pmem.c:226-250 | clearing the bit of a live page keeps that rule, the covering page taking over when its set becomes empty |
| `PhysMap.BitIffLiveInside` | src/pmem.c:226-354 | a bit is set exactly when its page is live or contains a smaller live page |
| `PhysMap.MapsDependOnlyOnLive` | src/pmem.c:226-354 | two histories with the same live pages leave the same bitmaps and use counts |
| `PhysMap.OverlapIffNested` | src/pmem.c:192-214 | pages overlap in memory exactly when one is inside the other |
| `PhysMap.LiveBytesDisjoint` | src/pmem.c:226-354 | no byte of RAM belongs to two live pages |
| `PhysMap.BlockedBelow` | src/pmem.c:264-300 | an empty freelist and no free page above mean that every page of this order overlaps a live page |
| `PhysStep.AllocStepOk` | src/pmem.c:264-300 | splitting on demand, over all orders: the page taken overlaps nothing live and exactly it becomes live; no page exactly when every page of the order overlaps a live one or the top set is lost |
| `PhysStep.FreeStepOk` | src/pmem.c:226-250 | exactly the freed page stops being live, through all the merging above it |
| `PhysStep.MarkStepOk` | src/pmem.c:318-348 | an occupied page is left alone; any other page becomes live, and a larger live page around it, if there is one, is taken for split from then on |
| `PhysStep.MarkedBytes` | src/pmem.c:350-354 | the byte counter stays the size of what is live exactly if no larger live page is around the marked one |
| `PhysStep.InsideThenAlloc` | src/pmem.c:318-348 | after marking a page inside a live page, the next page of that order to be allocated is inside the live page too |
| `PhysLinks.FreeAgreesIff` | src/pmem.c:226-250 | the pointer code of a free keeps all lists exactly if none of the sets it comes to is the tail of a longer list |
| `PhysLinks.TailInUse` | src/pmem.c:151-161 | whenever two sets of the lowest order are listed, some live page is one whose free runs into the missed tail |
| `PhysLinks.HandsOutUsedPage` | src/pmem.c:264-300 | once the sets of such a list are full, its pointers still have a full set at the head, and the next allocation hands out a page of the set behind it, in use if that set was listed too |
| `PhysLinks.AllocAgrees` | src/pmem.c:264-300 | the pointer code of an allocation always does what it does on the lists |
| `PhysLinks.MarkAgrees` | src/pmem.c:318-348 | so does that of a mark |
| `PhysMem.PopulateBucket` | src/pmem.c:374-424 | a fresh bucket has the right number of empty sets, only the top bucket lists its set, and the list pointers say so |
| `PhysMem.Pmap.constructor` | src/pmem.c:444-469 | a fresh allocator is consistent, with nothing live |
| `PhysMem.Pmap.AllocWorker` | src/pmem.c:264-300 | address and state are those of the allocation step |
| `PhysMem.Pmap.AllocPage` | src/pmem.c:302-309 | the page handed out lies in RAM, a whole number of its size from the base, overlaps nothing live, and `used` grows by its size; none exactly when every page of the order overlaps a live page or the top set is lost, and then nothing changes |
| `PhysMem.Pmap.FreeWorker` | src/pmem.c:226-250 | set, bit and merging address lead through the orders as the free step does |
| `PhysMem.Pmap.FreePage` | src/pmem.c:252-256 | exactly the freed page stops being live, with `used` in step; the allocator loses its top set exactly when nothing is live any more |
| `PhysMem.Pmap.MarkUsed` | src/pmem.c:318-354 | for every page of managed RAM: left alone if occupied, live afterwards if not; the books stay right exactly if no larger live page contains it |
| `PhysMem.MarkInsideThenAlloc` | src/pmem.c:318-354 | in every state in which one does, the next allocation of that order overlaps it |
| `PhysMem.TailReached` | src/pmem.c:151-161 | two marks and a free reach the tail that the attach test misses |
| `PhysMem.LostWithLastPage` | src/pmem.c:242-248 | one page taken and given back, and nothing is handed out any more |
| `PhysMem.Run` | src/pmem.c:226-354 | over every run of allocs, frees and marks at mixed orders, up to the first mark inside a larger held page: held pages are disjoint in every state, and an alloc fails exactly if every page of its order overlaps a held page or nothing is held after something was; at the end they are disjoint, and the books right, exactly if there was no such mark, and then a bit is set exactly when its page contains a held page and `used` is the sum of their sizes |
| `SpTree.RotateLeft` | src/sp_tree.c:24-43 | a left rotation moves the root pointer when it must, yields the rotated tree with all pointers consistent, and keeps the in-order sequence |
| `SpTree.RotateRight` | src/sp_tree.c:54-73 | a right rotation moves the root pointer when it must, yields the rotated tree with all pointers consistent, and keeps the in-order sequence |
| `SpTree.Update` | src/sp_tree.c:124-153 | the fix-up loop ends, its rotations always find the child they assert, and the in-order sequence does not change |
| `SpTree.Insert` | src/sp_tree.c:155-170 | exactly the new node enters the in-order sequence, at the slot given |
| `SpTree.First` | src/sp_tree.c:286-292 | the node that comes first in order, with the path to it |
| `SpTree.Last` | src/sp_tree.c:294-300 | the node that comes last in order, with the path to it |
| `SpTree.Remove` | src/sp_tree.c:178-284 | exactly the removed node leaves the in-order sequence; child, parent and root pointers stay consistent |
| `RegionIndex.InsertRegion` | src/regions.c:93-175 | the tree stays sorted, by size and start or by start, and gains exactly this region |
| `RegionIndex.RemoveRegion` | src/regions.c:424-424 | the tree stays sorted and loses exactly this region |
| `RegionIndex.OrderMeans` | src/regions.c:93-175 | in order, used regions ascend by start, and free ones by size, then by start |
| `RegionIndex.FindUsedRegion` | src/regions.c:231-248 | the used region with this start, or none exists |
| `RegionIndex.FindClosestUsed` | src/regions.c:297-326 | one path down the tree finds a region whose start is at least as near as that of every used region, on whichever side |
| `RegionIndex.FindFreeRegion` | src/regions.c:287-391 | with units of 1, 512 or 262144 pages for requests below 512, below 262144 and from there on: the first region of the right spine with room from a multiple of its unit on, at the least such multiple; if there is none, the start of the first that fits; and although only the spine is looked at, nothing is found exactly when no free region of the whole tree is large enough |
| `Layout.CarveTiles` | src/regions.c:420-465 | carving a used region out of a free one leaves a tiling without neighbouring free regions |
| `Layout.ReleaseTiles` | src/regions.c:541-628 | releasing a used region and merging it with its neighbours does too |
| `Layout.CarveRelease` | src/regions.c:420-628 | releasing what was just carved restores the tiling |
| `Layout.RunFreeIff` | src/regions.c:517-523 | a run of pages is free and in the arena exactly when the region of its first page is free and long enough |
| `Layout.CarveFreePages` | src/regions.c:420-465 | carving takes exactly the new region's pages away from the free pages |
| `RegionList.AddBeforeOk` | src/regions.c:435-443 | linking a new region in front keeps the list and inserts one extent |
| `RegionList.AddAfterOk` | src/regions.c:445-453 | linking a new region behind keeps the list and inserts one extent |
| `RegionList.MergePrevOk` | src/regions.c:551-555 | swallowing the region in front keeps the list and joins two extents |
| `RegionList.MergeNextOk` | src/regions.c:580-584 | swallowing the region behind keeps the list and joins two extents |
| `Regions.CarveOut` | src/regions.c:420-465 | on the heap: list and both trees after the partition are those of the carved tiling |
| `Regions.CoalescePrev` | src/regions.c:541-562 | the loop merges at most once when no two free regions lie side by side |
| `Regions.CoalesceNext` | src/regions.c:570-591 | merging to the right likewise happens at most once |
| `Regions.FreeKnown` | src/regions.c:621-628 | on the heap: list and both trees after freeing are those of the released tiling |
| `Arena.MemRegionRoot.constructor` | src/regions.c:177-196 | one free region spans the arena |
| `Arena.MemRegionRoot.AllocRegion` | src/regions.c:467-490 | fails exactly when no free region is long enough; otherwise carves a used region out of the one the search picks, at the least multiple of the largest page size the request can use, or at its start if there is no room from such a multiple in any, and changes nothing else |
| `Arena.MemRegionRoot.Walk` | src/regions.c:508-515 | the walk from the closest region reaches the region of the address without turning round |
| `Arena.MemRegionRoot.AllocFixedRegion` | src/regions.c:492-533 | succeeds exactly when all its pages are free and in the arena, otherwise changes nothing |
| `Arena.MemRegionRoot.FreeKnownRegion` | src/regions.c:621-628 | the tiling becomes the released one, list and trees in step |
| `Arena.MemRegionRoot.FreeRegion` | src/regions.c:607-619 | the two errors exactly when the address is unaligned or starts no used region |
| `Arena.Run` | src/regions.c:93-628 | every run keeps tiling, list and trees in step, and the tiling takes one step of the list-free and tree-free model per request, the place of an allocation in its region included |
| `Arena.AllocThenFree` | src/regions.c:467-628 | freeing what was just allocated restores the tiling |
| `PageTable.PutLookup` | arch/riscv64/kernel/vmem.c:77-100 | replacing one entry changes exactly the lookups whose way leads through it, in every address space |
| `PageTable.GrowLookup` | arch/riscv64/kernel/vmem.c:164-172 | a new empty table changes no lookup |
| `PageTable.PutLeaf` | arch/riscv64/kernel/vmem.c:242-248 | writing or wiping a page entry changes this space inside the page only, and no other space outside it |
| `PageTable.BurySame` | arch/riscv64/kernel/vmem.c:64-67 | gravestones are as good as empty entries for every lookup |
| `PageTable.PutShared` | arch/riscv64/kernel/vmem.c:242-248 | another space sees the page that was written exactly if it has the same top level entry there, and otherwise what it saw before |
| `Vmem.PageTables.FindEntry` | arch/riscv64/kernel/vmem.c:77-100 | the entry that decides the address, or none; its index at every level is that of `Sv39.IndexIsField` |
| `Vmem.PageTables.Descend` | arch/riscv64/kernel/vmem.c:224-240 | makes exactly the missing tables, or runs out of pages exactly when there are too few; no lookup changes |
| `Vmem.BuriedKeeps` | arch/riscv64/kernel/vmem.c:201-212 | gravestones below a new entry make the non-empty prefix whole again, and each of them has an active entry above it |
| `Vmem.TrimmedPacked` | arch/riscv64/kernel/vmem.c:264-278 | removing gravestones behind a wiped entry keeps the non-empty prefix |
| `Vmem.TrimmedMarked` | arch/riscv64/kernel/vmem.c:22-56 | every gravestone still has an active entry above it, except exactly when the last user entry is wiped while the stack area behind it is in use |
| `Vmem.PageTables.MapPage` | arch/riscv64/kernel/vmem.c:214-252 | each status exactly when its cause holds; success maps exactly one unmapped page, for this space and those with the same top level entry; failure changes no lookup; exactly the missing tables are drawn from the front of the supply; the non-empty prefix of every user half is kept, except exactly when memory runs out after a top level entry above empty ones was made |
| `Vmem.PageTables.UnmapPage` | arch/riscv64/kernel/vmem.c:280-290 | fails exactly when nothing is mapped; otherwise the whole page of that order goes and nothing else, for this space and those with the same top level entry; every user half keeps its prefix, and its gravestones their meaning but for the case above |
| `Vmem.PageTables.MapThenUnmap` | arch/riscv64/kernel/vmem.c:214-290 | unmapping undoes mapping for every address |
| `Vmem.StillTaken` | arch/riscv64/kernel/vmem.c:242-290 | where a small page was mapped and unmapped, a larger one finds its entry taken, as no table is ever unlinked |
| `Spaces.CloneIsFullCopy` | arch/riscv64/kernel/vmem.c:486-504 | between tables with prefixes the early stop equals a full copy |
| `Spaces.CloneIntoEmptyIff` | arch/riscv64/kernel/vmem.c:486-504 | into an empty user half the early stop equals a full copy exactly when the source has a prefix |
| `Spaces.CloneUvmem` | arch/riscv64/kernel/vmem.c:486-504 | the target shows exactly the source's user half and keeps the rest |
| `Spaces.CloneAll` | arch/riscv64/kernel/vmem.c:486-504 | after any sequence of clones the user half is that of the last source, entry by entry and address by address |
| `Spaces.PopulateKvmem` | arch/riscv64/kernel/vmem.c:452-466 | entry by entry: the direct map GiB by GiB from address 0 on, the kernel table, and nothing in the user half |
| `Spaces.CreateVmem` | arch/riscv64/kernel/vmem.c:385-394 | the next page of the supply is a new space with exactly these entries that fits into the memory of tables, or there is no page for it |
| `Spaces.DirectMapped` | arch/riscv64/config.h:32-33 | in a new space every address from `VM_DMAP` on leads to the physical address that many bytes from 0 |
| `Spaces.UserHalf` | arch/riscv64/config.h:54-66 | the user half ends at 248 GiB, and a new space maps nothing below the direct map |
| `Teardown.DestroyBranch` | arch/riscv64/kernel/vmem.c:179-190 | frees the tables below, children first |
| `Teardown.FreesItsOwn` | arch/riscv64/kernel/vmem.c:401-428 | tearing down a space frees exactly the tables it owns, each once |
| `Teardown.DestroyRpcmem` | arch/riscv64/kernel/vmem.c:416-428 | an RPC space gives back its own tables and spares the user half it shows |
| `Teardown.DestroyVmem` | arch/riscv64/kernel/vmem.c:401-414 | a process gives back all its tables, each once, and spares the kernel's; no entry leads nowhere afterwards exactly if none of another space led into it |
| `Teardown.DestroyThreadThenProcess` | src/tcb.c:252-279 | RPC space, then process: every table of either is freed exactly once, the shared subtrees included, whoever else shows the process |
| `SpaceRun.Run` | arch/riscv64/kernel/vmem.c:164-504 | over every run of creating, mapping, unmapping, cloning and destroying: tables in order and user halves with a prefix in every state, up to exactly the first map that leaves a gap or end of a process still shown; and every action has its exact effect on tables, the translations of all spaces, the supply of pages and the known spaces |
| `SpaceRun.GapReached` | arch/riscv64/kernel/vmem.c:214-252 | with one page left for tables, a map behind the first entry leaves a gap |
| `SpaceRun.DanglingReached` | arch/riscv64/kernel/vmem.c:401-414 | a process is mapped, shown and destroyed, and the RPC space has an entry that leads nowhere |
| `Sv39.PteRoundTrip` | arch/riscv64/kernel/pte.h:10-43 | address and flags go into an entry and come out again |
| `Sv39.PteRebuilt` | arch/riscv64/kernel/pte.h:10-43 | an entry without reserved bits is rebuilt from its address and flags |
| `Sv39.PteKinds` | arch/riscv64/kernel/pte.h:60-76 | tables, pages, gravestones and empty entries are told apart by their bits |
| `Sv39.DecodeAgrees` | arch/riscv64/kernel/pte.h:10-76 | the kernel's macros and the hardware read the same page number and flags in every word that is written |
| `Sv39.DecodeToPte` | arch/riscv64/kernel/pte.h:10-43 | what `to_pte` writes is read back as the table or the page it stands for |
| `Sv39.IndexIsField` | arch/riscv64/kernel/pte.h:45-52 | `vm_to_index` takes VPN[2], VPN[1] and VPN[0] of the address, which together are its page number, and a page of order 0, 1 or 2 has the 1, 512 or 262144 base pages of the hardware's levels |
| `Sv39.WalkAgrees` | arch/riscv64/kernel/vmem.c:77-100 | for entries with R or X the hardware walk over the words in memory, with its own VPN fields, flags and page sizes, translates exactly what the kernel finds in well-formed entries, to the same place |
| `Sv39.TranslationAgrees` | arch/riscv64/kernel/vmem.c:77-100 | the same from the top level table |
| `MapRegion.MapOne` | src/regions.c:683-689 | one page allocated and mapped, exactly unless no page is to be had, the entry is taken or tables cannot be made; lost exactly when it was allocated and the mapping failed; the tables and pages it uses up, and nothing else changes |
| `MapRegion.MapPages` | src/regions.c:666-706 | the loop is exactly a sequence of attempts, each in the state the one before left, at the place reached and with the largest order that suits it and was neither passed nor refused; the pieces mapped are those of the successful ones and cut the range into aligned pages of non-increasing order, each with a physical page of its own; different pages of the range lead to different base pages of RAM, each inside the block handed out for it; pages lost are those of the failed ones; success exactly when all of it is mapped, and otherwise a single page was refused last; nothing outside the range changes |
| `MapRegion.SameSizes` | arch/riscv64/kernel/pmem.c:13-31 | a page of order 0, 1 or 2 maps exactly as many bytes as the physical page of that order has |
| `MapRegion.RangeTranslates` | src/regions.c:666-706 | every address of the mapped range translates through exactly one of its pages |
| `MapRegion.RangeOneToOne` | src/regions.c:666-706 | a range mapped to live blocks leads to each base page of RAM at most once, and into the blocks only |
| `MapRegion.UnmapPages` | src/regions.c:799-816 | the pieces of a mapped range are unmapped and freed, each exactly once, up to the end of the range if it lies between two pieces; if not, the count wraps and all pieces go, also those past the end |
| `MapRegion.MapThenUnmap` | src/regions.c:666-816 | both together restore every lookup, and the live physical pages but for those lost |
| `MapRegion.MapSpanCovers` | src/regions.c:639-658 | the aligned range holds exactly the pages with a byte of the given one |
| `MapRegion.SpansAgreeIff` | src/regions.c:799-802 | unmapping works on the pages that mapping did exactly under a condition on start and length |
| `MapRegion.UnalignedLeavesPage` | src/regions.c:799-802 | 4096 bytes from the middle of a page: two pages are mapped, one is unmapped |
| `MapRegion.UnalignedEnd` | src/regions.c:799-816 | when the spans differ, the last page is left behind exactly if it is mapped by a page of its own size, and otherwise the loop overruns the range |
| `MapRegion.UnalignedOverruns` | src/regions.c:799-816 | 0x1ff000 bytes from 0x200800: one large page is mapped, and unmapping overruns it |
| `MapRegion.LosesPage` | src/regions.c:683-689 | a page is mapped and unmapped, and a larger one tried in its place is lost |
| `MapWalk.PageWalk` | src/regions.c:666-706 | the hardware takes a page of a mapped range to where the kernel's entries lead, exactly if RAM begins at a multiple of the size of its piece and the flags are not write-only, and faults otherwise |
| `MapWalk.RangeWalk` | src/regions.c:666-706 | the hardware translates all of a mapped range exactly if it is empty, or RAM begins at a multiple of the size of its first piece and the flags are not write-only |
| `Rpc.Decreasing` | arch/riscv64/kernel/vmem.c:622-646 | live contexts lie in distinct pages at strictly decreasing addresses |
| `Rpc.UserCannotForge` | arch/riscv64/kernel/vmem.c:601-697 | whatever user code writes to its pages, every live context stays as it was saved |
| `Rpc.PushSoundIff` | arch/riscv64/kernel/vmem.c:622-646 | a call keeps the stack sound exactly with two pages above the lowest one; otherwise the loop of the next tail call leaves the table |
| `Rpc.EnoughIff` | src/uapi/ipc.c:101-109 | the check asks for the configured bytes below the page of the context; every call that passes it keeps the stack sound exactly for configured sizes of more than one page; a grown stack is the counterexample below that |
| `Rpc.Grow` | arch/riscv64/kernel/vmem.c:682-697 | exactly the pages from the fault up to the old stack become accessible, all others, contexts and position stay as they were, and no context is in reach; the stack stays sound exactly if the lowest page is not reached |
| `Rpc.Push` | arch/riscv64/kernel/vmem.c:622-646 | a call adds one context and overwrites none; the caller's whole run of user pages is closed, the page below the context opened and every other left as it was; all contexts are out of reach afterwards, on every sound stack; the new stack is sound exactly with two pages above the lowest one |
| `Rpc.Reuse` | arch/riscv64/kernel/vmem.c:601-620 | a tail call keeps all contexts, closes the run of user pages but for its lowest page and starts there |
| `Rpc.Pop` | arch/riscv64/kernel/vmem.c:648-680 | a return over any number of frames restores the saved position, closes exactly the callee's run of user pages, opens exactly the pages above it up to the saved position and leaves the remaining contexts out of reach |
| `Ipc.ChainKept` | src/uapi/ipc.c:86-91 | every process on a call chain, the root included, is still in the table |
| `Ipc.EffectiveThere` | src/uapi/proc.c:41-43 | the effective process of every step of a chain is still in the table, though no reference is kept for it: it is on the chain, or a reference to it was left behind |
| `Ipc.PushConsistent` | src/uapi/ipc.c:86-91 | a call keeps every count exactly the number of reasons to keep the process plus the references left behind |
| `Ipc.TailConsistent` | src/uapi/ipc.c:72-91 | a tail call does too, and leaves one reference to the process it comes from behind |
| `Ipc.LeaveConsistent` | src/uapi/ipc.c:198-239 | a response does too, and leaves one reference behind for every caller it skips |
| `Ipc.ResponderKept` | src/uapi/ipc.c:393-395 | the reference a response gives up takes no live thread out of the table and changes nobody's being alive |
| `Ipc.CreateConsistent` | src/tcb.c:135-194 | creating a process or a thread keeps the counts exact |
| `Ipc.DestroyConsistent` | src/tcb.c:252-279 | destroying a thread keeps the counts exact, and leaves behind the references of every call it was in |
| `Kernel.System.DoIpc` | src/uapi/ipc.c:273-297 | out of memory exactly for a call other than a tail call with `(idx - 1) * 4096` below the configured size, invalid exactly if not that and the target is no process or an orphan, and success otherwise, which saves exactly exec, pid, eid and position, leaves exactly the pushed or reused stack, shows the target's user half, references the target once and touches nobody else; failure changes nothing |
| `Kernel.System.Request` | src/uapi/ipc.c:309-313 | as `do_ipc` with a new frame and the caller as effective process |
| `Kernel.System.Forward` | src/uapi/ipc.c:326-334 | as `do_ipc` with a new frame, keeping the effective process exactly inside an RPC |
| `Kernel.System.TailCall` | src/uapi/ipc.c:347-352 | as `do_ipc` without a new frame exactly inside an RPC |
| `Kernel.System.Kick` | src/uapi/ipc.c:365-370 | as `do_ipc` with neither new frame nor new effective process exactly inside an RPC |
| `Kernel.System.Unwind` | src/uapi/ipc.c:200-226 | the nearest frame whose caller is alive, or the outermost one and the thread is an orphan |
| `Kernel.System.Respond` | src/uapi/ipc.c:382-396 | the thread resumes the nearest frame whose caller is alive, or as an orphan the outermost, with exactly its saved exec, pid, eid and position and the stack of that return; frames above are dropped, one reference to the process it leaves goes, nobody else changes, and a process that goes with it is one nobody returns to |
| `Kernel.System.PageFault` | src/vmem.c:440-453 | the user half of the current process is shown again, and nothing else changes |
| `Kernel.System.GrowStack` | arch/riscv64/kernel/vmem.c:682-697 | as `Rpc.Grow`, for the stack of one thread, and nothing else changes |
| `Kernel.System.CreateProcess` | src/tcb.c:93-130 | a new process in its own name with the given callback, an empty stack and one reference to itself; nobody else changes |
| `Kernel.System.CreateThread` | src/uapi/proc.c:34-56 | the effective process is in the table, as asserted; a new thread of it with its callback and an empty stack, and a reference to it, exactly if it is not a zombie; nobody else changes |
| `Kernel.System.DestroyThread` | src/tcb.c:252-313 | the thread is a zombie or gone, one reference to it and one to its process go, those of its calls are left behind and nobody else changes; what disappears from the table is on nobody's call chain |
| `Kernel.System.RequestKicked` | src/uapi/ipc.c:365-370 | a request kicked through any servers leaves ids and frames of one direct request to the last; every server on the way keeps a reference |
| `Kernel.System.RequestThenRespond` | src/uapi/ipc.c:50-249 | a request and its response restore ids, frames, position and all counts of all threads; the user half shown is the server's |
| `Kernel.StaleIff` | src/uapi/ipc.c:198-249 | exactly when a thread sees another process than the one it is in: after a response whose frame, known before the call, is of another process than the one shown, until the next call or page fault |
| `Kernel.TableAfter` | src/tcb.c:238-313 | exactly who enters and who leaves the table with each action |
| `Kernel.ShownGoneIff` | src/uapi/ipc.c:198-249 | exactly when a thread sees the tables of a process that has left the table: the action takes the last reference to it, or it was gone before, and nothing shows the thread something else |
| `Kernel.ShowsTheDead` | src/uapi/ipc.c:198-249 | a call to a process and back, and the end of the process: the caller sees the tables of a process that is gone |
| `Kernel.CreatesForTheDead` | src/uapi/proc.c:41-45 | a second thread whose process has ended creates a thread for a zombie |
| `Kernel.LeavesReference` | src/uapi/ipc.c:72-91 | a request passed on by a tail call leaves a reference to the first server behind |
| `Kernel.System.Run` | src/uapi/ipc.c:50-396 | whatever happens in whatever order, in every state on the way: contexts intact and out of reach, every process on a chain and every effective process in the table, every count exactly the reasons plus the references left behind, and whoever sees a process outside the table is not in it; and every action has its stated effect, stacks included |
| `Bits.LowestBit` | src/bits.c:74-95 | isolating the lowest bit and counting down in halves finds the lowest bit set |
| `Bits.Ffs` | src/bits.c:74-95 | one more than the index of the lowest bit set, or 0 |
| `Bits.WordBits` | include/kmi/bits.h:174-201 | the bits of a little-endian word are the bits of its bytes in order |
| `Bitmap.IsSet` | include/kmi/bits.h:113-119 | the bit of that number |
| `Bitmap.Set` | include/kmi/bits.h:127-133 | exactly one bit becomes set |
| `Bitmap.Clear` | include/kmi/bits.h:141-147 | exactly one bit becomes clear |
| `Bitmap.ClearAll` | include/kmi/bits.h:155-164 | exactly the first bits become clear |
| `Bitmap.FindFirst` | include/kmi/bits.h:174-201 | the same index as a scan bit by bit, for every bitmap, length and sought value |
| `Strstr.SameBytes` | src/string.c:407-416 | whether the needle occurs at this place |
| `Strstr.ShiftIsSafe` | src/string.c:160-171 | moving by less than the shift cannot skip an occurrence |
| `Strstr.ShortNeedlesAdvance` | src/string.c:153-158 | for needles of 1 to 255 bytes every stored shift is positive |
| `Strstr.BuildTable` | src/string.c:153-158 | the table holds every shift modulo 256 |
| `Strstr.Search` | src/string.c:142-171 | the first occurrence or none, in finitely many steps |
| `Strstr.StuckIff` | src/string.c:153-170 | some text stops the search for good exactly when a stored shift is zero |
| `Strstr.LongNeedleSticks` | src/string.c:153-170 | a needle of 256 bytes that lacks some byte has such a shift |

## Left out

- PhysMem.Pmap.FreePage: freelists are those of the idempotent attach that the comment at src/pmem.c:153 describes; PhysLinks.FreeAgreesIff says exactly for which frees the literal pointer code keeps the same lists, and nothing is said about the allocator after one for which it does not.
- PhysMem.Pmap.constructor: RAM is a whole number of pages of the highest order in use and order widths are uniform, as arch/riscv64/kernel/pmem.c sets them; boot placement, reserved areas and the packed byte layout are not modelled.
- Arena.MemRegionRoot.constructor: no reserved prefix and at least one page; allocation of region nodes always succeeds, and flags, owners and reference counts of shared regions are not modelled.
- Arena.MemRegionRoot.AllocFixedRegion: the start must lie in the arena, which the source asserts.
- SpTree.Update: height balance is not claimed, as the hints are approximate.
- Vmem.PageTables.MapPage: no larger page may be on the way and the valid flag must be given, which is the caller's duty; table pages come from a supply of their own rather than from the physical allocator of PhysMem.
- Sv39.TranslationAgrees: permission checks and the accessed and dirty bits, which come after the entry is found, are not part of the walk.
- Teardown.DestroyVmem: what free_page does with the freed tables is reduced to returning their pages to the supply.
- MapRegion.MapPages: RAM starts at a page boundary, and the range was unmapped before.
- Kernel.System.GrowStack: growth never reaches the lowest stack page; Rpc.Grow says what breaks if it does.
- Rpc.Push: user stack pages of callers other than the current one are not claimed to be spared or kept from user code; only call contexts are.
- Kernel.System.Respond: notifications, adopting orphans by the init process and register contents are not modelled.
- Kernel.System.CreateThread: thread ids are given; the choice of a free id, shared-memory references, capabilities and memory exhaustion are not modelled, nor what becomes of the kernel when the effective process is a zombie.
- PhysMem.Run: marks are of pages of the managed RAM, and a run ends with a mark inside a larger held page.
- SpaceRun.Run: a page fault is a clone; a run ends with a map that leaves a gap or with the end of a process still shown.
- Kernel.System.PageFault: which addresses the regions of the process allow is not modelled.
- Kernel.System.CreateProcess: memory exhaustion is not modelled.
- Bitmap.FindFirst: the word the source reads but does not use when the bitmap ends at a word boundary is not read.
- Strstr.Search: the empty needle, for which the source's loop bound wraps around.
- Node pools, linked-list and queue headers, inter-processor interrupts and timers.
- Flag changes of single mappings, fixed mappings, copying and cloning of regions: loops of the same shape as the ones modelled.
- Capabilities, configuration and interrupt registration, ELF and cpio loading, device trees, SBI calls, TLB and CSR operations, assembly, bring-up and tests.
