# SCAL/UX kernel model

SCAL/UX is a small C kernel. This project models the parts of it that keep heavy state and proves what
they keep. Each file holds one module.

| modules | subject |
|---|---|
| `VmemSegments`, `VmemEdits`, `VmemLedger`, `VmemIndex`, `Vmem` | arenas: the segment queue, its freelists, hash table and span list, allocation, coalescing free |
| `VmReserve`, `VmKernel`, `VmMap`, `VmTags` | the stacked kernel arenas, the segment tag reserve that is refilled by the allocator itself, address spaces and fork, and the reserve over whole runs |
| `CowState`, `CowSteps`, `Cow` | anonymous memory with copy-on-write, against memory whose copies are all eager |
| `Pmap` | four-level page tables against a flat map |
| `Links`, `Liballoc` | the first-fit heap over its doubly linked headers |
| `Steps`, `Semaphore`, `Mutex`, `Scheduler`, `Tlb` | synchronisation, run queues, context switches and invalidation rounds, as interleaved steps |
| `Slab` | the slab allocator |
| `Nvme` | the submission and completion rings, with a device that follows sections 4.1 and 4.6 of the NVM Express Base Specification 1.4c |
| `Gterm` | the terminal's overlay over its character grid, against a plain screen |
| `Common` | what several of them use |

Code that changes state in place is modelled by classes whose methods are proved against functions of the
former state, or by classes beside a ghost specification (`Cow.AnonMemory.priv` is the memory with eager
copies). Concurrent code is modelled by state machines whose steps are as fine as the lock and atomic
operations of the source; lemmas speak of every state reachable by any number of agents in any order.

## What holds only under a condition

Some properties the code suggests do not hold of it. Each is kept as the code has it, with the condition.

- A free that merges with no neighbour drops the range instead of listing it (`kernel-3/kern/vmem.c:564-567`). Tiling
  therefore holds only up to the bytes lost this way, which `VmemLedger.RunBalanced` counts exactly.
- The merge adds sizes and does not compare addresses, so after a range was dropped a later free next to it merges
  across the gap: the merged segment covers what was freed if and only if there is no gap
  (`VmemEdits.MergeCovers`, `VmemEdits.MergeAcrossGap`).
- A failed allocation loses its two tags (`kernel-3/kern/vmem.c:433`); see `Vmem.Arena.XAlloc`.
- `vmem_xfree` returns the size as an `int`, so the assertion in `unmap_entry` fails for sizes whose low 32 bits
  are 2 GiB or more; `VmMap.AddressSpace.UnmapEntry` says exactly when.
- Creating a map takes two tags and refills nothing unless its zone needs a new slab. From boot the reserve lasts
  while no map is released; 61 or more free map objects in reach let it run dry: `VmTags.NeverDryIff`,
  `VmTags.ReusedMapsDrainReserve`.
- Copying an object that was never touched asks the slab allocator for zero bytes and halts
  (`kernel-3/kern/kmem_slab.c:463`), and so does a fork of a map with such an object: `Cow.AnonMemory.Fork`,
  `Cow.AnonMemory.ForkUntouched`.
- The mutex excludes but can become unobtainable for good: `Mutex.OnlyEmptyWakeKills`, `Mutex.WakeupLost`.
- A wakeup that arrives before the context switch leaves the thread's own lock held, and that thread can never
  wait again: `Scheduler.EarlyWakeKeepsLock`, `Scheduler.NeverWaitsAgain`, `Scheduler.LockLeftHeld`.
- Two crossing calls of `pmap_global_invlpg` block each other, since the lock is spun for with interrupts off:
  `Tlb.ReturnsIffUnblocked`, `Tlb.CallsCross`.
- When the request inside `realloc` of the first-fit heap fails, the copy goes to the null pointer: `Liballoc.Heap.Realloc`.
- With all 64 submission entries unfetched the tail meets the head and the device sees an empty ring:
  `Nvme.FetchedRing`, `Nvme.Queue.FillRing`. With fewer commands outstanding it cannot happen.
- Reverse scrolling needs a region of more than one line (`kernel-3/dev/fbterm/term.c:761` enforces it except on a terminal
  of one line): `Gterm.Terminal.RevScroll`.
- The cursor can leave the grid with scrolling off, and with scrolling on when the region ends above the last line;
  the next look at its cell is out of bounds: `Gterm.Terminal.PutCharAtCursor`, `Gterm.Terminal.EscapesBelowRegion`.
- The comment that full slabs are always at the tail (`kernel-3/kern/kmem_slab.c:313`) is not kept by the free; nothing
  here relies on it.

## Model

| member | source | states |
|---|---|---|
| VmemSegments.SegmentsInOrder | kernel-3/kern/vmem.c:245-291 | In a queue the arena can produce, of two segments of the same kind (marker or not) the earlier one ends before the later one starts |
| VmemSegments.InsideSpan | kernel-3/kern/vmem.c:245-291 | Every segment that is not a span marker lies inside the span whose marker precedes it |
| VmemSegments.FreelistBounds | kernel-3/kern/vmem.c:143-152 | The freelist number of a size is the exponent of the largest power of two not above it |
| VmemEdits.AddKeepsOrder | kernel-3/kern/vmem.c:245-291 | Adding a span that overlaps no other keeps the queue sorted, disjoint and inside its spans |
| VmemEdits.SplitKeepsOrder | kernel-3/kern/vmem.c:331-363 | Cutting an allocation out of a free segment, with a rest on either, both or neither side, keeps that order |
| VmemEdits.FreeKeepsOrder | kernel-3/kern/vmem.c:487-570 | A free keeps that order whether the range is merged, given back with its imported span, or dropped |
| VmemEdits.ReleasedSpanIsBare | kernel-3/kern/vmem.c:540-562 | A span is given back only when the freed range, merged with its neighbours, is exactly that span and nothing follows inside it |
| VmemEdits.FreeOutcome | kernel-3/kern/vmem.c:504-567 | By the old queue's own indexes: the freed segment and its free neighbours, left, right or both, become one free segment of their sizes' sum at the base of the first; if that is all an imported span holds, the span goes with them; with no free neighbour the range is dropped |
| VmemEdits.MergeCovers | kernel-3/kern/vmem.c:513-538 | The merged segment covers the freed range and each free neighbour if and only if no gap lies between them |
| VmemEdits.MergeAcrossGap | kernel-3/kern/vmem.c:513-567 | Three allocations freed middle, last, first: the last free merges across the gap the first one left, and the merged segment ends short of the bytes that were free |
| VmemLedger.AddAllocatesNothing | kernel-3/kern/vmem.c:245-291 | Adding a span changes no live allocation |
| VmemLedger.SplitAllocatesOne | kernel-3/kern/vmem.c:331-363 | A split adds exactly the requested range to the live allocations |
| VmemLedger.FreeReleasesOne | kernel-3/kern/vmem.c:487-570 | A free removes exactly the freed range from the live allocations, in all three outcomes |
| VmemLedger.RunBalanced | kernel-3/kern/vmem.c:245-570 | Over every run of adds, allocations and frees from an empty arena each live span satisfies free + allocated + lost = size |
| VmemLedger.LostIff | kernel-3/kern/vmem.c:504-567 | A free adds its size to the bytes its span has lost if and only if neither neighbour is free and the span is not given back; if it is given back its count ends, and a merge leaves the count alone |
| VmemLedger.AllocationsNeverOverlap | kernel-3/kern/vmem.c:245-570 | After every such run two live allocations do not overlap and each lies inside a live span |
| VmemIndex.IndexesAgree | kernel-3/kern/vmem.c:160-168 | A segment is on a freelist, in a hash bucket or in the span list at most once, and exactly where its type, size and base put it |
| Vmem.Arena.AddInternal | kernel-3/kern/vmem.c:245-291 | The queue becomes the specified one, the indexes keep agreeing, two tags are used, and the new free segment is returned |
| Vmem.Arena.SplitSeg | kernel-3/kern/vmem.c:331-363 | The chosen free segment is replaced by rest, allocation and rest, with all indexes following |
| Vmem.Arena.Search | kernel-3/kern/vmem.c:404-433 | The search from the smallest size class up finds the first suitable segment of the first class that has one, and fails if and only if the queue holds none |
| Vmem.Arena.XAlloc | kernel-3/kern/vmem.c:404-469 | An allocation without import fails exactly when no free segment fits (for an exact one: contains the range), and then two tags are gone and nothing else changed; otherwise it is at the start of that first suitable segment, an exact one where it was asked for |
| Vmem.Arena.FreesegExpand | kernel-3/kern/vmem.c:471-485 | A free segment that grows is relisted exactly when its size class changes |
| Vmem.Arena.XFree | kernel-3/kern/vmem.c:487-570 | A free finds the allocation with that base or is fatal without change; otherwise the new queue and the released span are, neighbour by neighbour of the old queue, what merging, giving back or dropping makes of it, the size is returned and no tag is lost |
| Vmem.Arena.Destroy | kernel-3/kern/vmem.c:579-589 | It stops exactly when an allocation is left; otherwise every segment gives its tag back |
| VmTags.TakesAsTheZoneDoes | kernel-3/kern/kmem_slab.c:302-362 | Taking a map follows the slab allocator: from the first slab, which goes to the tail when it is empty |
| VmTags.ReserveLasts | kernel-3/kern/vmem.c:171-219 | Whatever is allocated, mapped, unmapped and created, in whatever order, every operation finds its tags as long as each return of an object to that zone leaves few enough free ones for the tags there are |
| VmTags.ReadyIff | kernel-3/vm/vm.c:287-298 | A map can be created if and only if the tags suffice for the pages it needs on the way, or for its arena's two |
| VmTags.ReserveNeverRunsDry | kernel-3/kern/vmem.c:171-219 | From boot no run that returns no map runs dry, however many maps it creates: a new slab of maps refills the reserve |
| VmTags.NeverDryIff | kernel-3/kern/vmem.c:171-219 | Until an object returns to the maps' zone the reserve lasts if and only if the free objects in reach number at most 60 and the tags are at least twice that plus 5 |
| VmTags.ReusedMapsDrainReserve | kernel-3/vm/vm.c:287-325 | A run from boot that creates 72 maps, releases them, lets other users take the tags and creates maps again ends with an empty reserve, whatever pages the first 72 maps needed |
| VmKernel.KernelVm.constructor | kernel-3/vm/vm_kernel.c:75-87 | Boot leaves the stacked arenas valid and the reserve filled |
| VmKernel.KernelVm.SegRefill | kernel-3/kern/vmem.c:203-219 | Below 128 a refill adds 63 tags for the two or three its page costs, or fails when the kernel map has no room; from 128 up it does nothing |
| VmKernel.KernelVm.InternalAllocWired | kernel-3/vm/vm_kernel.c:24-45 | An import allocates in the kernel map and maps a fresh frame for each of its pages |
| VmKernel.KernelVm.TryImport | kernel-3/kern/vmem.c:383-402 | The wired arena gains exactly one span with one allocation of the same base and size |
| VmKernel.KernelVm.VmKalloc | kernel-3/vm/vm_kernel.c:89-104 | It fails only when the kernel map has no fitting hole; otherwise one new range is live in both arenas, every page of it is mapped, and nothing live before changes |
| VmKernel.KernelVm.VmKfree | kernel-3/vm/vm_kernel.c:106-111 | The range leaves both arenas and exactly its pages are unmapped; an address no allocation starts at is fatal without change |
| VmKernel.PairedHasNoFree | kernel-3/vm/vm_kernel.c:24-66 | Between operations the wired arena holds no free segment |
| VmMap.HoleExists | kernel-3/kern/vmem.c:404-469 | In a tiled span a range disjoint from the live allocations lies inside one free segment |
| VmMap.ForkRoom | kernel-3/vm/vm.c:309-342 | At every step of a fork the next entry of the parent still fits, whatever the order of the entries |
| VmMap.AddressSpace.MapObject | kernel-3/vm/vm.c:344-381 | Unless the tag refill fails, a mapping succeeds exactly when the address space has room for it, and adds one entry over one fresh range |
| VmMap.AddressSpace.UnmapEntry | kernel-3/vm/vm.c:245-259 | The entry and its range go; the assertion on the result of the free holds if and only if end - start, cut to 32 bits, is below 2^31 |
| VmMap.AddressSpace.UnmapTwoGiB | kernel-3/vm/vm.c:245-259 | In a new map a mapping of 2 GiB succeeds and its unmapping fails the assertion |
| VmMap.AddressSpace.Release | kernel-3/vm/vm.c:300-307 | Releasing a map completes if and only if the size of every entry, cut to 32 bits, is below 2^31, and gives tags back |
| VmMap.AddressSpace.Fork | kernel-3/vm/vm.c:309-342 | A fork never fails its own assertion, and the child has the parent's entries in order with the same start, end and offset; only a failing refill or an object copy that halts stops it |
| Cow.AnonMemory.FaultAobj | kernel-3/vm/vm.c:50-144 | A fault on an object page changes no object as seen by eager copying and leads the address to the frame of its slot, writable if and only if no other slot shares it; a new page is made exactly for an empty slot and for a write to a shared one, and no other slot changes |
| Cow.AnonMemory.WriteShared | kernel-3/vm/vm.c:72-93 | A write to a shared page gives the slot a new, unshared copy, mapped writable, and leaves every object reading what it read |
| Cow.AnonMemory.AmapAnonAt | kernel-3/vm/vm.c:493-511 | Room for a slot is made, as few chunks as that takes, and no slot changes |
| Cow.AnonMemory.AmapCopy | kernel-3/vm/vm.c:406-436 | Copying an amap shares every page and withdraws write permission from each; an amap without chunks halts the kernel |
| Cow.AnonMemory.ObjectCopy | kernel-3/vm/vm.c:531-555 | The copy reads as if all pages had been copied and nothing else changes; it halts if and only if the object was never touched |
| Cow.AnonMemory.ObjectRelease | kernel-3/vm/vm.c:563-575 | A release drops one reference; the last one drops the pages no other object shares |
| Cow.AnonMemory.Store | kernel-3/vm/vm.c:50-144 | After whatever faults it needs a store changes the byte at its own offset of its own page of one object: no other byte, page or object as seen by eager copying; of all mapped addresses exactly the stored one reads differently. A page is made exactly for an empty slot and for a shared one |
| Cow.AnonMemory.Load | kernel-3/vm/vm.c:50-144 | A load returns the byte at its offset of the page that object would hold had every copy been eager, and makes a page for an empty slot only |
| Cow.AnonMemory.StoreThenLoad | kernel-3/vm/vm.c:50-144 | A load after a store returns the stored byte at the stored address and what it returned before at any other |
| Cow.AnonMemory.MapThenLoad | kernel-3/vm/vm.c:50-144 | Every byte of freshly mapped memory loads as zero |
| Cow.AnonMemory.Fork | kernel-3/vm/vm.c:309-342 | A fork halts if and only if an object mapped in the parent was never touched; otherwise the child reads at every address what the parent read there, and every other map what it read itself |
| Cow.AnonMemory.ForkUntouched | kernel-3/vm/vm.c:309-342 | Mapping a new object and forking before anything touches it halts |
| Cow.AnonMemory.UnmapEntry | kernel-3/vm/vm.c:245-259 | Unmapping removes the entry and its mappings and drops its reference |
| Cow.AnonMemory.PmapReenterAllReadonly | kernel-3/x86_64/vm.c:284-298 | Every mapping of a frame on its reverse list loses write permission, and no other mapping changes |
| CowSteps.CopyCounted | kernel-3/vm/vm.c:72-93 | Giving one slot a copy keeps every reference count equal to the number of slots that hold the page |
| CowSteps.ShareCounted | kernel-3/vm/vm.c:406-436 | So does sharing a page with one more slot |
| CowSteps.DropCounted | kernel-3/vm/vm.c:438-491 | So does dropping a slot, also when the page is freed |
| CowSteps.SoleHolder | kernel-3/vm/vm.c:89-110 | A page with one reference backs one page of one object |
| CowSteps.WriteAgrees | kernel-3/vm/vm.c:50-144 | A hardware write through a writable mapping changes one object and one page only |
| Cow.ForkRange | kernel-3/vm/vm.c:309-342 | A forked entry covers the same pages in the child as in the parent |
| Pmap.SamePage | kernel-3/x86_64/vm.c:167-196 | Two canonical addresses walk through the same four indexes exactly when they are on the same page |
| Pmap.LeafOwner | kernel-3/x86_64/vm.c:167-196 | A walk that succeeds ends in the one table that stands for its path |
| Pmap.SetOneEntry | kernel-3/x86_64/vm.c:117-124 | Writing one leaf entry changes the flat map at one page address: in one map, or in all for a kernel address |
| Pmap.HangKeepsFlat | kernel-3/x86_64/vm.c:145-165 | Hanging a new empty table into the tree changes no translation in any map |
| Pmap.PhysicalMap.constructor | kernel-3/x86_64/vm.c:50-64 | Boot leaves every kernel slot of the top table filled |
| Pmap.PhysicalMap.Descend | kernel-3/x86_64/vm.c:145-165 | The step down returns the table below, made on demand, and keeps every translation |
| Pmap.PhysicalMap.EnterKern | kernel-3/x86_64/vm.c:251-276 | After an enter the walk of that page is present as `read` says, writable as `write` says, open to the user, and leads to the given frame, in this map or for a kernel address in every map; no other translation changes, and without `write` no map that shares the slot lets the user write there |
| Pmap.PhysicalMap.UserAccess | kernel-3/x86_64/vm.c:117-165 | In a map made since boot a user page can be read or written exactly as its leaf entry says: no table above withholds a right |
| Pmap.PhysicalMap.UnenterKern | kernel-3/x86_64/vm.c:347-366 | Removing a page clears exactly that translation and returns its frame |
| Pmap.PhysicalMap.New | kernel-3/x86_64/vm.c:368-379 | A new map is empty below and equal to the kernel's own above, and no other map changes |
| Pmap.PhysicalMap.KernelAgrees | kernel-3/x86_64/vm.c:368-379 | Every map agrees with the kernel map on every kernel address, at any time |
| Links.JoinChained | kernel-3/kern/liballoc.c:514-524 | Putting an item between two neighbours of a doubly linked list keeps every prev and next pointer right and touches no other item |
| Links.PartChained | kernel-3/kern/liballoc.c:686-687 | Taking an item out keeps every prev and next pointer right |
| Liballoc.AlignRoundTrip | kernel-3/kern/liballoc.c:22-46 | The aligned pointer leaves room for its information byte and that byte leads back; a byte no alignment could have stored leaves the pointer as it is |
| Liballoc.GapBound | kernel-3/kern/liballoc.c:337-379 | No gap of a major is larger than its unused bytes together, so skipping a major with too few misses nothing |
| Liballoc.LowestRoom | kernel-3/kern/liballoc.c:417-546 | The gap a request is put in begins at the lowest address of the major with room for it clear of all minors; a major is passed over if and only if no address in it has room |
| Liballoc.NewMajorFits | kernel-3/kern/liballoc.c:192-242 | A new major always accepts the request it was made for |
| Liballoc.NewPagesLeast | kernel-3/kern/liballoc.c:192-216 | A new major has the fewest pages that hold its header and the request's, but at least 16 |
| Liballoc.MinorsApart | kernel-3/kern/liballoc.c:454-546 | Two live minors never overlap, in one major or two |
| Liballoc.HeadersDetermine | kernel-3/kern/liballoc.c:66-95 | The root and the headers spell out exactly one list of majors with their minors |
| Liballoc.InsertLinked | kernel-3/kern/liballoc.c:385-540 | The headers after a minor is written between two neighbours are those of the heap with that minor inserted: list of its major, owner, usage and first minor, and no other list |
| Liballoc.RemoveLinked | kernel-3/kern/liballoc.c:679-692 | The headers after a minor is unlinked are those of the heap without it |
| Liballoc.AppendLinked | kernel-3/kern/liballoc.c:366-376 | The headers after a major is linked behind the last one are those of the heap with it |
| Liballoc.DropLinked | kernel-3/kern/liballoc.c:696-705 | The headers after an empty major is unlinked are those of the heap without it |
| Liballoc.Heap.LinkMinor | kernel-3/kern/liballoc.c:385-540 | The pointer writes of cases 2, 3, 4.1 and 4.2, in the order of the source, all amount to putting the minor between its neighbours |
| Liballoc.Heap.UnlinkMinor | kernel-3/kern/liballoc.c:679-692 | The pointer writes of the free amount to taking the minor out |
| Liballoc.Heap.FindGap | kernel-3/kern/liballoc.c:417-546 | Along the pointers the first gap of a major that fits is found, or there is none |
| Liballoc.Heap.Start | kernel-3/kern/liballoc.c:316-332 | The search begins at the best bet if and only if that has more unused bytes than the request with its header, and else at the root |
| Liballoc.Heap.Search | kernel-3/kern/liballoc.c:320-575 | The search ends, restarts at most once, and takes the first major with a fitting gap from the best bet on, if it began there, else the first from the root; a major is added only when no gap of any fits |
| Liballoc.Heap.Malloc | kernel-3/kern/liballoc.c:248-591 | It returns nothing exactly when no gap fits and the page hook fails. Otherwise one minor is added at the first fitting gap of the first major with one, from the best bet on if that had more unused bytes than needed, else from the root; the best bet becomes the first of the majors looked at with the most unused bytes, if more than its own; the pointer is 16-aligned and its bytes lie in the minor; both lists stay linked both ways |
| Liballoc.Heap.Free | kernel-3/kern/liballoc.c:602-726 | The pointer of a live minor unlinks that minor, and its major when it was the last; a best bet that goes is forgotten, and one with fewer unused bytes than the major freed into gives way to it; a pointer that leads to no live header changes nothing but the error count, a null one nothing but the warning count |
| Liballoc.FreeUndoesMalloc | kernel-3/kern/liballoc.c:602-726 | Freeing what was just allocated gives the former list of majors back |
| Liballoc.Heap.Realloc | kernel-3/kern/liballoc.c:748-837 | A live minor asked for no more bytes than it has stays; one asked for more is a new request and then a free of the old minor, found again wherever the request moved it; the copy goes to the null pointer exactly when that request fails |
| Liballoc.Heap.MallocThenFree | kernel-3/kern/liballoc.c:248-726 | A request followed by a free of its pointer leaves majors and both totals as they were |
| Semaphore.StepHolds | kernel-3/kern/task.c:203-285 | Every step keeps: queued + about-to-queue waiters - signallers yet to take one = max(0, -count) |
| Semaphore.SignalFindsWaiter | kernel-3/kern/task.c:234-285 | In every reachable state a signaller about to take a waiter finds one, asleep: the race the source asks about does not exist |
| Semaphore.WaitsAreBacked | kernel-3/kern/task.c:259-285 | Finished waits never exceed initial permits plus signals |
| Semaphore.QuietServesAll | kernel-3/kern/task.c:259-285 | When no step is under way exactly min(begun, permits + signals) waits have finished and the others are in the queue |
| Semaphore.AllServed | kernel-3/kern/task.c:203-338 | Without new calls every run, whatever its order, has a bounded length; when it can go no further exactly min(begun, permits + signals) waits have finished and the others sleep in the queue |
| Semaphore.WaitAlone | kernel-3/kern/task.c:259-276 | A wait that nobody interrupts takes a permit if there is one, and else joins the queue at its end and sleeps |
| Semaphore.SignalAlone | kernel-3/kern/task.c:278-285 | A signal that nobody interrupts adds a permit, or ends the wait of the first of the queue |
| Semaphore.FirstComeFirstServed | kernel-3/kern/task.c:203-250 | The waiter at position i of the queue moves up by one with each signaller that takes one and is taken by the one after i of them, whoever joins meanwhile |
| Mutex.Exclusion | kernel-3/kern/task.c:172-201 | In every reachable state at most one thread is granted, holding or releasing, and the owner field names the holder |
| Mutex.NeverHalts | kernel-3/kern/task.c:189-197 | Neither owner compare-exchange assertion ever fails |
| Mutex.SomeoneHoldsIt | kernel-3/kern/task.c:172-201 | Without new calls every run has a bounded length; when it can go no further one thread holds the mutex, or no thread is inside, or a wakeup was lost |
| Mutex.LockAlone | kernel-3/kern/task.c:172-190 | A lock call that nobody interrupts takes a free mutex, and joins the queue of one that is taken |
| Mutex.UnlockAlone | kernel-3/kern/task.c:192-201 | An unlock that nobody interrupts frees a mutex nobody else wants, and hands one over to the first of the queue |
| Mutex.FirstComeFirstServed | kernel-3/kern/task.c:203-250 | So is a thread that waits for the mutex |
| Mutex.OnlyEmptyWakeKills | kernel-3/kern/task.c:192-250 | The mutex becomes unobtainable in exactly one way: an unlock finds the wait queue empty |
| Mutex.DeadForever | kernel-3/kern/task.c:172-201 | Then no thread is ever granted it again, however the run goes on |
| Mutex.WakeupLost | kernel-3/kern/task.c:177-213 | Two threads reach that state: one unlocks between the other's increment and its joining the queue |
| Scheduler.StepHolds | kernel-3/kern/task.c:203-420 | Every step of every processor keeps the queue, state, current-thread and register invariants |
| Scheduler.InOneQueue | kernel-3/kern/task.c:203-420 | A thread is at one position of one run or wait queue at most, and queued to run only on its own processor |
| Scheduler.CurrentOnce | kernel-3/kern/task.c:366-420 | A thread is current on one processor at most; a queued one is current only until its processor reschedules |
| Scheduler.RunsAsItself | kernel-3/x86_64/intr.c:128-168 | Wherever interrupts are on the current thread is in the running state and the registers are its own |
| Scheduler.NobodyIsLost | kernel-3/kern/task.c:203-358 | A waiting thread is in a wait queue or in a waker's hands; a thread that may run is current or in its run queue |
| Scheduler.SliceEnds | kernel-3/kern/task.c:366-420 | When a running thread other than the idle one reschedules it goes behind everyone in the run queue and the first of the queue runs; with an empty queue it runs on |
| Scheduler.OthersLeave | kernel-3/kern/task.c:381-395 | A thread that waits or exits leaves without joining the run queue; the first of the queue runs, or the idle thread |
| Scheduler.RoundRobin | kernel-3/kern/task.c:340-420 | The thread at position i of a run queue moves up by one with each reschedule of its processor, whatever else happens, and runs with the one after i of them, unless a thread is resumed in front of it |
| Scheduler.ResumedIsNext | kernel-3/kern/task.c:318-338 | A resumed thread is the next to run on its processor; those queued keep their order behind it |
| Scheduler.FirstComeFirstServed | kernel-3/kern/task.c:203-250 | The waiter at position i of a wait queue is taken by the wakeup after i of them |
| Scheduler.ProcessorsInTurn | kernel-3/kern/task.c:46-56 | New threads go to the processors in turn |
| Scheduler.EarlyWakeKeepsLock | kernel-3/kern/task.c:381-393 | The thread lock taken to wait stays held after the reschedule exactly when the wakeup came first |
| Scheduler.NeverWaitsAgain | kernel-3/kern/task.c:212-217 | A running thread whose lock is held never waits again: it would spin |
| Scheduler.LockLeftHeld | kernel-3/kern/task.c:203-220 | One thread on one processor reaches that state |
| Tlb.ReturnMeansFlushed | kernel-3/x86_64/vm.c:391-410 | When the call can return every processor has invalidated the caller's address since it was published; returning frees the lock |
| Tlb.RoundTally | kernel-3/x86_64/vm.c:396-407 | Within a round done + unsent + pending + being handled = number of processors |
| Tlb.NeverOverwritten | kernel-3/x86_64/vm.c:396-404 | The shared address changes only while nothing is outstanding, and no interrupt is sent to a processor that still has one |
| Tlb.BlockedForever | kernel-3/x86_64/vm.c:391-407 | A round that awaits a processor spinning with interrupts off for the same lock never ends |
| Tlb.ReturnsIffUnblocked | kernel-3/x86_64/vm.c:391-407 | In every reachable state the call of the lock's holder can return in some continuation if and only if it awaits no such processor |
| Tlb.CallsCross | kernel-3/x86_64/vm.c:391-407 | Two calls on two processors reach that state |
| Slab.ZoneNumIsTightest | kernel-3/kern/kmem_slab.c:436-456 | The zone of a size is the one with the smallest objects that hold it; sizes above a page have none |
| Slab.CapacityIsMost | kernel-3/kern/kmem_slab.c:220-241 | A slab holds as many objects as fit in its bytes, less the header where it is inline: one more would not; a large one has the fewest pages that hold 16 |
| Slab.SlotBounds | kernel-3/kern/kmem_slab.c:220-241 | Objects lie inside their slab and clear of an inline header |
| Slab.SmallSlabFound | kernel-3/kern/kmem_slab.c:372-374 | Rounding a small object's address down to its page finds its slab |
| Slab.LivePlusFree | kernel-3/kern/kmem_slab.c:220-402 | In every slab live objects + nfree = capacity |
| Slab.LiveApart | kernel-3/kern/kmem_slab.c:302-362 | Live objects of any two zones never overlap |
| Slab.Kmem.SmallSlabNew | kernel-3/kern/kmem_slab.c:243-269 | A new small slab is at pages no slab had, heads its zone, has its header at the end of its page and all its objects free, in address order |
| Slab.Kmem.LargeSlabNew | kernel-3/kern/kmem_slab.c:271-300 | A new large slab takes its header and bufctls from their own zones, each for one purpose, and touches no other zone |
| Slab.Kmem.ZoneAlloc | kernel-3/kern/kmem_slab.c:302-362 | The object was not live and now is: the first free one of the first slab, which goes to the tail when it has none left; a slab is made exactly when the first one is missing or full |
| Slab.Kmem.ZoneFree | kernel-3/kern/kmem_slab.c:364-402 | The object goes to the head of the free list of the slab it came from; no other slab changes and none moves |
| Slab.Kmem.FreeThenAlloc | kernel-3/kern/kmem_slab.c:302-402 | What was freed last into the first slab is given out next |
| Slab.Kmem.KmemAlloc | kernel-3/kern/kmem_slab.c:458-484 | An object of the tightest zone, or as few fresh whole pages as hold the size |
| Slab.Kmem.KmemFree | kernel-3/kern/kmem_slab.c:486-498 | With the original size the object returns to its zone, or the pages go back |
| Slab.Kmem.AllocThenFree | kernel-3/kern/kmem_slab.c:458-498 | Allocating and freeing one size leaves every general zone's live objects as they were, and large requests the whole allocator |
| Nvme.SubmittedRing | kernel-3/dev/NVMeController.m:278-286 | A submission overwrites no entry the device has still to fetch |
| Nvme.FetchedRing | kernel-3/dev/NVMeController.m:281-286 | The device sees an empty ring exactly when nothing or everything is unfetched |
| Nvme.NewOrOld | kernel-3/dev/NVMeController.m:297-303 | The phase bit matches exactly when there is an unconsumed completion at the head |
| Nvme.Queue.constructor | kernel-3/dev/NVMeController.m:132-173 | A new queue pair is empty, with every command id free |
| Nvme.Queue.Take | kernel-3/dev/NVMeController.m:548-556 | The last free request is taken, its callback recorded; there is none exactly when all are in use |
| Nvme.Queue.Submit | kernel-3/dev/NVMeController.m:272-292 | The command joins the submitted ones and all unfetched entries stay in the ring |
| Nvme.Queue.DeviceFetch | kernel-3/dev/NVMeController.m:286-286 | Commands reach the device in submission order |
| Nvme.Queue.DevicePost | kernel-3/dev/NVMeController.m:297-303 | A completion is posted with the phase of its pass unless it would fill the ring |
| Nvme.Queue.CompleteOne | kernel-3/dev/NVMeController.m:296-333 | The next posted completion is consumed once: its own callback runs and its command id is free again |
| Nvme.Queue.Interrupt | kernel-3/dev/NVMeController.m:294-335 | The posted completions up to the first with an error are consumed in order: each runs its own callback once, with the data of its own request, and its command id is free again |
| Nvme.Queue.OnePlace | kernel-3/dev/NVMeController.m:132-335 | Every command id is free, in hand, in the ring, in the device or posted: exactly one of them |
| Nvme.Queue.FullRingStalls | kernel-3/dev/NVMeController.m:281-286 | With all 64 ids unfetched nothing can happen any more |
| Nvme.Queue.FillRing | kernel-3/dev/NVMeController.m:272-292 | A new queue reaches that state: after 64 submissions no request is free and the device sees an empty ring |
| Gterm.QueueFits | kernel-3/dev/fbterm/gterm.c:379-386 | The queue holds at most one item per cell and has room while some cell has none |
| Gterm.Terminal.PushToQueue | kernel-3/dev/fbterm/gterm.c:371-389 | The logical screen changes at that cell and nowhere else, and an item is added exactly for a cell without one that shows another character; a position outside changes nothing |
| Gterm.Terminal.MoveCharacter | kernel-3/dev/fbterm/gterm.c:500-512 | One cell takes the character of another |
| Gterm.Terminal.Clear | kernel-3/dev/fbterm/gterm.c:448-464 | Every cell becomes blank |
| Gterm.Terminal.Scroll | kernel-3/dev/fbterm/gterm.c:427-446 | The scroll region moves up one line and its last line is blank |
| Gterm.ScrolledUpCell | kernel-3/dev/fbterm/gterm.c:427-446 | Cell by cell: inside the region each line holds the one below, the last is blank, and outside it nothing moves |
| Gterm.Terminal.RevScroll | kernel-3/dev/fbterm/gterm.c:403-425 | The scroll region moves down one line and its first line is blank if the region has more than one line; if and only if it has one, the descending index passes the start of the grid and reads outside it |
| Gterm.ScrolledDownCell | kernel-3/dev/fbterm/gterm.c:403-425 | Cell by cell: inside the region each line holds the one above, the first is blank, and outside it nothing moves |
| Gterm.Terminal.PutChar | kernel-3/dev/fbterm/gterm.c:595-612 | The character lands at the cursor, which advances, wraps and scrolls as specified |
| Gterm.Terminal.PutCharAtCursor | kernel-3/dev/fbterm/gterm.c:595-612 | A character takes the cursor out of the grid if and only if it fills the last cell of the last line and, with scrolling on, the region ends above that line or, with scrolling off, that line is not the one below the region |
| Gterm.Terminal.EscapesBelowRegion | kernel-3/dev/fbterm/gterm.c:595-612 | With scrolling on and a region that ends above the last line, the last cell takes the cursor one line below the grid |
| Gterm.Terminal.DrawCursor | kernel-3/dev/fbterm/gterm.c:544-561 | The cursor's cell is settled and drawn inverted; the logical screen is unchanged |
| Gterm.Terminal.Flush | kernel-3/dev/fbterm/gterm.c:563-593 | The grid becomes the logical screen, the overlay empty, and every cell of the framebuffer shows its character, the cursor's inverted |
| Gterm.Terminal.constructor | kernel-3/dev/fbterm/gterm.c:736-752 | The first clear and flush leave grid and framebuffer blank and in agreement |

## Left out

Of the modelled code:

- Vmem.TagReserve: tags are counted; which tag a segment uses is not modelled, segments are values.
- Vmem.Arena: alignment, phase, nocross and upper bounds are not modelled, since no caller uses them; `min` stands for an exact address.
- Vmem.Arena.XAlloc: the import branch is in `VmKernel.KernelVm.XAllocWired`, for the one arena that imports; the callback runs before the queue edit there and after it on release.
- VmemSegments.FreelistBounds: sizes are below 2^64 and addresses do not wrap; the hash function is a parameter.
- VmKernel.KernelVm.PageAlloc: page allocation returns some frame not in use; running out of frames is fatal in the source and not modelled.
- VmTags.ReserveNeverRunsDry: the run is one of the operations' tag contracts (`VmReserve.TagStep`), each proved of its method, not of all arenas' queues at once. Maps are created one at a time; the pages other zones need on the way are the `pages` of the operation, not those zones themselves.
- VmKernel.KernelVm.InternalAllocWired: sizes of 2 GiB and more are excluded, because the page loops of `internal_allocwired` and `internal_freewired` count in an `int` (`kernel-3/vm/vm_kernel.c:24-66`).
- VmKernel.KernelVm.TryImport: the same sizes are excluded.
- VmKernel.KernelVm.XAllocWired: the same sizes are excluded.
- VmKernel.KernelVm.VmKalloc: the same sizes are excluded.
- VmMap.AddressSpace.Fork: layout only; what an object copy does is a parameter here and proved in `Cow.AnonMemory.ObjectCopy`. Partial ranges of `vm_deallocate` and shared or parent objects are not modelled.
- VmMap.AddressSpace.Release: its page tables and the object of the map itself are not part of it.
- Cow.AnonMemory: each object is mapped by at most one entry, because a write fault removes only the faulting map's old mapping (`kernel-3/vm/vm.c:82-89`); paging out, object locks and translation caches are not modelled.
- Cow.AnonMemory.PmapEnter: the page table is the flat map that `Pmap` proves the tree to be; no member composes the two, and the removal that also takes a mapping off its frame's list exists over the flat map only.
- Cow.AnonMemory.ReleaseSlot: clearing a slot stands for freeing its chunk; `UnmapEntry` removes the entry before it releases the object.
- Pmap.PhysicalMap: the walk is `pmap_fully_descend`; `pmap_trans` adds a byte offset to a word pointer (`kernel-3/x86_64/vm.c:236`) and is not modelled, nor are huge pages and `pmap_free`. The last top slot is taken as present at boot.
- Liballoc.Heap.Malloc: requests large enough to wrap the 32-bit size fields are excluded. A header with the magic word is one in `mins`; majors are a ghost field that the headers determine.
- Liballoc.Heap.Free: the byte in front of a pointer no live minor marks is a parameter.
- Liballoc.Heap.Realloc: of a live minor and a positive size; with zero bytes or a null pointer it is the free or the request itself. The bytes it copies are not modelled.
- `calloc` of the first-fit heap: it clears the result of a request, also of a failed one.
- Semaphore.QuietServesAll: timeouts are not implemented in the source; count overflow is not modelled.
- Mutex.SomeoneHoldsIt: the third case, the lost wakeup, is reachable, as stated above; no fairness of the processors is assumed.
- Scheduler.StepHolds: callouts, the time-slice timer and the reschedule interrupt appear as a reschedule at any moment; atomic sections under `sched_lock` are one step.
- Tlb.ReturnMeansFlushed: a processor's translations are modelled by whether it has executed the invalidation since the address was published.
- Slab.Kmem.PageAlloc: stands for `vm_kalloc`; callers rely only on fresh, aligned, disjoint pages. A new slab joins its zone after its free list is built.
- Slab.Kmem.ZoneFree: called with a live object of a general zone, as the source demands of its callers without checking.
- Nvme.Queue: the two rings have 64 entries as `queue_alloc` makes them; PRP lists, the polled admin path and the command fields behind one payload are not modelled. `DeviceWrite`, `DeviceFetch` and `DevicePost` are the device's side.
- Gterm.Terminal: a framebuffer cell shows one character or a mixture; pixels, fonts and the escape parser are not modelled, nor are `gterm_full_refresh` and `gterm_context_restore`, which draw the cursor outside a flush and break the one-item-per-cell invariant.
- Gterm.Terminal.Flush: the framebuffer claim needs the cursor inside its line; with the cursor one past the right edge the code settles the next line's first cell without drawing it.

Of the repository:

- The callout queue, per-queue page counts, MDL copies and `pmap_trans`: wrong off the common path.
- Assembly, descriptor tables, interrupt controllers, PCI, ACPI, boot, file systems, device classes and printing.
