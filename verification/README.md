# Neko OS kernel: verified model

A Dafny model of the stateful core of a small x86_64 kernel, with proofs about whole runs, all
addresses and all interleavings. `dafny verify dfyconfig.toml` checks everything.

| component | files |
|---|---|
| page tables and address-space set-up | `Bits`, `LittleEndian`, `PageEntries`, `PageTables`, `PageMapping`, `PageRefinement`, `PageRegions`, `BootInfo`, `PagingInit`, `BootEncoding`, `Paging` |
| run queue and scheduler | `RunQueueSteps`, `SchedulerModel`, `Scheduler` |
| context switch | `ContextSwitch`, `ScheduledSwitches` |
| kernel heap | `HeapModel`, `HeapMemory`, `KernelHeap` |
| processor start-up | `SmpStartup`, `Madt` |
| console, drawing, memory moves | `KernelMemory`, `ConsoleModel`, `Framebuffer`, `Console` |
| formatted printing | `NumberFormat`, `FormatStrings`, `FormatMeaning` |

How the pieces fit:

- **Paging.** `PageTables.Walk` is the hardware walk of 4-level paging (section 4.5 of Intel SDM volume
  3A), written from the manual and independent of the mapping code. The pool is a tree with one parent
  per table; from that every mapping operation is shown to be an update of the plain map from virtual
  addresses to translations, for all addresses. `Paging.PageTableDriver` is the driver itself, with its
  pool, region, entry and tag loops, and each method equals the function whose effect is proved.
  `BootEncoding` writes boot information out byte by byte and shows that the tag walk reads it back.
- **Run queue.** Every CPU executes one load or store at a time, in any order. The labels that completed
  calls leave at their unlock are shown to be a history of one plain sequence.
- **Scheduler.** Decisions are steps over that FIFO; a yield and its context switch are one step.
- **Context switch.** The routine is executed instruction by instruction on a machine of many cores, whose
  runs mix switches, task creation and arbitrary code; `ScheduledSwitches` runs scheduler and machine side
  by side and shows that no decision resumes an entry that another core runs.
- **Heap.** `HeapModel` works on the blocks in address order; `HeapMemory` says how they lie in the bytes of
  the heap, four header fields at their offsets, linked by address; `KernelHeap` is the allocator on those
  bytes.
- **Start-up.** Boot processor and application processors interleave single loads and stores; IPIs and
  sleeping are abstract steps, and a timeout is an event. Besides safety, every run without timeouts can
  be continued to the end. Processor tables are written out byte by byte and read back.
- **Console.** The grid is compared with a terminal that never scrolls, defined on its own, and the
  framebuffer bytes with the grid.
- **Printing.** `svprintf` and `cvprintf` are both proved to emit the characters of one function of format
  and arguments, the second of them onto the screen. `FormatMeaning` says what each conversion prints,
  with literal bases, type widths and characters.

`kpanic` is a failure result. Integers are unbounded; where the C types wrap (address arithmetic in the
region loops, the queue and processor counters, `kmalloc`'s rounding, `kcalloc`'s product) the wrap is
written out.

## What the code does not do

- `map_page_4kb` tests only the present bit of the directory entry. For an address under a 2 MiB page it
  overwrites eight bytes of that page's frame and maps nothing: `Map4KTakesEffectIff`,
  `Map4KIgnoredExample`.
- `kmalloc` of more than 2^64 - 8 bytes rounds to zero and succeeds with a block that is too small, and
  `kcalloc` multiplies without an overflow test: `BigEnoughIff`, `HugeRequestSucceeds`,
  `CallocBigEnoughIff`, `WrappingProductSucceeds`.
- `kfree` trusts any four magic bytes. Freed through a stale header its flag store can fall into a live
  header; the list survives if and only if it does not: `FlagStoreHarmlessIff`, and a double free after
  which the list is broken: `DoubleFreeBreaksList`.
- A timer tick on an idle task that has become RUNNING puts it on the run queue, after which two CPUs can
  run it: `YieldExact`. That is reachable if and only if there are two CPUs and an entry to spawn:
  `SharingReachableIff`. On one CPU it is harmless: `SingleConservation`.
- After a timeout the boot processor may patch the stack slot under a processor that has been woken and
  has not read it. Every processor gets its own stack if and only if that store never happens:
  `StacksPrivateIff`; it always can lead to two processors on one stack: `ClobberLeadsToSharing`; and it
  is possible exactly when there are two processors to start: `SharingPossibleIff`. The next wait can
  also end early because the late processor checks in; that store is covered too.
- `task_create` lays out r12 and r13 for pops in the opposite order, so the trampoline calls `arg` with
  `entry` as its argument: `FirstSwitch`, `FreshTaskMissesEntry`.
- A format that ends inside a directive makes `svprintf` read past the terminator, and no other does:
  `EndingIff`, `LonePercentOverruns`.

## Model

| member | source | states |
|---|---|---|
| `PageEntries.AlignDownIsMask` | drivers/paging.c:22-45 | the masks `~0xFFF`, `~0x1FFFFF` and `0x1FF` are rounding down to a page and reduction to a table index, for every 64-bit word |
| `PageEntries.TableEntryFields` | drivers/paging.c:27-43 | an entry composed for a table is present, writable, not huge, and both the hardware's address field and the driver's mask give the table back |
| `PageEntries.Leaf4KFields` | drivers/paging.c:45-45 | a 4 KiB leaf decodes to exactly the requested frame and flags, for all flags outside the address bits |
| `PageEntries.Leaf2MFields` | drivers/paging.c:68-68 | the same for a 2 MiB leaf, which also decodes as huge |
| `PageTables.NoSharing` | drivers/paging.c:27-43 | in a tree no table is referred to from two entries |
| `PageTables.SamePath` | drivers/paging.c:22-43 | two addresses that reach the same table agree on every index above it |
| `PageMapping.GrownEffect` | drivers/paging.c:11-30 | hanging a fresh zeroed table on an absent entry keeps the tree, every walk and every path |
| `PageMapping.DescendStep` | drivers/paging.c:27-43 | one descent leaves all walks unchanged, reaches the next table, and takes a pool table exactly when one was missing |
| `PageMapping.DescendPanics` | drivers/paging.c:12-13 | a descent panics if and only if its table is missing and the pool is full |
| `PageMapping.LeafEffect` | drivers/paging.c:45-68 | writing a leaf changes the translation of the addresses of its page and of no other |
| `PageRefinement.Map2MRefines` | drivers/paging.c:48-69 | mapping 2 MiB is an update of that page in the address map, keeps the tree and stores nothing outside the pool |
| `PageRefinement.Map4KRefines` | drivers/paging.c:21-46 | the same for 4 KiB, if the address is not under a 2 MiB page |
| `PageRefinement.Map4KUnderHugePage` | drivers/paging.c:39-45 | under a 2 MiB page the call does nothing but one store through the address in the leaf, wherever that leads; outside the pool no translation changes |
| `PageRefinement.Map4KTakesEffectIff` | drivers/paging.c:39-45 | the requested 4 KiB mapping appears if and only if the address was not under a 2 MiB page, unless the address in that leaf is a table of the pool |
| `PageRegions.CallsRefineMap` | drivers/paging.c:11-69 | after any sequence of mapping calls the tables are a tree and every address translates as the last call for its page says |
| `PageRegions.RegionExact` | drivers/paging.c:71-81 | a region loop maps exactly its pages, in order, and changes no other address |
| `PageRegions.RegionBudget` | drivers/paging.c:8-19 | a region needs at most one table per 512 GiB, 1 GiB (and, for 4 KiB pages, 2 MiB) slot touched, so within the remaining budget it cannot exhaust the pool |
| `PageRegions.RemapConsumesNothing` | drivers/paging.c:71-81 | mapping a region again, to any frames and flags, takes no table |
| `PagingInit.KernelCovered` | drivers/paging.c:109-123 | the size computed for the kernel covers its image for any start, aligned or not |
| `PagingInit.EntryCovered` | drivers/paging.c:132-137 | the pages mapped for a usable entry cover every byte of it |
| `PagingInit.InitMapsEverything` | drivers/paging.c:103-147 | if set-up does not panic, low memory, the kernel image and every usable byte are mapped onto themselves and writable, for any order or overlap of entries |
| `PagingInit.InitMapsOnly` | drivers/paging.c:103-147 | and any mapped address is an identity mapping within 2 MiB of low memory, of a usable entry, or (4 MiB above) of the image |
| `PagingInit.InitMapsPool` | drivers/paging.c:8-8 | hence the page-table pool itself stays reachable |
| `PagingInit.InitWithinBudget` | drivers/paging.c:103-147 | a table budget under which set-up cannot panic |
| `PagingInit.MmioMapped` | drivers/paging.c:93-98 | every byte of a device region becomes an uncached identity mapping and nothing outside its pages changes |
| `PagingInit.Map4KIgnoredExample` | drivers/paging.c:39-45 | once low memory has been mapped, a 4 KiB mapping of address 0 changes no translation, and address 0 keeps its 2 MiB identity mapping |
| `Paging.PageTableDriver.AllocPageTable` | drivers/paging.c:11-19 | hands out the next table zeroed, or panics when the pool is full |
| `Paging.PageTableDriver.EnsureTable` | drivers/paging.c:27-30 | fills an absent entry with a fresh table and leaves a present one |
| `Paging.PageTableDriver.MapPage4kb` | drivers/paging.c:21-46 | the in-place driver computes the function whose effect is proved |
| `Paging.PageTableDriver.MapPage2mb` | drivers/paging.c:48-69 | likewise |
| `Paging.PageTableDriver.MapRegion4kb` | drivers/paging.c:71-75 | the loop runs once per page and stops at the first panic |
| `Paging.PageTableDriver.MapRegion2mb` | drivers/paging.c:77-81 | likewise |
| `Paging.PageTableDriver.MapMmioRegion` | drivers/paging.c:93-98 | maps the rounded range uncached |
| `Paging.PageTableDriver.MapUsable` | drivers/paging.c:132-137 | maps one usable entry onto itself, rounded outwards |
| `Paging.PageTableDriver.MapTagEntries` | drivers/paging.c:131-139 | handles the entries of one tag in order, by the tag's own stride |
| `Paging.PageTableDriver.MapTags` | drivers/paging.c:126-142 | handles the entries of all memory-map tags in order |
| `Paging.PageTableDriver.InitPaging` | drivers/paging.c:103-147 | a second call panics; otherwise the whole of set-up, after which low memory, image and usable bytes are mapped onto themselves |
| `BootEncoding.EntriesOfEncoding` | drivers/paging.c:126-142 | for memory-map tags of type 6 written out byte by byte, with any entry size and any other tags around them, the walk meets exactly their entries, in order |
| `BootEncoding.EncodedMemoryMapped` | drivers/paging.c:126-142 | so on those bytes set-up maps every byte of every entry of type 1 onto itself |
| `RunQueueSteps.CriticalStep` | drivers/scheduler.c:57-77 | every load and store inside a critical section keeps the half-finished list right and touches no unqueued task's link |
| `RunQueueSteps.LockInstr` | include/spinlock.h:10-13 | a test-and-set admits one CPU at a time, to a complete list |
| `RunQueueSteps.UnlockInstr` | include/spinlock.h:15-17 | a release publishes exactly one enqueue or dequeue of the plain sequence: the call's own label takes the old contents to the new |
| `RunQueueSteps.PrepareInstr` | drivers/scheduler.c:53-54 | the stores made before taking the lock disturb no other CPU |
| `RunQueueSteps.RunsRefineFifo` | drivers/scheduler.c:52-80 | in every interleaving of any number of CPUs: mutual exclusion, no null or wild dereference, completed calls form a FIFO history, and whenever the lock is free the list, tail and count are that FIFO's |
| `RunQueueSteps.FifoConservation` | drivers/scheduler.c:52-80 | old contents followed by what was enqueued equals what was dequeued followed by the contents now |
| `RunQueueSteps.BoundedBypass` | drivers/scheduler.c:68-80 | the entry at position k is the result of exactly the (k+1)-st later successful dequeue |
| `RunQueueSteps.ClearNextSafeIff` | drivers/scheduler.c:53-54 | clearing `next` outside the lock while nobody holds it is safe if and only if the entry is not queued or is last |
| `RunQueueSteps.ClearNextCriticalIff` | drivers/scheduler.c:53-77 | clearing it while another CPU is at any point of its critical section leaves that CPU's half-finished list right if and only if the entry is not linked or is linked last |
| `SchedulerModel.ActInv` | drivers/scheduler.c:82-183 | every action except a tick on a RUNNING idle entry with work queued keeps each spawned entry in one place |
| `SchedulerModel.YieldExact` | drivers/scheduler.c:82-103 | and a yield keeps it if and only if it is not such a tick |
| `SchedulerModel.TaskConservation` | drivers/scheduler.c:82-183 | over whole runs of many CPUs: queued once and READY, or current once and RUNNING, or dead and gone for good; idle entries never queued |
| `SchedulerModel.BootConservation` | drivers/scheduler.c:37-183 | so from boot, and no entry is ever current on two CPUs |
| `SchedulerModel.DeadStaysDead` | drivers/scheduler.c:146-151 | no action brings a dead entry back |
| `SchedulerModel.SharingReachableIff` | drivers/scheduler.c:82-183 | with arbitrary ticks an entry can become current on two CPUs if and only if there are two CPUs and an entry to spawn |
| `SchedulerModel.SingleBoot` | drivers/scheduler.c:37-50 | the one-CPU boot state satisfies the placement invariant |
| `SchedulerModel.SingleConservation` | drivers/scheduler.c:82-183 | on one CPU each entry is in one place under arbitrary ticks, idle included |
| `SchedulerModel.RoundRobin` | drivers/scheduler.c:82-103 | the k-th yield runs the k-th waiting entry and n+1 yields restore the configuration |
| `Scheduler.TaskScheduler.Enqueue` | drivers/scheduler.c:52-66 | the linked list grows by the entry at its end, which becomes READY |
| `Scheduler.TaskScheduler.Dequeue` | drivers/scheduler.c:68-80 | the first entry, or null, and the list without it |
| `Scheduler.TaskScheduler.YieldTask` | drivers/scheduler.c:82-103 | the in-place yield is the yield step of the model |
| `Scheduler.TaskScheduler.TaskExit` | drivers/scheduler.c:146-151 | the in-place exit is the exit step |
| `Scheduler.TaskScheduler.SpawnTask` | drivers/scheduler.c:52-66 | the in-place spawn is the spawn step |
| `Scheduler.TaskScheduler.EnterLoop` | drivers/scheduler.c:157-164 | the idle entry becomes current: the entry step of the worker loop |
| `Scheduler.TaskScheduler.WorkerTurn` | drivers/scheduler.c:170-182 | one turn of the worker loop is the worker step |
| `ContextSwitch.SwitchEffect` | drivers/scheduler.nasm:4-27 | the fifteen instructions save the caller's frame and become what the other saved frame says |
| `ContextSwitch.SwitchKeeps` | drivers/scheduler.nasm:4-27 | the saved frame is the caller's context, a switch to itself returns with it, and no word of any other stack or saved stack pointer changes |
| `ContextSwitch.BootMachineOk` | drivers/scheduler.c:157-164 | cores that each run their own idle entry are a machine in order |
| `ContextSwitch.StepOk` | drivers/scheduler.c:82-144 | every switch, creation and piece of ordinary code keeps it in order: each suspended frame lies in its own stack |
| `ContextSwitch.StackSurvives` | drivers/scheduler.nasm:4-27 | over any run, creations included, the stack of a suspended entry is untouched until it is switched to |
| `ContextSwitch.RoundTrip` | drivers/scheduler.nasm:4-27 | whatever runs or is created in between on any core, switching back (at once, for a switch to itself) restores six registers, stack pointer and return address |
| `ContextSwitch.FirstSwitch` | drivers/scheduler.c:109-144 | the first switch executed after creation and any run returns into the trampoline with `task_exit` above it, r12 holding `arg` and r13 `entry`; so `entry(arg)` is called if and only if the two words are equal |
| `ContextSwitch.FreshTaskMissesEntry` | drivers/scheduler.c:15-29 | a concrete machine on which a new entry with a null argument makes the trampoline call address 0 |
| `ScheduledSwitches.TargetFree` | drivers/scheduler.c:82-102 | outside an idle tick the entry a decision switches to exists and is run by no other CPU |
| `ScheduledSwitches.DecisionAgrees` | drivers/scheduler.c:82-183 | such a decision is an allowed machine event, after which scheduler and machine agree on who runs where |
| `ScheduledSwitches.DecisionsAreAllowed` | drivers/scheduler.c:82-183 | every joint run of such decisions and ordinary code is a run of the machine, with agreement to the end |
| `ScheduledSwitches.ScheduledRoundTrip` | drivers/scheduler.c:82-102 | an entry switched away from by one decision resumes at the next decision for it, on any CPU, with the context it left |
| `HeapModel.AllocKeeps` | lib/alloc.c:43-57 | allocation keeps the extent, adds exactly one allocated block, at most 39 bytes larger than the rounded size, splits off at least 8 bytes or nothing, and leaves no two neighbouring free blocks |
| `HeapModel.FreeKeeps` | lib/alloc.c:66-87 | freeing keeps the extent, removes exactly that block, and coalesces maximally |
| `HeapModel.PayloadsApart` | lib/alloc.c:46-57 | payloads are 8-aligned, inside the heap, and apart from every header and every other block |
| `HeapModel.FailureIsComplete` | lib/alloc.c:41-63 | first fit fails if and only if no range of unused bytes has room for the rounded request and a header |
| `HeapModel.RunKeeps` | lib/alloc.c:35-87 | every run of allocations of any size and frees keeps the blocks tiling the heap, coalesced and aligned, each live block as large as asked unless its request wrapped; freeing everything leaves one block |
| `HeapModel.FreshRunKeeps` | lib/alloc.c:19-87 | so from the fresh heap, with all live payloads aligned, inside the heap and apart from headers and each other, and the initial heap back when all is freed |
| `HeapModel.BigEnoughIff` | lib/alloc.c:36-45 | a block is as large as asked if and only if the rounding did not wrap |
| `HeapModel.HugeRequestSucceeds` | lib/alloc.c:36-45 | on every fresh heap a request of 2^64 - 1 bytes gets a block of none |
| `HeapModel.CallocBigEnoughIff` | lib/alloc.c:89-96 | the array fits if and only if neither product nor rounding wraps |
| `HeapModel.WrappingProductSucceeds` | lib/alloc.c:89-96 | on every fresh heap 2^61 + 1 elements of 8 bytes get a block of 8 |
| `HeapMemory.TakeSplit` | lib/alloc.c:46-57 | the header stores of a split make the bytes hold the list with the block split |
| `HeapMemory.MergeStep` | lib/alloc.c:79-80 | the two stores of a merge make the bytes hold the list with the blocks merged |
| `HeapMemory.FlagStoreHarmlessIff` | lib/alloc.c:69-74 | the flag store through any pointer leaves the list in memory intact if and only if its byte is no byte of a list header that it would change |
| `KernelHeap.HeapAllocator.constructor` | lib/alloc.c:16-17 | before initialisation the list is empty |
| `KernelHeap.HeapAllocator.KallocInit` | lib/alloc.c:19-33 | a panic exactly when no header fits, otherwise one free block spanning the heap |
| `KernelHeap.HeapAllocator.Kmalloc` | lib/alloc.c:35-64 | null, or the payload of the first fitting block, with headers and links of the new list in the bytes; no byte outside the two headers changes |
| `KernelHeap.HeapAllocator.Kcalloc` | lib/alloc.c:89-96 | the same for the product, its bytes zero and the list intact |
| `KernelHeap.HeapAllocator.Release` | lib/alloc.c:66-74 | panic on a bad magic; one byte stored; a list block becomes free; elsewhere the list stays intact if and only if the store is harmless |
| `KernelHeap.HeapAllocator.Kfree` | lib/alloc.c:66-87 | null, bad magic, list block and harmless stale header, each with its effect, and the bytes that keep their value |
| `KernelHeap.DoubleFreeBreaksList` | lib/alloc.c:66-74 | on every heap of 256 bytes or more, a sequence of calls ending in a double free passes the magic test and makes the last link point to address 1 |
| `KernelHeap.HeapAllocator.PayloadWrite` | lib/alloc.c:9-14 | stores to any range apart from every 32-byte header of the list leave the list intact |
| `KernelHeap.HeapAllocator.Coalesce` | lib/alloc.c:76-86 | the in-place pass computes the coalesced list |
| `SmpStartup.BarrierHolds` | drivers/smp.c:35-49 | in every run, timeouts included, nobody works and `smp_init` does not return before every application processor has checked in exactly once |
| `SmpStartup.StackStepIff` | drivers/smp.c:85-119 | a step keeps every processor on its own stack if and only if it is not a stack patch under a woken processor |
| `SmpStartup.StacksPrivateIff` | drivers/smp.c:85-119 | in every run, timeouts included, each processor has or will read its own stack if and only if no step was such a patch; then no two share one |
| `SmpStartup.StartedInOrder` | drivers/smp.c:109-119 | without timeouts the slots are repatched only after the previous processor has read them and checked in |
| `SmpStartup.NoTimeoutSafe` | drivers/smp.c:51-125 | all guarantees of a run without timeouts, with exactly cpu_count - 1 check-ins at the end |
| `SmpStartup.WaitEndsIff` | drivers/smp.c:109-118 | without timeouts the boot processor goes on to the next number if and only if the one it waits for has checked in |
| `SmpStartup.CanFinish` | drivers/smp.c:51-125 | no deadlock: every run without timeouts continues, without timeouts, to the return of `smp_init` with every application processor checked in |
| `SmpStartup.ClobberLeadsToSharing` | drivers/smp.c:85-119 | every such patch, in whatever run, has a continuation with two processors on one stack |
| `SmpStartup.SharingPossibleIff` | drivers/smp.c:85-119 | two processors can come to share a stack if and only if there are at least three processors in all |
| `SmpStartup.StackTopInjective` | drivers/smp.c:19-21 | the 16 KiB stacks of different processors are disjoint, inside the stack area for up to 16 |
| `Madt.MadtTable.Parse` | drivers/madt.c:8-46 | adds the number of enabled processor records |
| `Madt.MadtTable.GetLapicId` | drivers/madt.c:70-85 | the id of the first enabled record with that number, or 0xFF |
| `Madt.LapicsOfEncoding` | drivers/madt.c:14-46 | for records written out byte by byte, processors among any others, the walk meets exactly the processors, in order |
| `Madt.LookupOnBytes` | drivers/madt.c:70-85 | the lookup of byte 2 of an enabled processor record is its byte 3, if no earlier one has that number |
| `Madt.LookupMissing` | drivers/madt.c:70-85 | and 0xFF if none has it |
| `Madt.LoopVisitsEachAp` | drivers/smp.c:85-87 | for densely numbered processors the loop skips exactly the boot processor and addresses every other one once |
| `KernelMemory.MemMove` | kernel/mem.c:13-24 | equals a copy through a snapshot for every overlap and length |
| `KernelMemory.MemSet` | kernel/mem.c:26-31 | fills exactly the range |
| `ConsoleModel.PutMatches` | lib/console.c:80-104 | one character keeps the grid the last rows of the terminal |
| `ConsoleModel.ConsoleIsWindow` | lib/console.c:58-104 | for every stream of characters and colours the grid is the last rows of a terminal that never scrolled, the cursor inside the grid |
| `ConsoleModel.ControlLaws` | lib/console.c:80-104 | what bytes 10, 13 and 8 and a byte in the last column do to cursor and grid |
| `ConsoleModel.LineLaw` | lib/console.c:80-104 | text that fits in its line fills the cells from the cursor on, in order, and changes nothing else |
| `Framebuffer.PixelsApart` | drivers/framebuffer.c:25-31 | distinct pixels occupy disjoint bytes |
| `Framebuffer.Display.PutPixel` | drivers/framebuffer.c:22-32 | the three bytes of one on-screen pixel become blue, green and red; every other byte keeps its value |
| `Framebuffer.Display.Clear` | drivers/framebuffer.c:38-42 | every pixel takes the colour |
| `Framebuffer.GlyphBitIsMask` | drivers/font.c:61-66 | a dot is on exactly when its glyph byte has the mask bit of its column, most significant first |
| `Framebuffer.Display.DrawChar` | drivers/font.c:58-71 | the glyph's rectangle shows its dots, clipped to the screen, and nothing else changes |
| `Console.TextConsole.constructor` | lib/console.c:32-45 | an all-space grid that the framebuffer shows |
| `Console.TextConsole.ClearScreen` | lib/console.c:47-56 | likewise in the current colours |
| `Console.TextConsole.RedrawAll` | lib/console.c:63-70 | afterwards every cell is shown |
| `Console.TextConsole.Scroll` | lib/console.c:72-78 | lines move up, the last is blank, every cell is shown |
| `Console.TextConsole.SetColors` | lib/console.c:58-61 | later characters take the colours; nothing drawn changes |
| `Console.TextConsole.PutCharacter` | lib/console.c:80-104 | the model's step, and the framebuffer still shows every cell |
| `Console.TextConsole.Cvprintf` | lib/console.c:211-357 | the screen receives exactly the characters that the formatter emits for format and arguments, and the framebuffer shows them |
| `NumberFormat.RunReadsBack` | lib/sprintf.c:15-53 | the printed digits read back to the value and have the required length |
| `NumberFormat.UintLength` | lib/sprintf.c:24-60 | the output is exactly as wide as asked, or as its digits and prefix need |
| `NumberFormat.RunIn` | lib/sprintf.c:15-53 | digits of the base only, no more of them than value and precision need |
| `NumberFormat.BufferSuffices` | lib/sprintf.c:12-22 | at most 22 of the 64 buffer bytes are used |
| `NumberFormat.UintLayout` | lib/sprintf.c:24-60 | where prefix, digits and padding stand, and of which character, for every flag |
| `NumberFormat.SprintUint` | lib/sprintf.c:8-61 | the loops print that text |
| `NumberFormat.IntLength` | lib/sprintf.c:63-107 | the same width law for signed values; sign and digits read back to the value |
| `NumberFormat.IntLayout` | lib/sprintf.c:63-107 | where sign, zeros, digits and spaces stand; the sign is `-` exactly for negative values |
| `NumberFormat.CountDigits` | lib/sprintf.c:70-76 | the separate count is the number of digits that get printed |
| `NumberFormat.SprintInt` | lib/sprintf.c:63-107 | the loops print that text |
| `FormatStrings.DirectiveUndone` | lib/sprintf.c:116-190 | parsing a directive in canonical form recovers every field and stops after its conversion |
| `FormatStrings.FormatOfSource` | lib/sprintf.c:109-255 | a format of literals and canonical directives prints each in order, taking arguments from left to right |
| `FormatStrings.ScanFlags` | lib/sprintf.c:118-130 | the flag loop is the flag parser |
| `FormatStrings.ScanNumber` | lib/sprintf.c:141-158 | the digit loop is the number parser |
| `FormatStrings.ScanLength` | lib/sprintf.c:162-188 | the modifier tests are the length parser |
| `FormatStrings.ScanDirective` | lib/sprintf.c:116-190 | scanning in place is the directive parser |
| `FormatStrings.RenderNeeds` | lib/sprintf.c:190-255 | a directive renders if and only if the arguments its text asks for are there, and takes exactly those |
| `FormatStrings.EndingIff` | lib/sprintf.c:109-255 | for every format and argument list, told from the two alone: an argument is missing, or the terminator is passed because the text, read character by character, ends inside flags, width, precision or length, or the output is complete |
| `FormatStrings.LonePercentOverruns` | lib/sprintf.c:249-254 | a format of one `%` passes it |
| `FormatStrings.Svprintf` | lib/sprintf.c:109-255 | the main loop emits the formatter's characters, stops at a terminator, and reports overruns and missing arguments |
| `FormatMeaning.UnsignedMeaning` | lib/sprintf.c:222-241 | `%u`, `%o`, `%x`, `%X` with every length modifier print the numeral, in base 10, 8 and 16, of the word reduced to the type |
| `FormatMeaning.HexMeaning` | lib/sprintf.c:222-241 | the same with spellings, digits and moduli in literals |
| `FormatMeaning.SignedMeaning` | lib/sprintf.c:208-221 | `%d` and `%i` with every length modifier: a minus sign exactly for negative values, then the numeral of the magnitude |
| `FormatMeaning.DecimalMeaning` | lib/sprintf.c:208-221 | the same with spellings and moduli in literals |
| `FormatMeaning.UnsignedLayout` | lib/sprintf.c:109-241 | an unsigned conversion with any flags, width and precision |
| `FormatMeaning.SignedLayout` | lib/sprintf.c:109-221 | a signed conversion with any flags, width and precision |
| `FormatMeaning.PointerMeaning` | lib/sprintf.c:242-245 | `%p` prints `0x` and the hexadecimal numeral of all 64 bits |
| `FormatMeaning.CharMeaning` | lib/sprintf.c:191-197 | `%c` prints the low byte |
| `FormatMeaning.CharLayout` | lib/sprintf.c:191-197 | with spaces up to the width on the side the flag says |
| `FormatMeaning.PercentMeaning` | lib/sprintf.c:246-252 | `%%` prints one percent sign, an unknown conversion itself after one |
| `FormatMeaning.StringMeaning` | lib/sprintf.c:198-207 | `%s` prints the string cut to the precision, with spaces up to the width on the side the flag says; null as `(null)` |
| `FormatMeaning.StarWidthMeaning` | lib/sprintf.c:133-140 | a width from an argument is its magnitude, left-justified if negative |
| `FormatMeaning.StarPrecisionMeaning` | lib/sprintf.c:148-153 | a precision from an argument, none if negative |

## Left out

- Inline assembly, MSRs, port I/O, serial, PIC, LAPIC and HPET registers: hardware effects.
- GDT and IDT packing, ACPI table dispatch, `mb2_parse`, `memcpy`, `memcmp`, `fb_fill_rect`, logos,
  `madt_get_lapic_base`, `madt_get_ioapic_addr`: would only add easy members.
- Liveness of spin loops, memory-model effects, and preemption inside a critical section or between
  setting `current` and switching.
- Memory outside the page-table pool: stores there are recorded, not interpreted; flushing the TLB and
  loading CR3 are not modelled.
- PageRefinement.Map4KTakesEffectIff: assumes that the address in the 2 MiB leaf, the first 4 KiB of its
  frame unless high bits are set, is not itself a table of the pool; there the store overwrites that table
  (`Map4KUnderHugePage` says so), and what the address then translates to depends on the table.
- PagingInit.InitMapsEverything: usable entries must end below 2^48, where addresses would otherwise wrap
  around the 48-bit space.
- Paging.PageTableDriver.MapRegion2mb: sizes above 2^64 - 2 MiB, for which the source's loop does not end.
- Paging.PageTableDriver.MapRegion4kb: sizes above 2^64 - 4 KiB, likewise.
- Paging.PageTableDriver.MapMmioRegion: regions that end above 2^48.
- Paging.PageTableDriver.MapUsable: entries that end above 2^48; likewise `InitPaging`.
- Paging.PageTableDriver.MapTagEntries: tags whose size is not a whole number of entries.
- Paging.PageTableDriver.MapTags: truncated tags, behind which the source reads on.
- Madt.MadtTable.GetLapicId: the same tables as `Parse`.
- Madt.MadtTable.Parse: tables with truncated or zero-length records, on which the source's loop reads
  past the table or does not end; `BootInfo.TagsOk` says the same for boot tags.
- RunQueueSteps.RunsRefineFifo: callers hand over only tasks that are not queued and not being enqueued.
- Scheduler.TaskScheduler.YieldTask: tasks are numbered, their fields arrays; allocation of task
  structures is not modelled, nor are `cr3`, `id` and `cpu_id`.
- KernelHeap.HeapAllocator.Kfree: pointers whose header would lie outside the heap, and what the pass does
  to a list that the flag store has broken (`Release` says when); the source then follows a wild link.
- KernelHeap.HeapAllocator.Kcalloc: products within 7 of 2^64, whose zeroing runs off the heap.
- KernelHeap.HeapAllocator.KallocInit: a heap in the first eight bytes of the address space.
- Console.TextConsole.PutCharacter: the grid buffer is allocated, the screen holds at least one cell, the
  space glyph is blank; cells are moved whole instead of byte by byte.
- Console.TextConsole.constructor: a screen smaller than one glyph.
- NumberFormat.SprintInt: the most negative 64-bit value, whose negation C leaves undefined.
- ContextSwitch.RoundTrip: switches to an entry that another core runs (`ScheduledSwitches` shows that the
  scheduler asks for none outside an idle tick), and an entry is created once.
- ScheduledSwitches.DecisionsAreAllowed: each switch is entered on the core's own stack with room for a frame.
- FormatStrings.Svprintf: widths and precisions that overflow `int`.
