# A verified model of the kernel's core

The kernel is a small single-CPU x86-64 system. This project models four connected parts of it in
Dafny and proves what they promise, over every input, every run and every reachable state.

**Virtual memory.** Page tables are little-endian entries stored in 4096-byte frames, in the same
memory as page contents. A space is the partial map `PteOf` its tree represents. `PageTables` proves
that the walker refines updates of that map, `AddressSpaces` and `Isolation` that spaces stay apart
over any run, `ForkCopy` that the fork copy preserves meaning exactly when it has the frames,
`UserMemory` that user pages keep frames of their own, `ElfImage` and `ElfLoader` that loading an
image gives the bytes it describes, `UserAccess` that the range check is exact, `ProcessorAccess` that
it is what the processor decides on its walk of four entries. `Vmm.Manager` and the
methods of `ElfLoader` are the loops of the source, proved to compute those functions.

**Tasks.** `Tasks` is a machine of atomic steps: system calls enter through an interrupt gate with
interrupts off, so each is one step up to the point where it blocks; timer ticks, task creation and
further user mappings are the other steps. The number of tasks is a parameter. `TaskRuns` holds the
whole-run results, `TaskOutcomes` says what each call does without its search loops, `TaskMeetings` that
two calls that should meet do meet, `TaskTable` is the table in place, `Delivery` the message copy in physical memory, `KernelSystem` tasks and memory as one
machine (a fork's view is the space it copied, a delivery moves real bytes), `SystemAccess` what the
processor then allows each task, `ContextSwitch` the kernel stacks, the
assembly and the frame a forked child starts from.

**Kernel heap.** `HeapLayout` is the block list as a value; `KernelHeap` is the list of headers inside
the memory it manages; `HeapPages` is what it takes to map that memory.

**Physical frames.** `BootMemory` is the bump allocator and the hand-over to the free list; `Frames`
is the free list over whole runs, and the frame list of the memory manager; `LinkedLists` is the chain of links both it and the task slots use.

`Words`, `PageTableEntries`, `PhysicalMemory` and `WordMemory` hold bit operations, entry fields and
memory.

Where the code falls short of what one would expect, the model keeps the code and states exactly when
it does meet it:

- A fork, a load or a heap extension is complete if and only if there were enough frames; otherwise
  `vmm_map` fails silently and success may be reported with pages missing
  (`ForkCopy.ForkCompleteIffEnough`, `ForkCopy.SilentLoss`, `ElfLoader.LoadCompleteIffEnough`,
  `ElfLoader.SilentLoad`, `HeapPages.ExtentMappedIff`, `HeapPages.SilentExtension`).
- A call that should block returns at once, undelivered, if and only if no other task is RUNNABLE
  (`TaskRuns.BlockReturnsAtOnceIff`).
- When the sender arrives second, the receiver reports its capacity, which is the number of bytes
  moved if and only if the message fills it (`TaskRuns.ReceiverReportsCapacity`).
- A listed frame freed again is refused if and only if it is not the last of the list
  (`Frames.DoubleFreeRefusedIff`).
- `boot_alloc` hands out bytes of its region if and only if the request is below 2^64 - 2^52
  (`BootMemory.AllocInsideIff`, `BootMemory.WrappedRequest`).
- `kmalloc` computes its sizes exactly, and hands out enough, if and only if the request is below
  `MAX_REQUEST` (`KernelHeap.RequestBound`, `KernelHeap.Heap.Kmalloc`, `KernelHeap.BandRequest`).

`dafny verify dfyconfig.toml` checks the whole project.

## Model

| member | source | states |
|---|---|---|
| `PageTableEntries.PteGetAddr` | kernel/src/paging.c:109-120 | the bit loop yields the frame number in bits 12 to 51, times 4096 |
| `PageTableEntries.PteMake` | kernel/src/paging.c:122-133 | the bit loop yields the entry `MakePte` |
| `PageTableEntries.MakePteFields` | kernel/src/paging.c:122-133 | flags outside the address bits and the frame do not disturb each other in an entry |
| `PageTableEntries.IsCanonical` | kernel/src/paging.c:136-148 | the loop accepts exactly the addresses below 2^47 and the top 2^47 |
| `PageTableEntries.Indices` | kernel/src/paging.c:150-216 | the four shift loops give the four base-512 digits of the page number |
| `PageTableEntries.ReassemblyInvertsIndices` | kernel/src/paging.c:54-57 | shifting and or-ing the four indices of the fork loops gives back the page's address |
| `PageTableEntries.IndicesOfPageAt` | kernel/src/paging.c:150-216 | the index functions invert reassembly |
| `PhysicalMemory.EntPut` | kernel/src/paging.c:246-249 | a stored entry is read back there, and every other entry is unchanged |
| `PageTables.WalkGrows` | kernel/src/paging.c:230-294 | a creating walk takes exactly the missing tables from the free list, succeeds iff it was long enough, changes no translation of any space and keeps all trees separated |
| `PageTables.MapRefines` | kernel/src/paging.c:297-303 | vmm_map changes one page of the partial map of one space (or of the spaces sharing that kernel-half table), and nothing when it runs out of frames |
| `PageTables.MapFrames` | kernel/src/paging.c:297-303 | frames that are neither free nor tables on the path keep their contents; tables come from the free list |
| `PageTables.UnmapRefines` | kernel/src/paging.c:310-320 | vmm_unmap removes exactly one page, from the space and, for a kernel-half page, from the spaces sharing its leaf table, and nothing else of any space |
| `PageTables.DataWrite` | kernel/src/paging.c:68-68 | writing page contents moves no table and changes no translation |
| `AddressSpaces.NewSpaceSeparated` | kernel/src/paging.c:322-337 | a new space is separated from all others, has an empty user half and the kernel half it was copied from |
| `ForkCopy.ForkPreservesMeaning` | kernel/src/paging.c:16-77 | with enough frames the child has the parent's pages, low flag bits and contents, all in fresh frames, and its kernel half; 1 + pages + tables with a page are used; no other space and no held frame changes |
| `ForkCopy.ForkCompleteIffEnough` | kernel/src/paging.c:62-70 | the copy is returned and complete iff 1 + pages + tables frames were free |
| `ForkCopy.SilentLoss` | kernel/src/paging.c:298-301 | a family of states in which a child is returned without its parent's page |
| `ForkCopy.CopyLoop` | kernel/src/paging.c:27-74 | the invariant of the four loops after every page below k |
| `ForkCopy.CopyKeepsSpaces` | kernel/src/paging.c:27-74 | with or without enough frames, every other space keeps its tables and translations |
| `ForkCopy.ForkSharesKernelHalf` | kernel/src/paging.c:23-25 | a copied space, complete or not, has its parent's kernel-half tables and translations |
| `ForkCopy.ForkFailsIff` | kernel/src/paging.c:17-65 | a copy returns NULL iff there is no frame for the root, or some page is reached when the root and the pages before it have used or wanted every frame |
| `Vmm.Manager.PageAlloc` | kernel/src/page_alloc.c:144-166 | the head frame leaves the list and is zeroed when asked |
| `Vmm.Manager.Walk` | kernel/src/paging.c:230-294 | the walk in place computes `WalkCreate`, or only looks up |
| `Vmm.Manager.Map` | kernel/src/paging.c:297-303 | the map in place computes `VmmMap` |
| `Vmm.Manager.Unmap` | kernel/src/paging.c:310-320 | the unmap in place computes `VmmUnmap` |
| `Vmm.Manager.NewAddressSpace` | kernel/src/paging.c:322-337 | computes `NewSpace` |
| `Vmm.Manager.CopyAddressSpace` | kernel/src/paging.c:16-77 | the four nested loops compute `CopySpace` |
| `Isolation.StepIsolated` | kernel/src/paging.c:16-77 | create, copy, map and unmap keep spaces separated and change no entry but the one named, in the space named or one sharing its kernel-half leaf table |
| `Isolation.RunIsolated` | kernel/src/paging.c:230-337 | over any run, user-half tables of distinct spaces share no frame and a space nobody names keeps its user translations |
| `Isolation.KernelHalfStaysShared` | kernel/src/paging.c:332-334 | a kernel-half slot once shared translates identically in both spaces ever after |
| `Isolation.CreatedSpaceShares` | kernel/src/paging.c:332-334 | a created space shares every kernel-half slot present at its creation |
| `Isolation.CopiedSpaceShares` | kernel/src/paging.c:23-25 | a copied space shares every kernel-half slot its parent has |
| `Isolation.RunAllShare` | kernel/src/paging.c:230-337 | over any run, a kernel-half slot all spaces share is shared by all spaces, those created or copied on the way included |
| `Isolation.KernelHalfSeenByAll` | kernel/src/paging.c:230-337 | so a page under that slot is translated identically in all spaces, whatever was mapped or unmapped through any of them |
| `Isolation.KernelMapSeenByAll` | kernel/src/paging.c:297-320 | a map or unmap of a page under a slot all spaces share, through any one of them, gives that page the same entry in all of them |
| `UserAccess.UvaCheckRange` | kernel/src/uaccess.c:11-49 | true iff the length is zero, or the range does not wrap and every byte is a user byte in a present, accessible (and writable if needed) page |
| `UserAccess.CheckPages` | kernel/src/uaccess.c:32-48 | the page loop decides every byte between endpoints in the user half |
| `UserAccess.RangePrefix` | kernel/src/syscall.c:207-209 | a validated range validates for every shorter length |
| `UserAccess.RangeStaysOk` | kernel/src/syscall.c:271-273 | a validated range stays valid while user mappings only grow |
| `ProcessorAccess.LeafDecides` | kernel/src/paging.c:242-246 | where tables are linked as vmm_walk links them, the processor's walk of four entries allows a user page exactly what its leaf entry allows |
| `ProcessorAccess.CheckIsProcessor` | kernel/src/uaccess.c:31-46 | so the range check accepts a range exactly when the processor would let the program access every byte |
| `ProcessorAccess.MapOpen` | kernel/src/paging.c:230-303 | vmm_map keeps bits 0, 1 and 2 set in every present entry that leads to a user-half table |
| `ProcessorAccess.RunOpen` | kernel/src/paging.c:230-337 | over any run of create, copy, map and unmap these bits stay set in every space |
| `ProcessorAccess.LoadedAccessible` | kernel/src/elf.c:42-56 | a loaded program may read and write every byte of its segments, as the processor decides |
| `UserMemory.PageWrite` | kernel/src/elf.c:69-69 | writing one user page changes that page of that space and no other page of any space |
| `UserMemory.FreshMapRefines` | kernel/src/elf.c:50-56 | allocating and mapping a page adds that page with its contents, takes 1 + missing tables frames, and keeps every user page in its own frame |
| `UserMemory.FreshMapFails` | kernel/src/paging.c:298-301 | a map without frames for its tables changes no space and leaves the page's frame unused |
| `UserMemory.NewSpaceKeepsPrivate` | kernel/src/paging.c:322-337 | a new space has no user page and disturbs nobody's |
| `UserMemory.ForkKeepsPrivate` | kernel/src/paging.c:16-77 | after a fork, complete or not, all user pages of all spaces still have frames of their own and no other space's memory changed |
| `ElfImage.LoadedBytes` | kernel/src/elf.c:29-77 | in a well-formed image a segment's byte is its file byte up to p_filesz, zero up to p_memsz, and bytes outside all segments are zero |
| `ElfImage.OverlayNext` | kernel/src/elf.c:61-70 | copying a header's file bytes over a page of the image so far gives the page of the image with that header |
| `ElfImage.MemcpyIsOverlay` | kernel/src/elf.c:61-70 | the clipped memcpy writes exactly the segment's file bytes that fall in the page |
| `ElfImage.TouchesIff` | kernel/src/elf.c:35-46 | the rounded bounds take exactly the pages a segment has a byte in |
| `ElfLoader.LoadMeaning` | kernel/src/elf.c:12-81 | loading a well-formed image into an empty user half with enough frames maps exactly the touched pages, user-writable, with exactly the image's bytes, also on shared pages; other spaces keep their memory |
| `ElfLoader.LoadedProgram` | kernel/src/elf.c:29-77 | what the program finds: only pages with a byte of a segment, flags 7; at every segment address the file's byte or zero past p_filesz; zero elsewhere in its pages |
| `ElfLoader.NewSpaceIsEmpty` | kernel/src/paging.c:322-337 | a space just created has the empty user half that loading starts from |
| `ElfLoader.LoadCompleteIffEnough` | kernel/src/elf.c:46-59 | success with every page mapped iff pages plus tables fit in the free frames |
| `ElfLoader.SilentLoad` | kernel/src/elf.c:50-56 | every one-page image loaded with one to three free frames is reported loaded although its page is not mapped |
| `ElfLoader.LoadFailsIff` | kernel/src/elf.c:50-54 | a load is given up iff a page is reached that is not mapped while no frame is left |
| `ElfLoader.BadImageRefused` | kernel/src/elf.c:16-24 | an image with a wrong magic or class is refused without change |
| `ElfLoader.LoadPageRefines` | kernel/src/elf.c:46-70 | one round of the page loop overlays one page and nothing else |
| `ElfLoader.LoadPagePrivate` | kernel/src/elf.c:46-70 | whatever happens in a round, user pages keep frames of their own and other spaces their memory |
| `ElfLoader.ElfLoad` | kernel/src/elf.c:12-81 | the loader in place computes `Load` |
| `ElfLoader.LoadSegmentInto` | kernel/src/elf.c:46-73 | the page loop in place computes `LoadPages` |
| `Tasks.InitInv` | kernel/src/task.c:56-92 | the initial table satisfies the invariant |
| `Tasks.StepKeeps` | kernel/src/syscall.c:183-389 | every step keeps: ids are slots, RUNNING is current, the free chain is exactly the unused slots but 0, blocked buffers validate, no missed rendezvous, no lost wakeup |
| `Tasks.ReceiverStillValid` | kernel/src/syscall.c:209-213 | a waiting receiver's buffer never fails its second check |
| `Tasks.SenderStillOffers` | kernel/src/syscall.c:271-273 | a blocked sender is never skipped for its buffer |
| `Tasks.ViewRange` | kernel/src/uaccess.c:11-49 | the buffer test on a task's view is the range check on its address space |
| `TaskRuns.ReachableStates` | kernel/src/syscall.c:183-299 | in every reachable state no sender is blocked on a different task that waits to receive from it, no parent sleeps while a child it awaits is dead, and the table is orderly |
| `TaskRuns.OtherTask` | kernel/src/task.c:320-348 | a step leaves a non-current task alone, except that it may be picked, woken by its partner, reaped by its parent, or its unused slot filled |
| `TaskRuns.DeadOnlyReaped` | kernel/src/syscall.c:354-360 | a DEAD task changes state only by its parent's wait |
| `TaskRuns.OnlyPartnerWakes` | kernel/src/syscall.c:203-231 | over any run, a task switched out while blocked runs again only after a matching send, receive or child exit, made while it was still asleep on the same request |
| `TaskRuns.PickIsNearest` | kernel/src/scheduler.c:76-111 | the scheduler picks the RUNNABLE slot at the least cyclic distance |
| `TaskRuns.StepNearer` | kernel/src/scheduler.c:87-97 | every decision lowers a waiting task's distance, no other step changes it |
| `TaskRuns.TicksLeftStep` | kernel/src/timer.c:45-51 | ticks to the next slice boundary fall by one per tick, across the wrap of the counter at 2^64 |
| `TaskRuns.WaitingIsBounded` | kernel/src/timer.c:45-72 | while a RUNNABLE task is not picked it stays RUNNABLE and decisions and ticks stay below its budget |
| `TaskRuns.BoundedWaiting` | kernel/src/scheduler.c:76-111 | a RUNNABLE task is picked within MAX_TASKS-1 decisions and within (MAX_TASKS-1)*20 delivered ticks, whatever the other steps |
| `TaskRuns.BlockReturnsAtOnceIff` | kernel/src/task.c:331-335 | blocking returns to the caller at once iff no other task is RUNNABLE |
| `TaskRuns.CountsAgree` | kernel/src/syscall.c:289-292 | when the receiver arrives second, both calls report the bytes moved, whatever runs in between |
| `TaskRuns.ReceiverReportsCapacity` | kernel/src/syscall.c:229-231 | when the sender arrives second, the receiver reports its capacity, equal to the bytes moved iff the message fills it |
| `TaskRuns.DeliveryNeverRefused` | kernel/src/syscall.c:203-232 | a valid send to a task waiting for it always delivers |
| `TaskRuns.ReceiveTakesFirst` | kernel/src/syscall.c:254-293 | a receive never passes over a waiting sender it accepts |
| `TaskOutcomes.DispatchOutcome` | kernel/src/timer.c:56-69 | a decision makes the nearest other RUNNABLE task RUNNING and current, leaves the old one RUNNABLE if it was RUNNING, and changes no other record; nothing when nobody else could run |
| `TaskOutcomes.TickOutcome` | kernel/src/timer.c:45-72 | a tick counts modulo 2^64; on a multiple of 20 with a task current it takes such a decision, and otherwise changes nothing |
| `TaskOutcomes.PreemptedRunsAgain` | kernel/src/timer.c:56-69 | a RUNNING task a tick preempts is picked again within MAX_TASKS-1 decisions and (MAX_TASKS-1)*20 ticks |
| `TaskOutcomes.BlockOutcome` | kernel/src/task.c:320-343 | the caller is BLOCKED with the reason, peer, buffer and length of its call, the rest of its record as it was, and a decision is taken |
| `TaskOutcomes.SendOutcome` | kernel/src/syscall.c:183-238 | exactly when a send fails, delivers or blocks; the message it moves; that only the target changes; and field by field what a blocked sender records |
| `TaskOutcomes.RecvOutcome` | kernel/src/syscall.c:240-299 | exactly when a receive fails, delivers (from the lowest accepted sender) or blocks; that only the sender changes; and field by field what a blocked receiver records |
| `TaskOutcomes.ExitOutcome` | kernel/src/syscall.c:301-327 | the caller is DEAD with its code, its parent is woken iff waiting for it, nobody else changes |
| `TaskOutcomes.WaitOutcome` | kernel/src/syscall.c:336-389 | a round reaps the lowest matching DEAD child iff there is one, fails iff there is no matching child, else blocks, and field by field what a blocked waiter records |
| `TaskOutcomes.ForkOutcome` | kernel/src/task.c:257-305 | fork succeeds iff a slot and the frames are there; the child takes an unused slot with the caller as parent; failure changes nothing |
| `TaskOutcomes.CreateOutcome` | kernel/src/task.c:130-159 | creation succeeds iff a slot and the frames are there; the task takes the first free slot, runnable and without a parent; failure changes nothing |
| `TaskMeetings.SleptThrough` | kernel/src/task.c:320-348 | a task asleep at the end of a run in which it was never current still asks for what it asked for |
| `TaskMeetings.ReceiveThenSend` | kernel/src/syscall.c:203-231 | after any run a blocked receive slept through, a valid send it accepts delivers into the buffer it named, min(256, both lengths) bytes |
| `TaskMeetings.SendThenReceive` | kernel/src/syscall.c:254-293 | after any run a blocked send slept through, a valid receive of its target that accepts it delivers, from this sender unless a lower slot also sends |
| `TaskMeetings.WaitThenExit` | kernel/src/syscall.c:309-325 | after any run a blocked wait slept through, the exit of a child it asked for makes it RUNNABLE |
| `TaskMeetings.ExitThenWait` | kernel/src/syscall.c:343-362 | after an exit, and any run that leaves the child DEAD, a matching wait of its parent returns a child |
| `TaskTable.Machine.constructor` | kernel/src/task.c:56-92 | the initialised table is `Init`, slots chained in ascending order without slot 0 |
| `TaskTable.Machine.SlotAlloc` | kernel/src/task.c:94-106 | pops the first free slot, or nothing when the chain is empty |
| `TaskTable.Machine.SlotFree` | kernel/src/task.c:108-117 | pushes the slot and clears its record |
| `TaskTable.Machine.Destroy` | kernel/src/task.c:186-203 | reaps a slot in use, refuses an unused one |
| `TaskTable.Machine.FindById` | kernel/src/task.c:307-318 | the loop finds the task in use with that id |
| `TaskTable.Machine.PickTask` | kernel/src/scheduler.c:76-111 | the search loop computes `PickNext` |
| `TaskTable.Machine.TimerTick` | kernel/src/timer.c:45-72 | the tick handler in place computes `Tick` and keeps the invariant |
| `TaskTable.Machine.BlockAndSwitch` | kernel/src/task.c:320-343 | computes `Block` |
| `TaskTable.Machine.SysSend` | kernel/src/syscall.c:183-238 | the call in place computes `Send` and keeps the invariant |
| `TaskTable.Machine.SysRecv` | kernel/src/syscall.c:240-299 | the call in place computes `Recv` and keeps the invariant |
| `TaskTable.Machine.SysExit` | kernel/src/syscall.c:301-327 | the call in place computes `Exit` and keeps the invariant |
| `TaskTable.Machine.SysWait` | kernel/src/syscall.c:341-388 | one round in place computes `Wait` and keeps the invariant |
| `TaskTable.Machine.SysFork` | kernel/src/syscall.c:9-18 | the call in place computes `Fork` and keeps the invariant |
| `TaskTable.Machine.CreateTask` | kernel/src/task.c:130-159 | creation in place computes `Spawn` and keeps the invariant |
| `Delivery.DeliveryExact` | kernel/src/syscall.c:215-227 | a transfer writes exactly the sender's bytes at the receiver's buffer and changes no other user byte of any space |
| `Delivery.SendDelivers` | kernel/src/syscall.c:207-231 | a completed send moves min(256, its length, the receiver's length) bytes between buffers valid in their own spaces |
| `Delivery.RecvDelivers` | kernel/src/syscall.c:269-292 | a completed receive moves min(256, its length, the sender's length) bytes between buffers valid in their own spaces |
| `Delivery.Copier.CopyToTarget` | kernel/src/syscall.c:215-227 | the copy loops of send compute `Deliver` and restore the caller's address space |
| `Delivery.Copier.CopyFromSender` | kernel/src/syscall.c:275-287 | the copy loops of receive compute `Deliver` and restore the caller's address space |
| `KernelSystem.SystemStepKeeps` | kernel/src/syscall.c:183-389 | every step of tasks and memory together keeps the task invariant, private user pages, and task views equal to their page tables |
| `KernelSystem.ReachableSystems` | kernel/src/syscall.c:183-389 | so in every reachable state each task's view is what its tables say and every user page has a frame of its own |
| `KernelSystem.EveryTransferExact` | kernel/src/syscall.c:203-293 | in every such state a completed send or receive moves exactly the sender's bytes and changes no other user byte of any space |
| `KernelSystem.ForkSucceedsIff` | kernel/src/task.c:257-305 | fork brings a slot into use with all of its parent's memory iff a slot is free and 2 + pages + tables frames are |
| `KernelSystem.CreateSucceedsIff` | kernel/src/task.c:130-159 | creation brings a slot into use iff a slot and two frames are free; the new space has no user page |
| `KernelSystem.RunProjects` | kernel/src/task.c:257-305 | every run of the system is a run of the task machine, so the run results for tasks hold of it |
| `SystemAccess.ViewIsProcessor` | kernel/src/paging.c:242-246 | in every reachable state the processor allows a task exactly what the task's view says |
| `ContextSwitch.EntryLayout` | kernel/src/syscall_entry.S:9-25 | the pushes lay out struct syscall_regs field by field at the top of the kernel stack |
| `ContextSwitch.ReturnReads` | kernel/src/syscall_entry.S:36-61 | returning through struct syscall_regs restores exactly the user state it describes |
| `ContextSwitch.SyscallRoundTrip` | kernel/src/syscall_entry.S:9-61 | a call that completes returns to its caller with only rax changed |
| `ContextSwitch.SwitchRoundTrip` | kernel/src/context_switch.S:4-27 | over any sequence of switches a resumed task has the callee-saved registers, return address and stack pointer it left with |
| `ContextSwitch.RunKeepsSuspended` | kernel/src/context_switch.S:4-27 | a suspended task's saved frame survives everything the others do |
| `ContextSwitch.InitialFrameResumes` | kernel/src/task.c:229-244 | the initial frame resumes at its return address with only r12 nonzero |
| `ContextSwitch.ForkFrameBuilt` | kernel/src/task.c:278-296 | the fork frame holds the parent's registers with rax 0 and a saved context that leads to the return path |
| `ContextSwitch.ForkedChildResumes` | kernel/src/task.c:278-296 | after any run, switching to the child and returning gives the parent's user state with rax 0 |
| `ContextSwitch.PreparedTaskStarts` | kernel/src/task.c:350-375 | a prepared task first runs with rip its entry, rsp its stack, cs 0x23, ss 0x1B, rflags 0x202 and zeroed registers |
| `ContextSwitch.Processor.ContextSwitch` | kernel/src/context_switch.S:4-27 | the pushes, the stack exchange and the pops in place compute `SaveContext` and `LoadContext` |
| `ContextSwitch.Processor.BuildForkFrame` | kernel/src/task.c:278-296 | the frame written word by word is `ForkFrame` |
| `HeapLayout.LayoutBounds` | kernel/src/kheap.c:30-86 | every block lies in the heap window, 8-aligned |
| `HeapLayout.LayoutDisjoint` | kernel/src/kheap.c:72-86 | no block, header or payload, overlaps another |
| `HeapLayout.CoalesceIsComplete` | kernel/src/kheap.c:193-204 | after the merge loop no two list neighbours can be merged |
| `HeapLayout.CoalesceKeepsLayout` | kernel/src/kheap.c:193-204 | merging keeps every extent tiled and never crosses extents |
| `HeapLayout.CoalesceKeepsLive` | kernel/src/kheap.c:193-204 | merging keeps the live blocks |
| `HeapLayout.MallocKeepsCoalesced` | kernel/src/kheap.c:154-160 | serving a request from the list keeps it fully merged |
| `HeapLayout.MallocFreeRoundTrip` | kernel/src/kheap.c:146-207 | a kmalloc served from the list followed by its kfree restores the block list exactly |
| `HeapLayout.AllFreeIsOneBlockPerExtent` | kernel/src/kheap.c:183-207 | when everything is freed one block per extension remains |
| `HeapLayout.FirstFit` | kernel/src/kheap.c:61-70 | the first free block large enough |
| `HeapLayout.CarveOutcome` | kernel/src/kheap.c:72-86 | a block is split iff it has at least 40 bytes more than asked for; the rest is a free block 24 bytes behind the payload |
| `KernelHeap.RequestBound` | kernel/src/kheap.c:26-28 | size rounding and page count are exact iff the request is below `MAX_REQUEST` |
| `KernelHeap.BandRequest` | kernel/src/kheap.c:165-177 | requests from `MAX_REQUEST` to 2^64 - 16 fit no block, ask for at most one page and get a header for a block those pages cannot hold |
| `KernelHeap.Heap.HeapExtend` | kernel/src/kheap.c:30-53 | heap_next advances by exactly the pages the window and the page supply allow; success iff that is all of them; heap_end moves only on success |
| `HeapPages.ExtentMappedIff` | kernel/src/kheap.c:30-53 | an extension succeeds with every page mapped iff its pages and the tables they lack fit in the free frames |
| `HeapPages.ExtentFrames` | kernel/src/kheap.c:36-48 | then page i of the extent is mapped to g_i with flags 3, the g_i are distinct zeroed frames from the free list, neither listed nor tables afterwards, and no other page changes |
| `HeapPages.ExtendFailsIff` | kernel/src/kheap.c:36-39 | an extension is given up iff a page of it is reached with every frame taken |
| `HeapPages.SilentExtension` | kernel/src/kheap.c:46-48 | with frames for a page but not for its missing tables, the extension succeeds and the page is not mapped |
| `HeapPages.HeapExtend` | kernel/src/kheap.c:30-53 | the loop over the memory manager computes `Extend`, and stops early only at the window's end or without frames |
| `KernelHeap.Heap.FindFreeBlock` | kernel/src/kheap.c:61-70 | the list walk finds the first fit, or NULL iff there is none |
| `KernelHeap.Heap.SplitBlock` | kernel/src/kheap.c:72-86 | the list in memory has the block replaced by its two parts, and memory outside the block is untouched |
| `KernelHeap.Heap.Kmalloc` | kernel/src/kheap.c:146-181 | keeps the layout; a returned payload is 8-aligned, not live before and the only new live block, less than 40 bytes above the rounded request, and holds the request iff it is below `MAX_REQUEST`; no live payload word changes; first fit is used when there is one, else it succeeds iff the extension does and the new extent goes in front |
| `KernelHeap.Heap.Kfree` | kernel/src/kheap.c:183-207 | keeps the layout fully merged; exactly the freed block stops being live; no live payload word changes |
| `KernelHeap.Heap.MergeLoop` | kernel/src/kheap.c:193-204 | the loop over the linked headers terminates and computes `Coalesce` |
| `BootMemory.AllocInsideIff` | kernel/src/physical_page_management.c:56-77 | bytes handed out lie in the region iff the request is below 2^64 - 2^52 |
| `BootMemory.WrappedRequest` | kernel/src/physical_page_management.c:63-66 | every wrapping request that lands in range is granted and moves the frontier back |
| `BootMemory.AllocKeeps` | kernel/src/physical_page_management.c:56-77 | allocations stay pairwise disjoint, each inside one usable region behind the frontier |
| `BootMemory.AllocOutcome` | kernel/src/physical_page_management.c:56-77 | frontier and allocations stay in order iff nothing was granted or the request is below 2^64 - 2^52 |
| `BootMemory.AllocGrants` | kernel/src/physical_page_management.c:59-76 | a request is granted iff some entry at or after the frontier has room, in the first such entry and from its first free byte, and the frontier moves just behind |
| `BootMemory.Boot.constructor` | kernel/src/physical_page_management.c:40-54 | the frontier starts at the base of the first usable region |
| `BootMemory.Boot.FindNextUsable` | kernel/src/physical_page_management.c:27-38 | the loop finds the next usable entry |
| `BootMemory.Boot.MaxAddr` | kernel/src/page_alloc.c:29-38 | the loop finds the end of the highest usable entry |
| `BootMemory.Boot.BootAlloc` | kernel/src/physical_page_management.c:56-77 | for every request below 2^64 - 2^52, granted in the first entry with room, from its first free byte, and refused iff no entry has room; all allocations stay apart and inside one region each iff nothing was granted or the request is below that bound |
| `BootMemory.ListedIsWhole` | kernel/src/page_alloc.c:60-77 | the rounded bounds select exactly the frames whose bytes are all usable and past the frontier |
| `BootMemory.HandedMeetsNoAllocation` | kernel/src/page_alloc.c:57-84 | no listed frame meets any boot allocation, the pages array included |
| `BootMemory.Boot.FrameAllocInit` | kernel/src/page_alloc.c:28-84 | the pages array has one entry per frame below the highest usable address and is granted as boot_alloc grants; fails iff it is not; else the list holds, once each, exactly the whole usable frames past the frontier, and is the frame list the memory manager starts from |
| `BootMemory.Boot.ListRegion` | kernel/src/page_alloc.c:76-83 | every frame of the range is listed: the index guard never fires |
| `LinkedLists.ListDistinct` | kernel/src/page_alloc.c:185-187 | a chain that ends visits no slot twice |
| `LinkedLists.NullLinkIsLast` | kernel/src/page_alloc.c:171-171 | a listed slot has a null link iff it is the last |
| `Frames.AllocTakes` | kernel/src/page_alloc.c:144-166 | page_alloc takes the head, which was not held, and keeps the list |
| `Frames.FreeReturns` | kernel/src/page_alloc.c:168-180 | freeing a held frame puts it on the list |
| `Frames.DoubleFreeRefusedIff` | kernel/src/page_alloc.c:171-177 | freeing a listed frame is refused without change unless it is the last; then no chain from the head ends |
| `Frames.Conservation` | kernel/src/page_alloc.c:144-190 | over any run that frees only held frames the list has no repeats, no frame is both held and listed, and listed plus held frames never change |
| `Frames.AllocRefines` | kernel/src/page_alloc.c:144-156 | popping the linked list is taking the first frame of the memory manager's list |
| `Frames.RepresentsFreeList` | kernel/src/page_alloc.c:55-84 | a linked list of frames is a duplicate-free frame list inside memory, as the memory manager requires |
| `Frames.Allocator.PageAlloc` | kernel/src/page_alloc.c:144-156 | computes `Alloc` |
| `Frames.Allocator.PageFree` | kernel/src/page_alloc.c:168-180 | computes `Free` |
| `Frames.Allocator.CountFree` | kernel/src/page_alloc.c:182-190 | counts the listed frames |

## Left out

- GDT, IDT, PIC, PIT, LAPIC, serial and port I/O: hardware set-up without state to reason about.
- CR3 loads, invlpg, the TLB, the TSS and segment registers: only the current address space is a variable.
- Spinlocks: on one CPU with interrupts off they only justify treating each call and tick as one step.
- Printing, dumps, memmove, memcmp and string helpers; memcpy and memset are primitives.
- kmain, the stress test and userland; tasks the boot tests destroy while runnable.
- Large pages: slots of the root table that hold them are outside the tracked slots and not interpreted.
- sys_write and syscall_dispatch's switch: the range check is modelled, the rest is output and selection.
- Raw decoding of ELF headers: an image is given with its headers decoded, together with the memory its segments are read from; images with a loadable segment outside the user half are not modelled.
- Whole-task reclamation of frames and the idle task: the code has neither.
- accessed, dirty and no_execute: one-line flag tests nothing depends on.
- KernelHeap.Heap.Kmalloc: requests in the band `BandRequest` describes, after which the header written overlaps or leaves the heap; the page supply is the parameter `granted`, and `HeapPages` says when the pages it counts are mapped.
- KernelHeap.Heap.Kfree: pointers that kmalloc did not return, and double frees, which the code does not detect.
- BootMemory.Boot.BootAlloc: usable entries are taken to be disjoint, at nonzero bases and within 52-bit physical addresses.
- TaskTable.Machine.SysWait: one round is a step; since a round may return with its caller still current, no termination of the whole call is claimed.
- TaskTable.Machine.SysFork: in the table alone the frames a new task needs are the parameter `ok` and its address space the parameter `view`; `KernelSystem` determines both from memory.
- TaskTable.Machine.CreateTask: as for SysFork.
- TaskOutcomes.ForkOutcome: as for SysFork; `KernelSystem.ForkSucceedsIff` gives the condition on memory.
- Delivery.SendDelivers: assumes that task views match page tables, which `KernelSystem.ReachableSystems` proves of every reachable state.
- Delivery.RecvDelivers: as for SendDelivers.
- KernelHeap.Heap.HeapExtend: the page supply is a parameter here; `HeapPages.HeapExtend` takes frames and maps them.
- ElfLoader.ElfLoad: images with a loadable segment outside the user half, as above.
- ElfLoader.LoadSegmentInto: as for ElfLoad.
- ContextSwitch.SwitchRoundTrip: kernel stacks are one page, as task.c allocates, and are taken not to overflow.
