# JarvOS in Dafny

JarvOS is a small 32-bit x86 kernel. This project models its scheduler and context switch, its
physical and virtual memory managers, its kernel heap, its in-memory file system, its message queues
and two string routines, and proves what each of them keeps over every run.

The kernel works in place on arrays, bit maps, page tables, linked lists and headers inside memory, and
so do the classes here. Each class is proved against functions on plain values (`Abs() == Irq(old(Abs()))`
and the like), and the properties are lemmas about those functions and about whole runs of them.

| file | what it holds |
|---|---|
| `SchedulerSpec`, `SchedulerInv`, `SchedulerRuns` | scheduler states and operations as values, the invariant, runs |
| `Scheduler` | the process table, the four ready queues, the sleep list and the free list as linked arrays |
| `ContextSwitch`, `MachineRuns`, `Kernel` | saving and restoring contexts on stacks; scheduler, processor and memory together |
| `LostContext` | runs from boot in which a yield loses a context |
| `PageBitmap` | the page bitmap as a set of free pages |
| `Paging`, `PagingRuns`, `Vmm` | two-level page tables as a flat page map, runs of the operations on them, the operations on memory |
| `HeapSpec`, `HeapMemory`, `HeapPages`, `HeapRuns`, `HeapSystem`, `Heap` | the heap as blocks, headers inside memory, the frames behind the heap, runs with the bytes of the blocks, runs among other users of pages, kmalloc, kfree and krealloc |
| `MessageQueue` | rings of 16 messages as queues |
| `CString` | memmove and strtok |
| `Ramfs` | growable files behind file descriptors as byte sequences |
| `DirTree` | doubly linked sibling lists and path resolution |
| `KernelBase` | constants and 32-bit conversions that several of these use |

Where the code does not do what one would expect of it, the code is modelled as it is, and a lemma says
exactly when the expectation holds:

- A tick saves the context of the process on the processor where that process can find it if and only
  if the scheduler has a current process, or the process on the processor has exited, or its old stack
  pointer happens to be the right one. After a yield the scheduler has no current process, and the tick
  stores the stack pointer at an address near zero: `MachineRuns.IrqExact`,
  `MachineRuns.YieldLosesContext`. A process that yields in its first slice always loses its context,
  and from every boot a create, a tick and a yield lead there: `LostContext.FirstSliceLoses`,
  `LostContext.FirstYieldLoses`.
- Exit keeps the scheduler's invariant if and only if it is not the idle process that exits:
  `SchedulerInv.ExitInv`.
- A sleep lasts the requested number of ticks, but at least 2, if and only if the 32-bit wake tick does
  not wrap or no more than these 2 ticks were asked for: `SchedulerRuns.SleepLastsAsAsked`.
- Reserving a range of memory covers every page that the range touches if and only if its end is on a
  page boundary or outside the managed memory, or its last page was taken already:
  `PageBitmap.ReserveTakesAll`.
- A store into a page table keeps the first 80MB present and mapped to themselves if and only if it is
  above 80MB or maps its page to itself: `Paging.IdentityKept`. Over runs of such operations every
  pointer to a frame reaches that frame: `PagingRuns.EveryRunReachesFrames`.
- Rounding a request and counting its pages give enough room if and only if the sums do not wrap:
  `HeapSpec.Round8Fits`, `HeapSpec.PagesFit`; so a block returned by kmalloc has the size asked for if
  and only if rounding did not wrap: `Heap.MallocGives`. A growth writes its headers into the new pages,
  one behind the other, if and only if counting the pages does not wrap: `HeapSpec.GrowthExact`.
- The copy of krealloc stays inside the new block if and only if rounding does not wrap, or there is
  nothing to copy, or the first free block is too small to be split and large enough for the old bytes:
  `HeapSpec.CopyExact`.
- kmalloc fails if and only if nothing was asked for, or no free block fits and the heap cannot grow;
  and it cannot grow if and only if it would leave the address space or there are fewer free pages than
  the pages needed plus the page tables missing in their range: `Heap.Heap.Kmalloc`,
  `HeapPages.ShortExact`. A growth that fails leaves at most one free page in the whole system; it costs
  nothing if and only if not even its first page could be mapped: `HeapPages.GrewCosts`.
- A typed receive takes its message out of the queue and leaves the others if and only if the message
  is at the head: `MessageQueue.ReceiveExact`, `MessageQueue.ReceiveLoses`. Over a run the ring follows
  the queue at every step if and only if every receive does that: `MessageQueue.TracksExact`.
- The doubling loop of a write ends if and only if the write ends at 2^31 or below, or its end wraps
  around in 32 bits to there. In the second case a copy that gets its memory runs
  over the buffer, and only then:
  `Ramfs.DoublingEnds`, `Ramfs.CopyStays`, `Ramfs.SpillExact`, `Ramfs.WrappedWrite`. A read stays inside
  its file if and only if its end does not wrap: `Ramfs.ReadExact`.
- A write that cannot grow its file throws the contents away; no offset is past the end of a file
  afterwards if and only if no descriptor of that file had moved. Every other write keeps the offsets
  inside their files if and only if it fails, or ends below 2^31, or is of 2^31 bytes or more, since its
  result is then negative and nothing is advanced: `Ramfs.WriteKeepsOffsets`, `Ramfs.DroppedFile`.
- Adding a node to a directory keeps every child under one directory if and only if the node is in no
  list and is not the root: `DirTree.AddKeeps`. It keeps a forest if and only if in addition the
  directory is not in the subtree of the node: `DirTree.AddForest`, and over runs
  `DirTree.EveryRunForest`. Removing a node keeps the lists linked if and only if it
  is a child of that directory, or is in no list and the directory is empty, or has a sibling on both
  sides in another directory: `DirTree.RemoveExact`.

Comments in the source that the code contradicts: `kernel/ipc/msg.c:24-32` prepares new queues with an
id, but `sys_msgget` never calls it, so no queue ever gets an id, and in every run after `msg_init` every
send, receive and control call fails (`MessageQueue.EveryRunFails`); the comment on
`kernel/fs/vfs.c:261` announces a normalized path, but the path is only copied.

## Model

| member | source | states |
|---|---|---|
| `SchedulerInv.InitInv` | kernel/process/scheduler.c:38-69 | the initial scheduler, with every pool slot free and idle current, satisfies the invariant |
| `SchedulerInv.WakeStep` | kernel/process/scheduler.c:121-136 | one turn of the wake loop leaves its sleeper in place or moves it to the tail of the queue of its priority |
| `SchedulerInv.WakeInv` | kernel/process/scheduler.c:121-136 | the wake pass keeps each control block in its one place |
| `SchedulerInv.PickTop` | kernel/process/scheduler.c:139-150 | the process picked is the head of the highest non-empty queue, and none is picked only if all queues are empty |
| `SchedulerInv.DispatchInv` | kernel/process/scheduler.c:252-267 | a tick always finds a process, and the dequeue removes the very process that was picked |
| `SchedulerInv.PreemptInv` | kernel/process/scheduler.c:235-250 | taking the current process off the processor keeps the invariant |
| `SchedulerInv.IrqInv` | kernel/core/idt.c:220-226 | the timer interrupt keeps the invariant |
| `SchedulerInv.CreateInv` | kernel/process/scheduler.c:152-201 | creating a process keeps the invariant, also when no slot or no stack is left |
| `SchedulerInv.YieldInv` | kernel/process/scheduler.c:209-219 | yielding keeps the invariant |
| `SchedulerInv.SleepInv` | kernel/process/scheduler.c:221-233 | going to sleep keeps the invariant |
| `SchedulerInv.ReturnInv` | kernel/process/scheduler.c:12-19 | the return of an entry function keeps the invariant |
| `SchedulerInv.ExitInv` | kernel/syscall.c:201-211 | exit keeps the invariant if and only if the process is not idle |
| `SchedulerRuns.Next` | kernel/process/scheduler.c:152-267 | every step of every run keeps the invariant |
| `SchedulerRuns.EveryRunInv` | kernel/process/scheduler.c:152-267 | so in every state of every run whose first state satisfies the invariant |
| `SchedulerRuns.OnePlace` | kernel/process/scheduler.c:72-150 | each control block is in exactly one of: free list, queue of its own priority, sleep list, processor, returned |
| `SchedulerRuns.EveryRunPlaces` | kernel/process/scheduler.c:72-267 | so in every state that a run from the start reaches, and no slot occurs twice in the lists |
| `SchedulerRuns.TickPicksTop` | kernel/process/scheduler.c:235-258 | in every state a tick runs the head of the highest non-empty queue; its fallback without a process is never reached |
| `SchedulerRuns.TickAdvances` | kernel/process/scheduler.c:89-114 | with no higher priority ready, one tick moves a waiting process exactly one place forward |
| `SchedulerRuns.BoundedWaiting` | kernel/process/scheduler.c:89-150 | over every run with no higher priority ready at the picks, position k gets the processor on exactly the tick k+1, whatever else wakes, is created or yields |
| `SchedulerRuns.WakeIsStable` | kernel/process/scheduler.c:121-136 | the wake pass is a stable partition: exactly the due sleepers go to their queues, in list order |
| `SchedulerRuns.WakeLeavesNoneDue` | kernel/process/scheduler.c:121-136 | after the wake pass no due task is asleep |
| `SchedulerRuns.DozingWakes` | kernel/process/scheduler.c:221-250 | a task that has asked to sleep stays asleep before the tick it asked for and is awake on it, over every run |
| `SchedulerRuns.SleepTiming` | kernel/process/scheduler.c:221-233 | the number of ticks that a sleep of ms milliseconds lasts, over every run |
| `SchedulerRuns.SleepLastsAsAsked` | kernel/process/scheduler.c:221-233 | that number is the one asked for, but at least 2, if and only if the 32-bit sum does not wrap or at most 2 ticks were asked for |
| `SchedulerRuns.OnlyNewSleepersDue` | kernel/process/scheduler.c:235-250 | after a tick only a task put to sleep in that tick can be asleep although due |
| `Scheduler.Scheduler.Initialize` | kernel/process/scheduler.c:38-69 | the arrays after scheduler_init |
| `Scheduler.Scheduler.LinkPool` | kernel/process/scheduler.c:38-69 | the loop that links the pool |
| `Scheduler.Scheduler.AllocateProcess` | kernel/process/scheduler.c:72-80 | the head of the free list is taken, or NULL returned with nothing changed |
| `Scheduler.Scheduler.ReleaseProcess` | kernel/process/scheduler.c:83-86 | the block becomes the head of the free list |
| `Scheduler.Scheduler.Enqueue` | kernel/process/scheduler.c:89-100 | the process becomes the last of its queue and the tail points to it |
| `Scheduler.Scheduler.Dequeue` | kernel/process/scheduler.c:103-114 | the head leaves its queue and the tail is repaired |
| `Scheduler.Scheduler.EnqueueSleep` | kernel/process/scheduler.c:116-119 | the process becomes the head of the sleep list |
| `Scheduler.Scheduler.CheckSleepers` | kernel/process/scheduler.c:121-136 | unlinking while walking computes the stable partition |
| `Scheduler.Scheduler.VisitSleeper` | kernel/process/scheduler.c:121-136 | one turn of the loop, with the predecessor that stays |
| `Scheduler.Scheduler.PickNext` | kernel/process/scheduler.c:139-150 | the loop over the queues finds what Pick says |
| `Scheduler.Scheduler.CreateProcess` | kernel/process/scheduler.c:152-201 | the arrays after a create, with its two failures |
| `Scheduler.Scheduler.YieldCurrent` | kernel/process/scheduler.c:209-219 | the arrays after a yield |
| `Scheduler.Scheduler.SleepCurrent` | kernel/process/scheduler.c:221-233 | the arrays after a sleep, up to the waiting loop |
| `Scheduler.Scheduler.ExitCurrent` | kernel/syscall.c:201-211 | the arrays after an exit |
| `Scheduler.Scheduler.TaskReturned` | kernel/process/scheduler.c:12-19 | the arrays after an entry function returned |
| `Scheduler.Scheduler.Reschedule` | kernel/process/scheduler.c:235-267 | the arrays after scheduler_tick, up to the context switch |
| `Scheduler.Scheduler.Interrupt` | kernel/core/idt.c:220-226 | the arrays after a timer interrupt, up to the context switch |
| `ContextSwitch.PushedFrame` | kernel/process/context_switch.asm:3-18 | the five words saved hold the caller's context, and nothing outside the 28 bytes below its stack pointer changes |
| `ContextSwitch.FirstFrameWords` | kernel/process/scheduler.c:183-192 | the first frame of a process resumes in the trampoline with zero registers |
| `ContextSwitch.PopRestores` | kernel/process/context_switch.asm:3-18 | popping gives back a context if and only if the frame holds it |
| `ContextSwitch.Cpu.Switch` | kernel/process/context_switch.asm:3-18 | the pushes, the switch of stacks and the pops, instruction by instruction |
| `MachineRuns.SwitchGood` | kernel/process/scheduler.c:252-267 | a switch keeps every suspended frame intact and resumes the next process with the context it was suspended with |
| `MachineRuns.SwitchBad` | kernel/process/scheduler.c:252-267 | a switch that does not save the context of the process it leaves loses it |
| `MachineRuns.IrqExact` | kernel/process/scheduler.c:235-267 | a tick keeps and restores contexts if and only if it saves the context of the process it leaves |
| `MachineRuns.YieldLosesContext` | kernel/process/scheduler.c:209-219 | the tick after a yield loses the context of the process that yielded |
| `MachineRuns.CreateGood` | kernel/process/scheduler.c:152-201 | creating a process on a free page adds an intact first frame and disturbs no other stack |
| `MachineRuns.FailedCreateGood` | kernel/process/scheduler.c:168-174 | a create without a stack disturbs nothing |
| `MachineRuns.ExitGood` | kernel/syscall.c:201-211 | exit keeps every suspended frame intact |
| `MachineRuns.SleepGood` | kernel/process/scheduler.c:221-233 | sleep keeps every suspended frame intact |
| `MachineRuns.ReturnGood` | kernel/process/scheduler.c:12-19 | the return of an entry function keeps every suspended frame intact |
| `MachineRuns.BootGood` | kernel/process/scheduler.c:38-69 | the machine after scheduler_init is sound |
| `MachineRuns.StepGood` | kernel/process/scheduler.c:152-267 | every step keeps the machine sound, ticks under the condition of IrqExact |
| `MachineRuns.EveryRunRestores` | kernel/process/scheduler.c:152-267 | over every run each suspended process has an intact frame on its own stack and is resumed with exactly the context it was suspended with |
| `LostContext.FirstSliceLoses` | kernel/process/scheduler.c:183-219 | a process that yields while its stack pointer is the one its creation stored always loses its context at the next tick |
| `LostContext.CreatedFirst` | kernel/process/scheduler.c:152-201 | the process created right after boot gets the processor at the first tick |
| `LostContext.FirstYieldLoses` | kernel/process/scheduler.c:38-267 | from every boot, with every priority and free page: create, tick and yield is a run that saves every context, and the next tick loses one |
| `LostContext.SomeRunLoses` | kernel/process/scheduler.c:38-267 | there is a boot from which this happens |
| `Kernel.Kernel.TimerInterrupt` | kernel/core/idt.c:220-226 | the interrupt on the scheduler's arrays, memory and registers together does what IrqOn says |
| `Kernel.Kernel.SwitchFrom` | kernel/process/scheduler.c:252-267 | the context switch at the end of a tick |
| `Kernel.Kernel.StoreTop` | kernel/process/context_switch.asm:3-18 | the stack pointer is stored in the block of the previous process, or near address zero without one |
| `Kernel.Kernel.CreateProcess` | kernel/process/scheduler.c:152-201 | the create together with the stores that build the first frame |
| `Kernel.Kernel.BuildFrame` | kernel/process/scheduler.c:183-192 | the stores of the first frame |
| `PageBitmap.MaskIsShift` | kernel/memory/pmm.c:29-56 | the mask of a bit is 1 shifted to its position |
| `PageBitmap.BitUpdate` | kernel/memory/pmm.c:59-94 | setting or clearing a bit of a byte changes that bit and no other |
| `PageBitmap.SetFree` | kernel/memory/pmm.c:77-94 | setting the bit of a page adds that page to the free set and nothing else |
| `PageBitmap.ClearFree` | kernel/memory/pmm.c:59-74 | clearing it removes that page and nothing else |
| `PageBitmap.ZeroByte` | kernel/memory/pmm.c:59-74 | a byte that is zero holds no free page, so that the search may skip it |
| `PageBitmap.Pmm.Init` | kernel/memory/pmm.c:29-56 | after initialization exactly the pages from 2MB on are free |
| `PageBitmap.Pmm.Alloc` | kernel/memory/pmm.c:59-74 | the lowest free page is returned, aligned and in range, and leaves the set; 0 if the set is empty |
| `PageBitmap.Pmm.FreePage` | kernel/memory/pmm.c:77-94 | the page joins the set; addresses outside are ignored |
| `PageBitmap.Pmm.MarkReserved` | kernel/memory/pmm.c:97-122 | the pages that the rounded range covers leave the set |
| `PageBitmap.Pmm.FreeMemory` | kernel/memory/pmm.c:130-142 | the count is 4096 times the size of the free set |
| `PageBitmap.FreeBelowStep` | kernel/memory/pmm.c:130-142 | counting bit by bit counts the set |
| `PageBitmap.FreeAtMost` | kernel/memory/pmm.c:130-142 | there are never more free pages than pages |
| `PageBitmap.OnlyFreedComesBack` | kernel/memory/pmm.c:59-122 | in every run a page becomes free only by being freed |
| `PageBitmap.NoDoubleHandout` | kernel/memory/pmm.c:59-94 | in every run a page is not handed out twice without a free between |
| `PageBitmap.ReservedNotHandedOut` | kernel/memory/pmm.c:29-94 | in every run no page below 2MB is handed out unless it was freed |
| `PageBitmap.ReserveTakesAll` | kernel/memory/pmm.c:97-122 | reserving covers every page the range touches, if and only if the end is aligned, outside, or its page taken |
| `Paging.EntryParts` | kernel/memory/vmm.c:98-139 | the entry stored is present and refers to the frame given |
| `Paging.PutPte` | kernel/memory/vmm.c:98-162 | a store into a page table changes the flat map at one page, in the directories that share its table |
| `Paging.AddTable` | kernel/memory/vmm.c:98-139 | linking a new cleared table changes no entry of the flat map and keeps tables distinct |
| `Paging.AddDir` | kernel/memory/vmm.c:78-95 | a new directory agrees with the others below 80MB and maps nothing above |
| `Paging.PutPde` | kernel/memory/vmm.c:166-181 | changing flags of a directory entry changes no entry of the flat map |
| `Paging.MarkOneSets` | kernel/memory/vmm.c:166-181 | marking a page for users sets the user bit of that page's entry alone |
| `Paging.PointersReachFrames` | kernel/memory/vmm.c:23-75 | with the low pages present and mapped to themselves, physical addresses used as pointers reach their frames in every address space |
| `Paging.IdentityKept` | kernel/memory/vmm.c:98-162 | a store into a page table keeps that if and only if it is above 80MB or maps the page to itself; unmapping a low page does not |
| `Paging.FreshFrameKeepsIdentity` | kernel/memory/vmm.c:78-139 | filling a free frame as a new table or directory keeps it |
| `Paging.PutPdeKeepsIdentity` | kernel/memory/vmm.c:98-139 | so does linking a table into a directory |
| `Paging.MarkOneKeepsIdentity` | kernel/memory/vmm.c:166-181 | so does marking a page for users |
| `Paging.InitialStructure` | kernel/memory/vmm.c:23-75 | the initial tables map the first 80MB to themselves and nothing else |
| `PagingRuns.InitialOk` | kernel/memory/vmm.c:23-75 | the state after vmm_init has the table structure and the low pages mapped to themselves |
| `PagingRuns.MapSets` | kernel/memory/vmm.c:98-139 | mapping, with or without a new table, keeps the structure and changes the flat map at one page, or does nothing without a page |
| `PagingRuns.UnmapSets` | kernel/memory/vmm.c:142-162 | unmapping keeps the structure and sets the flat map to 0 at one page |
| `PagingRuns.AllocMapSets` | kernel/memory/vmm.c:183-193 | allocating and mapping maps the lowest free page, or changes nothing if the pages do not suffice |
| `PagingRuns.MarkedSets` | kernel/memory/vmm.c:166-181 | the marking loop keeps the structure and sets exactly the user bits of the pages of its range that have a table |
| `PagingRuns.SpaceKeeps` | kernel/memory/vmm.c:78-95 | a new address space keeps the structure and every page of the others |
| `PagingRuns.NextOk` | kernel/memory/vmm.c:78-193 | every operation keeps the table structure |
| `PagingRuns.LowPagesAgree` | kernel/memory/vmm.c:78-193 | after every run of operations all address spaces agree on every page below 80MB; the structure is known of the first state only |
| `PagingRuns.SpacesIsolated` | kernel/memory/vmm.c:78-193 | in every run operations on other address spaces never change a page above 80MB |
| `PagingRuns.NextIdentity` | kernel/memory/vmm.c:78-193 | every operation that maps low pages only to themselves keeps the low pages mapped to themselves |
| `PagingRuns.EveryRunReachesFrames` | kernel/memory/vmm.c:23-193 | after every run of such operations a pointer to any frame, in any address space, reaches that frame |
| `Vmm.Vmm.Init` | kernel/memory/vmm.c:23-75 | the loops build the initial tables; pages from 2MB on are free |
| `Vmm.Vmm.GetPhysicalAddress` | kernel/memory/vmm.c:196-212 | the lookup is the flat map |
| `Vmm.Vmm.MapPage` | kernel/memory/vmm.c:98-139 | the flat map changes at one page; failure, exactly when a table is needed and no page is free, changes nothing; the low pages stay mapped to themselves unless one is mapped elsewhere |
| `Vmm.Vmm.UnmapPage` | kernel/memory/vmm.c:142-162 | the flat map becomes 0 at that page and stays the same elsewhere |
| `Vmm.Vmm.AllocMapPage` | kernel/memory/vmm.c:183-193 | all or nothing: success takes one page, and one more exactly when the table was missing; failure changes neither free pages nor memory |
| `Vmm.Vmm.CreateAddressSpace` | kernel/memory/vmm.c:78-95 | the new space shares the low pages and is empty above; the others keep every page and the low pages stay mapped to themselves |
| `Vmm.Vmm.MarkUserRange` | kernel/memory/vmm.c:166-181 | exactly the pages of the range get the user bit, with the end of the range computed in 32 bits |
| `Vmm.Vmm.SwitchDirectory` | kernel/memory/vmm.c:215-218 | lookups go on in the directory given |
| `Vmm.PagesTaken` | kernel/memory/vmm.c:183-193 | how many pages a mapping takes |
| `HeapSpec.FirstFit` | kernel/memory/kmalloc.c:65-95 | the first free block with room |
| `HeapSpec.AllocAtInv` | kernel/memory/kmalloc.c:50-95 | splitting and handing out keeps the heap tiled, aligned and without two free neighbours |
| `HeapSpec.GrowInv` | kernel/memory/kmalloc.c:28-95 | so does growing, once the new block is handed out |
| `HeapSpec.FreeStepsMerge` | kernel/memory/kmalloc.c:97-116 | the steps of kfree amount to one merge of up to three blocks |
| `HeapSpec.FreeAtInv` | kernel/memory/kmalloc.c:97-116 | freeing keeps the heap tiled, aligned and without two free neighbours |
| `HeapSpec.FreeUndoesAlloc` | kernel/memory/kmalloc.c:65-116 | freeing what was just allocated from a free block restores the block sequence exactly |
| `HeapSpec.AllocKeepsLive` | kernel/memory/kmalloc.c:65-95 | an allocation moves or shrinks no live block |
| `HeapSpec.FreeKeepsLive` | kernel/memory/kmalloc.c:97-116 | a free moves or shrinks no other live block |
| `HeapSpec.LiveDisjoint` | kernel/memory/kmalloc.c:50-116 | blocks do not overlap and lie inside the heap |
| `HeapSpec.Round8Fits` | kernel/memory/kmalloc.c:65-67 | rounding gives room if and only if the sum does not wrap |
| `HeapSpec.PagesFit` | kernel/memory/kmalloc.c:28-30 | the pages give room if and only if the sum does not wrap |
| `HeapSpec.GrowthExact` | kernel/memory/kmalloc.c:28-63 | a growth puts its headers into the new pages, one behind the other, if and only if counting the pages does not wrap |
| `HeapSpec.CopyExact` | kernel/memory/kmalloc.c:118-131 | the copy of krealloc stays inside the block handed out if and only if rounding does not wrap, or nothing is copied, or the first free block is handed out whole and is large enough |
| `HeapRuns.StepInv` | kernel/memory/kmalloc.c:28-131 | kmalloc, kfree, krealloc and stores by owners keep the heap tiled, aligned and without two free neighbours |
| `HeapRuns.StepKeeps` | kernel/memory/kmalloc.c:28-131 | each of them leaves a block in use that it does not work on in its place, with its extent and its bytes |
| `HeapRuns.EveryRunInv` | kernel/memory/kmalloc.c:28-131 | after every run of kmalloc, kfree, krealloc and stores the blocks tile the heap, aligned, with no two free neighbours |
| `HeapRuns.LiveUntilFreed` | kernel/memory/kmalloc.c:28-131 | in every run an allocation keeps its place, its extent and its bytes until its owner frees, reallocates or writes it |
| `HeapMemory.SplitRep` | kernel/memory/kmalloc.c:50-63 | the stores of a split link the two headers from both sides and touch no data of other blocks |
| `HeapMemory.AbsorbRep` | kernel/memory/kmalloc.c:97-116 | so do the stores of a merge |
| `HeapMemory.AppendRep` | kernel/memory/kmalloc.c:80-92 | so do the stores that append a new block |
| `HeapPages.AllocMapBacks` | kernel/memory/kmalloc.c:28-47 | mapping one more page behind the heap keeps every heap page on its own taken frame that is no table and no directory |
| `HeapPages.OwnedNext` | kernel/memory/vmm.c:78-193 | a taken frame that is no table and no directory stays so until it is given back |
| `HeapPages.BackedNext` | kernel/memory/vmm.c:78-193 | operations on other pages and other address spaces leave the heap pages on their frames |
| `HeapPages.BackedCounts` | kernel/memory/kmalloc.c:28-47 | the pages of the heap and the free pages together are no more than there are pages, since each heap page has a taken frame of its own |
| `HeapPages.ProgressStep` | kernel/memory/kmalloc.c:32-39 | one turn of the mapping loop succeeds if and only if the pages free at the start suffice for the pages and tables so far |
| `HeapPages.ShortExact` | kernel/memory/kmalloc.c:32-39 | so the loop fails if and only if the range leaves the address space or the free pages are fewer than its pages plus its missing tables; it stops exactly as far as the free pages reach |
| `HeapPages.GrewBacked` | kernel/memory/kmalloc.c:28-47 | a growth, whether it succeeds or fails half way, keeps every page up to the end of the heap on its own frame |
| `HeapPages.GrewCosts` | kernel/memory/kmalloc.c:32-39 | a growth costs the pages it maps and the tables they need; a failed one leaves at most one free page; it costs nothing if and only if the first page cannot be mapped |
| `HeapPages.ExtendElsewhere` | kernel/memory/kmalloc.c:32-39 | a growth changes no page of another directory and no other page of its own |
| `HeapSystem.ActGood` | kernel/memory/kmalloc.c:28-131 | a call of the heap, or any legal operation of others that spares its pages and frames, keeps the heap sound and no shorter |
| `HeapSystem.EveryRunGood` | kernel/memory/kmalloc.c:28-131 | in every run of heap calls interleaved with such operations every page of the heap has a taken frame of its own that is no table |
| `HeapSystem.EveryRunBounded` | kernel/memory/kmalloc.c:28-47 | in every such run, whatever others allocate and free, the heap is no longer than the managed memory and its end does not wrap |
| `HeapSystem.FramesStay` | kernel/memory/kmalloc.c:28-131 | in every such run a page of the heap stays on its frame for ever |
| `Heap.Heap.constructor` | kernel/memory/kmalloc.c:22-25 | the empty heap on a sound virtual memory satisfies the whole invariant |
| `Heap.Heap.SplitBlock` | kernel/memory/kmalloc.c:50-63 | a remainder of more than 32 bytes becomes a free block |
| `Heap.Heap.ExpandHeap` | kernel/memory/kmalloc.c:28-47 | whole pages are mapped behind the heap, each to a frame of its own; it fails exactly when the free pages do not suffice for the pages and the missing tables, with the heap as it was, at most one page left, and the exact number of pages lost |
| `Heap.Heap.MapPages` | kernel/memory/kmalloc.c:32-39 | the mapping loop: success exactly when the pages suffice; how many pages it takes, also when it fails, which leaves at most one; it takes none exactly when the first page cannot be mapped |
| `Heap.Heap.FindBlock` | kernel/memory/kmalloc.c:65-80 | the walk along the list finds the first fit and the block before it |
| `Heap.Heap.Kmalloc` | kernel/memory/kmalloc.c:65-95 | first fit or growth, as a step of the block sequence and of the system; no live data changes; 0 is returned exactly for size 0 or when nothing fits and the heap cannot grow, and then at most one page is left |
| `Heap.Heap.Kfree` | kernel/memory/kmalloc.c:97-116 | the merge of up to three blocks; no data changes |
| `Heap.Heap.Krealloc` | kernel/memory/kmalloc.c:118-131 | the same block; or a kmalloc, a copy of all old bytes and a kfree of the old block; or 0 with the old block untouched; no other live data changes |
| `Heap.Reallocated` | kernel/memory/kmalloc.c:126-130 | allocating, copying and freeing leave a new block with all old bytes and free the old one |
| `Heap.ReallocKeeps` | kernel/memory/kmalloc.c:118-131 | every other block in use keeps its place and its bytes |
| `Heap.Heap.EndBounded` | kernel/memory/kmalloc.c:28-47 | in every sound state the heap is no longer than the managed memory and its end does not wrap |
| `Heap.Heap.OthersKeep` | kernel/memory/vmm.c:78-193 | between two calls of the heap any legal operation of others that spares its pages and frames keeps the heap sound |
| `Heap.MallocGives` | kernel/memory/kmalloc.c:65-95 | a successful kmalloc returns a block that was not in use, of at least the size asked for if and only if rounding did not wrap |
| `MessageQueue.SendAppends` | kernel/ipc/msg.c:85-125 | a send appends and overwrites no waiting message |
| `MessageQueue.ReceiveExact` | kernel/ipc/msg.c:128-179 | a receive removes exactly its message, and the ring stays consistent, if and only if the message is at the head |
| `MessageQueue.ReceiveLoses` | kernel/ipc/msg.c:128-179 | otherwise the messages before it are lost and as many old slots reappear at the end |
| `MessageQueue.RingIsQueue` | kernel/ipc/msg.c:85-179 | the ring after every run of sends and receives at the head holds what a queue would hold |
| `MessageQueue.TracksExact` | kernel/ipc/msg.c:85-179 | the ring holds what a queue would hold after every step of a run if and only if every receive of the run takes the message at the head |
| `MessageQueue.Ipc.Init` | kernel/ipc/msg.c:11-21 | all queues are free, empty and without an id |
| `MessageQueue.IdsOnlyVanish` | kernel/ipc/msg.c:47-251 | no system call gives a queue an id |
| `MessageQueue.EveryRunFails` | kernel/ipc/msg.c:11-251 | after msg_init, in every run of calls, no queue has an id, a creation returns 0, and every other call returns -1 |
| `MessageQueue.UsableOnlyBefore` | kernel/ipc/msg.c:47-251 | from any state, an id that a queue has after a run is the one it had before |
| `MessageQueue.Ipc.GetQueue` | kernel/ipc/msg.c:35-43 | the first queue with the id, or none |
| `MessageQueue.Ipc.Msgget` | kernel/ipc/msg.c:47-82 | the first queue with the key, else the first free queue, emptied and with id 0, else -1 |
| `MessageQueue.Ipc.Msgsnd` | kernel/ipc/msg.c:85-125 | success, exactly when the queue exists, has room and the text fits, appends; failure changes no queue and leaves interrupts off |
| `MessageQueue.Ipc.Msgrcv` | kernel/ipc/msg.c:128-203 | success, exactly when a message matches, returns the size as a signed number, the first match and what the stores leave; failure changes nothing |
| `MessageQueue.Ipc.FindMessage` | kernel/ipc/msg.c:128-160 | the loop around the ring finds the first match in queue order |
| `MessageQueue.Ipc.Msgctl` | kernel/ipc/msg.c:206-251 | removal frees and empties the queue; a status request reports mode, number of messages and capacity; only removal changes queues; the exact failures |
| `CString.TokensAreRuns` | libc/string.c:177-206 | the tokens are exactly the maximal runs of characters that are no delimiters, in order |
| `CString.TakesFirst` | libc/string.c:177-206 | one call returns the first pending token as a string of its own, leaves the others pending and writes nothing else |
| `CString.CLibrary.Memmove` | libc/string.c:12-27 | for every overlap the destination gets the old bytes of the source and nothing else changes |
| `CString.CLibrary.Strchr` | libc/string.c:121-130 | the first occurrence, the terminator included, or none |
| `CString.CLibrary.Strspn` | libc/string.c:144-149 | the length of the leading run of accepted characters |
| `CString.CLibrary.Strcspn` | libc/string.c:151-156 | the length of the leading run of characters that are not rejected |
| `CString.CLibrary.Strtok` | libc/string.c:177-206 | one call on the buffer with its static cursor |
| `CString.CLibrary.Tokenize` | libc/string.c:177-206 | repeated calls return the tokens of the original string in order, then null, and change nothing outside it |
| `Ramfs.DoublingEnds` | kernel/fs/vfs.c:199-207 | the doubling loop ends if and only if the write ends at 2^31 or below or its end wraps around to there, for every 32-bit offset and count |
| `Ramfs.CopyStays` | kernel/fs/vfs.c:199-219 | a copy into a buffer that holds the end in 32 bits stays inside it if and only if the end does not wrap |
| `Ramfs.SpillExact` | kernel/fs/vfs.c:182-223 | a write that comes to an end writes behind the buffer of its file if and only if it gets its memory and its end wraps |
| `Ramfs.WrappedWrite` | kernel/fs/vfs.c:182-223 | one such write: 2^32 - 1 bytes at offset 1 of a small file |
| `Ramfs.Capacity` | kernel/fs/vfs.c:201-207 | it ends at the first sufficient capacity, 256 times a power of two |
| `Ramfs.ReadExact` | kernel/fs/vfs.c:163-180 | a read stays inside the file if and only if its end does not wrap in 32 bits |
| `Ramfs.Prepared` | kernel/fs/vfs.c:186-216 | a write gets room and keeps all bytes, or has no file afterwards, exactly when memory fails |
| `Ramfs.StoredOverwrites` | kernel/fs/vfs.c:217-222 | copying into the buffer and raising the size overwrites the byte sequence |
| `Ramfs.WriteOverwrites` | kernel/fs/vfs.c:182-223 | a write overwrites the byte sequence at its offset or fails |
| `Ramfs.ReadBack` | kernel/fs/vfs.c:163-223 | what was written is read back at its offset and the other bytes are unchanged |
| `Ramfs.DeliversSlice` | kernel/fs/vfs.c:163-180 | a read delivers the slice of the byte sequence at its offset |
| `Ramfs.StepRefines` | kernel/fs/vfs.c:361-427 | one call does to the files what it does to byte sequences, with the same reply |
| `Ramfs.FilesAreByteSequences` | kernel/fs/vfs.c:361-427 | so does every interleaving of calls through any descriptors, with no offset past the end of its file and no size above its capacity |
| `Ramfs.OpenThenClose` | kernel/fs/vfs.c:361-399 | open takes the lowest free descriptor at offset 0, and closing it frees that one alone |
| `Ramfs.OffsetFits` | kernel/fs/vfs.c:402-427 | the advanced offset is the sum, in the signed 32-bit field, if and only if the access ends below 2^31 |
| `Ramfs.NextShape` | kernel/fs/vfs.c:361-427 | every call keeps the tables well formed, also when memory fails |
| `Ramfs.WriteKeepsOffsets` | kernel/fs/vfs.c:208-222 | when a write keeps every offset inside its file, exactly: after a failed growth, if no descriptor of the file had moved; otherwise, if it fails, ends below 2^31, or is of 2^31 bytes or more |
| `Ramfs.WriteKeepsSmall` | kernel/fs/vfs.c:217-222 | files stay smaller than 2^31 bytes exactly while no write ends at 2^31, or the one that does fails |
| `Ramfs.DropKeepsOffsets` | kernel/fs/vfs.c:186-213 | the case of a write without memory |
| `Ramfs.DroppedFile` | kernel/fs/vfs.c:208-213 | a failed growth that leaves an offset past the end |
| `Ramfs.FileSystem.constructor` | kernel/fs/vfs.c:319-337 | every descriptor is free |
| `Ramfs.FileSystem.Open` | kernel/fs/vfs.c:361-384 | the loop takes the lowest free descriptor, at offset 0, or fails |
| `Ramfs.FileSystem.Close` | kernel/fs/vfs.c:387-399 | the descriptor is free again |
| `Ramfs.FileSystem.Read` | kernel/fs/vfs.c:402-413 | the read and the advance of the offset, for every count |
| `Ramfs.FileSystem.RamfsRead` | kernel/fs/vfs.c:163-180 | the bytes delivered, with what lies behind the file if the end wraps in 32 bits, and the slice of the byte sequence if it does not; failure on other nodes |
| `Ramfs.FileSystem.Write` | kernel/fs/vfs.c:416-427 | the write and the advance of the offset, for every write that comes to an end |
| `Ramfs.FileSystem.RamfsWrite` | kernel/fs/vfs.c:182-223 | the node after every write that comes to an end, with both ways to run out of memory and with ends that wrap |
| `Ramfs.FileSystem.NewCapacity` | kernel/fs/vfs.c:200-207 | the doubling loop in 32 bits |
| `DirTree.CreatedInv` | kernel/fs/vfs.c:33-46 | creating a node keeps every child under exactly one directory |
| `DirTree.AddedInv` | kernel/fs/vfs.c:49-64 | so does adding a node that is in no list |
| `DirTree.AddKeeps` | kernel/fs/vfs.c:49-64 | adding a node keeps that if and only if the node is in no list and is not the root |
| `DirTree.RemovedInv` | kernel/fs/vfs.c:80-96 | so does removing a child, which is in no list afterwards |
| `DirTree.AddForest` | kernel/fs/vfs.c:49-64 | adding a node keeps a forest if and only if the node is in no list, is not the root, and the directory is not in its subtree |
| `DirTree.EveryRunForest` | kernel/fs/vfs.c:33-96 | the nodes form a forest all along a run of changes if and only if the run never adds a node to its own subtree |
| `DirTree.InitialForest` | kernel/fs/vfs.c:319-337 | the initial tree is a forest |
| `DirTree.DroppedInv` | kernel/fs/vfs.c:80-96 | taking a node out of whatever list it is in keeps that too, and is the removal from that directory |
| `DirTree.RemoveUndoesAdd` | kernel/fs/vfs.c:49-96 | removing what was just added restores all lists |
| `DirTree.AddedLinked` | kernel/fs/vfs.c:49-64 | the links written by an add spell out the longer list, and all other lists as before |
| `DirTree.RemovedLinked` | kernel/fs/vfs.c:80-96 | the links written by a removal spell out the shorter list, and all other lists as before |
| `DirTree.RemoveExact` | kernel/fs/vfs.c:80-96 | the links written by a removal spell out the lists without the child if and only if it is a child of that directory, or is in no list and the directory is empty, or has siblings on both sides elsewhere |
| `DirTree.RunLinks` | kernel/fs/vfs.c:33-96 | after every run of changes each directory's links are the doubly linked list of its children |
| `DirTree.FirstNamed` | kernel/fs/vfs.c:67-77 | the first child with a name, none exactly if no child has it |
| `DirTree.StepReachable` | kernel/fs/vfs.c:291-311 | one component leads from the tree into the tree, and ".." stays where it is only at the root |
| `DirTree.ResolveReachable` | kernel/fs/vfs.c:269-316 | every successful resolve ends at a node reachable from the root |
| `DirTree.EveryRunResolves` | kernel/fs/vfs.c:33-96 | so in every tree that a run of changes builds |
| `DirTree.DownAndUp` | kernel/fs/vfs.c:291-311 | ".." undoes a step down |
| `DirTree.SplitJoined` | kernel/fs/vfs.c:291-311 | splitting at slashes undoes joining with slashes |
| `DirTree.PathResolves` | kernel/fs/vfs.c:269-316 | with different proper names among siblings the path of a node resolves to that node |
| `DirTree.NodeTable.constructor` | kernel/fs/vfs.c:319-337 | the tree with only its root |
| `DirTree.NodeTable.CreateNode` | kernel/fs/vfs.c:33-46 | a new node in no list, its name cut to 63 characters |
| `DirTree.NodeTable.AddChild` | kernel/fs/vfs.c:49-64 | the child becomes the last of the directory's list; failure on other nodes; the lists stay sound if and only if the child was in none and is not the root, and free of cycles if and only if in addition the directory is not in its subtree |
| `DirTree.NodeTable.FindChild` | kernel/fs/vfs.c:67-77 | the walk along the siblings finds the first child with the name |
| `DirTree.NodeTable.RemoveChild` | kernel/fs/vfs.c:80-96 | a child leaves the list and its own links are cleared; the links and the exact condition for sound lists when it is called with another node |
| `DirTree.NodeTable.ResolvePath` | kernel/fs/vfs.c:269-316 | the loop over the components computes Resolve |

## Left out

- Drivers, boot code, segment and interrupt tables, CPUID and power functions, the console and the shell: hardware effects, constant tables and user interface.
- The system call switch: only sys_exit is modelled as a scheduler step; sys_fork is a create with the caller's entry, argument and priority.
- The interrupt flag is modelled only in sys_msgsnd; scheduler, memory and file system operations are atomic steps.
- The TLB and the paging bit of CR0: a lookup always sees the tables as they are in memory.
- Page tables are read and written as frames of physical memory; `Paging.PointersReachFrames` is the reason this is what the kernel's pointers do.
- The heap's memory is a range of cells, one for each byte address, with a 32-bit header field in the cell of its first byte, and is not translated through the page tables.
- The name, prev and memory_pages fields of a control block, the wrap of the 64-bit tick counter, scheduler_set_current_process and the dump of the process table.
- Freeing the frames of processes that have ended: the kernel does not do it, so nothing is claimed about frames over the life of a process.
- A create that fails after its directory was made loses that directory's frame; the address space is a parameter of the create here.
- Heap.Heap.Kmalloc: does not cover a growth whose page count wraps, sizes from 2^32 - 4111 to 2^32 - 8, when the heap would grow for it: the code then writes headers outside the new pages or into each other (`HeapSpec.GrowthExact` is exact). Such sizes are covered when the heap cannot grow, and all sizes whose rounding alone wraps.
- Heap.Heap.Krealloc: does not cover such a growth either, nor a copy past the end of the new block; `HeapSpec.CopyExact` says exactly when that copy happens.
- Heap.Heap.Kfree: is for NULL and for pointers that kmalloc returned and that are still in use, as the code does not check its argument.
- Heap.Heap.Valid: the heap is called in one address space. A growth maps its pages in the directory in use and in no other (`HeapPages.ExtendElsewhere`), so nothing is claimed about heap calls made in another one.
- Pages that were mapped before a growth failed stay mapped behind the heap's end; they are counted as taken, and a later growth maps other frames in their place.
- The list of waiting process ids in a message queue, and blocking.
- CString.CLibrary.Tokenize: a caller's loop around strtok, which the library itself does not contain.
- strtok_r: is not defined in this repository; resolve_path is modelled with the tokens that strtok returns.
- Ramfs.FileSystem.RamfsWrite: requires a write that comes to an end (`Ramfs.DoublingEnds`). What a write with a wrapped end stores behind the buffer is counted (`Ramfs.SpillExact`), but what that does to other memory is not modelled. The file's buffer is a value that krealloc extends, so memory that a failed growth leaks is not modelled.
- Ramfs.FileSystem.Write: requires the same of its write.
- Ramfs.FilesAreByteSequences: is for runs in which accesses end below 2^31 and memory suffices; `Ramfs.OffsetFits`, `Ramfs.WriteKeepsOffsets` and `Ramfs.ReadExact` say exactly what happens at the other calls.
- DirTree.NodeTable.ResolvePath: does not model that the copy of an absolute path is freed at an address one past its start.
- vfs_mount, vfs_stat and the flags of open, which the file system ignores.
- libc realloc, memcpy and the other string functions: simpler than those modelled.
