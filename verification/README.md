# A verified model of the miniature kernel in `src/filesystem`

The kernel is a small AArch64 kernel with four components that share little: a first-fit frame
allocator with four-level page tables, an inode tree in RAM with a virtual file system on top, an
epoch scheduler, and a number printer. This project models each component twice: as functions on
values, which say what an operation means, and as imperative Dafny in the form of the C code
(classes with fields updated in place, loops, arrays), whose methods are proved equal to those
functions. `copy_process`, which belongs to two components, is there in one piece too. The
properties are proved about the functions and about runs of them, and so hold of the methods. Where
a run is made of single statements, so that ticks can come between them, the operations are proved
to be such runs (`Operations`, `FaultRuns`, `PageRaces.AllocationRuns`).

`dafny verify dfyconfig.toml` checks everything. No file needs another tool.

## Where things are

| files | what they model |
|---|---|
| `Common` | the size of `task[]`, an option type and a set lemma that several modules use |
| `Bits`, `PageTables`, `PageTree`, `MapPage`, `PageWalk`, `PageCount`, `UserAccess` | `mem_map`, `get_free_page`, `map_table`, `map_page`, and the hardware walk of VMSAv8-64 (Arm Architecture Reference Manual, ARM DDI 0487, sections D5.2 and D5.3: 4KB granule, 48-bit addresses) |
| `TaskMemory`, `ForkIsolation`, `MemoryRuns`, `FrameCount` | user and kernel pages of several tasks, `copy_virt_memory`, fork, and whole runs of them, with one owner for every frame; how many frames that leaves free |
| `MemoryManager` | the same in place: classes `FrameTable` and `MmStruct` |
| `Scheduling`, `SchedulerFairness`, `Turns` | `_schedule` and its callers on values; bounds on the wait for the processor, and the exact wait |
| `Preemption`, `Operations` | the `preempt_count` protocol statement by statement with ticks in between, and the operations as runs of those statements |
| `Starvation` | what ticks inside `_schedule` do to the wait |
| `Scheduler` | the scheduler in place: classes `Kernel` and `TaskStruct` |
| `PageRaces` | `get_free_page` statement by statement, preempted anywhere: when frames are handed out once only |
| `PageFaults`, `FaultRuns`, `Interleaving`, `UsedFrames` | page faults statement by statement, several at once, among forks and stores: when memory stays in order, and how many frames can be in use at most |
| `KernelRuns` | scheduler and memory together: runs of the kernel from boot |
| `ForkProcess` | `copy_process` in one piece, in place: class `Processes` over a `Kernel` and a `FrameTable` |
| `Inodes`, `InodeCreation`, `InodeDeletion`, `FsLaws`, `Paths` | the inode forest, creation, deletion and paths, on values |
| `RamFs`, `Vfs`, `FileData` | the same in place: classes `InodeTable`, `Vfs` and `FileStore` |
| `VfsOperations`, `VfsLaws`, `VfsRuns`, `FileContents`, `FileRuns` | the operations of `vfs.c` on values, their laws, and runs of them; contents of files in such runs |
| `Numerals`, `Printf` | digit strings, and `ui2a`, `i2a`, `a2i` and `putchw` in place |

## How to read the model

- A frame is 512 words of 8 bytes; `Outcome.Fault` stands for C code that dereferences an address
  that is no managed frame (a missing table) or indexes past the end of `kernel_pages`,
  `user_pages` or `task`. The specifications say exactly when it happens; the methods of
  `MemoryManager` are for calls that do not fault.
- Pointers into the inode table are indices, and -1 (`NIL`) is the null pointer. `View` is ghost: the
  sons of each folder in order and each node's distance from the root. `SonsUnique` shows that the
  sons follow from the table. `Forest(t, v, detached)` is the invariant; `detached` holds the nodes
  that `delete_inode` has taken out of their fathers' chains and not yet freed, and is empty between
  calls.
- In `VfsOperations`, a `System` is the table, its view and the open descriptors; `Step` is one call.
- C strings are Dafny strings without their NUL. Paths are given as a string whose end is the NUL.
- 32-bit wrap-around, truncation to `int`, and unsigned comparisons are written out where values can
  reach them (`printf.c`, lengths of reads and writes, `c = p->counter`).

## What turned out not to hold

Each of these is a lemma, with the exact condition under which the code does what is wanted.

- `copy_process` that finds no page returns without `preempt_enable`, so its caller stays
  unpreemptable. In no run of this kernel from boot does that happen, however ticks and page faults
  come: at least 250000 frames stay free whatever 64 tasks and the 128 blocks of `init_fs` take, so a
  fork that comes back has its page, and outside the sections that disable preemption the counts are
  0 and 1 (`UsedFrames.RecordLeaves`, `KernelRuns.ForksFindPages`, `KernelRuns.HandOver`). With memory
  exhausted some other way the hand-over is intact iff no fork has failed (`Preemption.HandOver`,
  `KernelRuns.ExhaustedForkLeaks`).
- `copy_process` ignores the result of `copy_virt_memory`. The child is complete iff there was a frame
  for its `task_struct`, each mapping and each table of the parent, and no mapping of the parent is at
  2^48 or above (`ForkIsolation.ForkIsolates`). In runs from boot frames are never short; there a fork
  is complete iff no mapping is at 2^48 or above, as long as no two calls of `get_free_page` clash
  (`KernelRuns.EveryForkSucceeds`).
- `get_free_page` tests `mem_map` and marks it in two steps, and page faults are handled with
  interrupts on (`entry.S:150-154`) and preemption enabled. A clash is a task finding or taking a frame
  that another task has found free and not yet marked. Once all calls are over, no frame was handed
  out twice iff there was no clash (`PageRaces.HandedOnceIff`). Without a clash every call takes effect
  in one step, wherever it is preempted (`PageRaces.Linearizes`), and memory is in order in every
  interleaving of page faults, forks, stores and ticks: each event keeps it in order, disturbs no other
  task's view, and lets page faults go on (`Interleaving.ActKeeps`, `KernelRuns.MemoryInOrder`). A clash
  ends that order at once (`Interleaving.ClashBreaks`). In every sane state with two runnable tasks
  ticks can lead two calls to the same frame (`PageRaces.SameFrameTwice`).
- Disabled preemption does not make a fork's own calls safe. One such call is safe iff no other task
  has found its frame before (`PageRaces.GuardedCallSafe`); a page fault that is preempted behind its
  test and a fork of another task can get the same frame (`PageRaces.ForkFrameTwice`). If every call
  of a run is made with preemption disabled, there is no clash (`PageRaces.GuardedNoClash`).
- A tick inside `_schedule` can drive a counter below zero. A waiting task is dispatched once its own
  counter has been recharged often enough to be positive, and not before (`Starvation.ServedByRecharges`).
  The exact number of calls of `_schedule` it waits for is a sum over the runnable tasks of their
  counters and priorities (`Turns.DispatchedIff`), so a bound of k calls, 2n - 1 for one, holds iff k is at
  least that number (`Turns.BoundIff`). It is at most 2n - 1 if the task's own counter is at least
  2 - 2 * priority, whatever the others owe (`SchedulerFairness.WithinTwoRounds`). Below that it may
  still be at most 2n - 1, but for every w there is a run from boot after which a runnable task waits more than w
  calls (`Starvation.UnboundedWait`).
- `read_inode` takes the number of inodes, 128, for the size of a block. A read from the beginning is
  exact iff it asks for less than 128 bytes, or for exactly 128 of a file that has them, or the file
  has exactly 128 bytes, or the length is at least 2^31, which is negative as an `int`
  (`FileContents.FirstReadIsExact`; `ReadIsExact` for every position). Otherwise it reports too much
  or too little (`ReadsTooMuch`, `ReadsTooLittle`).
- `vfs.h` promises that a read of len stores at most len + 1 characters; `memcpy` stores whole words.
  The promise holds iff len is at least 128, or a multiple of 8 or one less than that, or the file
  in whole words is not longer than len (`FileContents.BufferSuffices`); a read of 5 from a file of
  8 stores 8 (`BufferOverrun`).
- `docs/filesystem/vfs.md` says that a read moves the position in the file. It never moves:
  every read starts at byte 0 (`VfsRuns.AlwaysReadsAtZero`, `FileContents.ReadsGiveBytes`).
- Deletion ignores open descriptors. The reference counts stay equal to the numbers of descriptors
  iff no open node is deleted (`VfsRuns.StepRefs`). From boot, creating, opening and deleting a file
  breaks them (`VfsLaws.RefsCanBreak`).
- `a2i` compares with `>`, so the digit `a` passes in base 10 and "1a" reads as 20
  (`Printf.TenIsADigit`). A printed number reads back iff the next character is not accepted as a
  digit (`Printf.NumeralReadsBack`).
- `filesystem.h` says that `reset_inode` clears the bytes of a block; it only sets the size to 0
  (`FileData.FileStore.ResetInode`). It also says that `free_inode` returns 1 or 0; it returns 0, -1 or
  -2 (`RamFs.InodeTable.FreeInode`).

## Model

| member | source | states |
|---|---|---|
| Bits.AndLow | src/filesystem/src/mm.c:69-70 | and-ing with 2^k - 1 leaves the remainder by 2^k: the mask in the index computation |
| Bits.AndHigh | src/filesystem/src/mm.c:80-80 | and-ing with a mask of high bits clears the low k bits and no others |
| Bits.OrDisjoint | src/filesystem/src/mm.c:52-52 | or-ing flags into an address whose low bits are clear adds them, so address and flags can be told apart again |
| PageTables.TableIndex | src/filesystem/src/mm.c:69-70 | shift and mask give the 9-bit field of the address, always an index of a 512-entry table |
| PageTables.GetFreePageSpec | src/filesystem/src/mm.c:26-37 | get_free_page returns 0 and changes nothing iff no frame is free; otherwise an aligned frame in range, the first that was free, now marked and zeroed, and every other mark and frame is as before |
| PageTables.Descriptor | src/filesystem/src/mm.c:74-75 | for an aligned address and flags below 4096 the descriptor is their sum |
| PageTables.MaskPage | src/filesystem/src/mm.c:80-80 | masking gives back the page address of a descriptor |
| MapPageProof.MapLevelGrows | src/filesystem/src/mm.c:68-99 | one level of map_page: a table that is there is found; otherwise a fresh zeroed table is linked and recorded, and the tree, its entries and kernel_pages stay in agreement; or slots or frames are short |
| MapPageProof.MapPageResult | src/filesystem/src/mm.c:87-114 | map_page from any state that meets the invariant, by tree: faults or adds exactly the missing tables and one leaf |
| PageWalk.PrefixFields | src/filesystem/include/mm.h:24-28 | the index prefixes of the walk are the bit fields [47:39], [47:30], [47:21] and [47:12] |
| PageWalk.MapPageKeeps | src/filesystem/src/mm.c:87-114 | map_page faults iff frames, slots of kernel_pages or slots of user_pages are short for the tables that are missing; otherwise the log grows by the mapping, the invariant holds again, and exactly the frames of the missing tables leave the free frames |
| PageWalk.TranslateIsLastMapping | src/filesystem/src/mm.c:49-114 | the four-level hardware walk of every address finds the page of the last recorded mapping with the same bits 12 to 47, and nothing if there is none |
| PageWalk.MapRunTranslates | src/filesystem/src/mm.c:87-114 | the same after any run of map_page on a task without memory, in terms of the calls alone |
| UserAccess.UserFindsMappings | src/filesystem/include/arm/mmu.h:24-26 | with the permission and attribute bits of table and page descriptors, too, the walk on behalf of user code finds at every address the page of the last recorded mapping: user code may read, write and execute exactly what is mapped for its task |
| PageCount.KernelPagesAreTheTables | src/filesystem/src/mm.c:89-109 | kernel_pages[1..count] lists without repeats exactly the tables that some address makes the hardware consult |
| PageCount.KernelPagesCount | src/filesystem/src/mm.c:89-109 | for a non-empty map the count is 1 plus the numbers of distinct 9-, 18- and 27-bit prefixes of the mapped addresses |
| TaskMemory.KernelPageOk | src/filesystem/src/mm.c:9-15 | allocate_kernel_page fails iff no frame is free; otherwise it hands out a zeroed frame nobody owned, and every owned frame keeps its contents and owner |
| TaskMemory.UserPageOk | src/filesystem/src/mm.c:17-24 | allocate_user_page returns 0 and changes nothing iff no frame is free; with one free it faults iff tables or slots are short; otherwise the task owns one zeroed page more, other owners are untouched and the frames used are counted |
| TaskMemory.CopyWordsOk | src/filesystem/src/mm.S:1-7 | copying one page word by word through the page tables of the running task makes the target frame equal to the source frame and changes no other frame |
| TaskMemory.CopyLoop | src/filesystem/src/mm.c:117-127 | copy_virt_memory into a new task returns 0 iff there is a free frame for every mapping and every table of the source, and copies the mappings in order; it faults iff the frames run out between a page and its tables (or at a mapping above the user's addresses); otherwise it stops early with -1 |
| TaskMemory.TreeIsTables | src/filesystem/src/mm.c:68-99 | the tables a task has are exactly those that its recorded mappings need, so what a copy needs can be read off the record |
| ForkIsolation.ForkIsolates | src/filesystem/src/fork.c:7-41 | a user fork: without a frame it changes nothing and returns -1; it faults iff there is a frame and either `task[]` is full or the copy has a frame for a page but not for its tables (or comes to a mapping above the user's addresses); it returns a complete child iff `task[]` has room and there is a frame for the task_struct, each mapping and each table; then the child sees at every address what the parent saw, in frames that were free, with as many tables; and in no case does another task see a change |
| MemoryRuns.BootConsistent | src/filesystem/src/mm.c:7-7 | the state with all of mem_map zero and one task without memory is consistent |
| MemoryRuns.KernelPageStep | src/filesystem/src/mm.c:9-15 | a kernel page, an inode's block among them, changes nothing that a task sees |
| MemoryRuns.UserPageStep | src/filesystem/src/mm.c:131-140 | for every page-aligned address, of whatever size: mapping a new page faults iff frames are left for the page but not for its tables, or slots run out; otherwise it shows a zeroed page at its address and changes no other address of the task and nothing that another task sees; without a frame nothing changes |
| MemoryRuns.ForkStep | src/filesystem/src/fork.c:7-41 | a fork of either kind keeps the system consistent and no task sees a change |
| MemoryRuns.WriteStep | src/filesystem/src/mm.c:117-127 | after any run, a store by a task changes one word of one of its own pages and nothing that another task sees: parent and child stay apart |
| MemoryRuns.KernelPagesKept | src/filesystem/src/mm.c:9-15 | no allocation, fork or store by a task takes back a kernel page or changes its contents, and a new one is zeroed |
| MemoryRuns.StepConsistent | src/filesystem/src/mm.c:9-127 | every step keeps the system consistent and disturbs only the task that takes it |
| MemoryRuns.RunConsistent | src/filesystem/src/mm.c:9-127 | so does every run of kernel pages, user pages, forks and stores |
| MemoryRuns.OneOwnerEach | src/filesystem/src/mm.c:26-37 | in a consistent state every marked frame is exactly one table of one task, or one mapping of one task, or one kernel page, and nothing unmarked is any of these |
| FrameCount.FramesConserved | src/filesystem/src/mm.c:9-127 | in every consistent state the free frames, the kernel pages and what the tasks' kernel_pages_count and user_pages_count add up to make all the frames there are |
| FrameCount.FramesLeft | src/filesystem/src/mm.c:26-37 | with at most 64 tasks and a thousand kernel pages at least 250000 frames are free, so no allocation fails |
| PageFaults.PutOk | src/filesystem/src/mm.c:87-99 | a frame that get_free_page has found, marked and put where it belongs, as the page, the top table or a linked and recorded table, keeps the task's memory in order in the middle of a page fault |
| PageFaults.WalkOk | src/filesystem/src/mm.c:87-114 | so does every other step of map_page, down to the page's own entry |
| FaultRuns.FaultAlone | src/filesystem/src/mm.c:131-140 | the statements of a page fault that nobody comes between add up to allocate_user_page on values |
| Interleaving.CoreTranslates | src/filesystem/src/mm.c:49-114 | in the middle of a page fault, too, the hardware walk of every address finds the last recorded mapping |
| Interleaving.ActKeeps | src/filesystem/src/mm.c:17-127 | with several tasks in the middle of page faults, every act but a clash keeps one owner for each frame and every task's tables and record in agreement; no other task sees a change; the task itself sees none but its store or, at the end of a fault, a zeroed page; and a fork whose parent maps nothing at 2^48 or above is a complete copy |
| Interleaving.ClashBreaks | src/filesystem/src/mm.c:28-30 | a clash ends that order |
| Interleaving.HighForkFaults | src/filesystem/src/mm.c:119-125 | a fork whose parent has a mapping at 2^48 or above faults, with frames enough |
| UsedFrames.ActOnRecord | src/filesystem/src/mm.c:17-127 | every act, a clash included, takes no more frames than it puts on record in kernel_pages_count, user_pages_count, the kernel pages and the pages in flight |
| UsedFrames.RecordLeaves | src/filesystem/src/mm.c:26-37 | so with at most 64 tasks and a thousand kernel pages at least 250000 frames are free, in every interleaving |
| KernelRuns.EventKeeps | src/filesystem/src/fork.c:7-41 | every statement of the scheduler, tick, fork, statement of a page fault, store and block of init_fs, a clash included, keeps the scheduler's invariant, leaks no disable and keeps frames on record; a fork that comes back has its page |
| KernelRuns.OrderKept | src/filesystem/src/fork.c:7-41 | if it is not a clash, it keeps memory in order too, disturbs the view of no task but the current one, and a fork returns the next number with a complete copy iff its parent maps nothing at 2^48 or above |
| KernelRuns.HandOver | src/filesystem/src/sched.c:12-72 | in every run of the kernel from boot, clashes included: outside disabled sections the current task's preempt_count is 0, inside it is 1, and every other task's is 1; counters are bounded, and 250000 frames are free |
| KernelRuns.ForksFindPages | src/filesystem/src/fork.c:9-17 | in every run from boot, clashes included, a fork that comes back does not come back with -1 |
| KernelRuns.MemoryInOrder | src/filesystem/src/mm.c:9-140 | in every run from boot without a clash memory is in order wherever page faults have got to, and no task is stuck for want of a frame or on a damaged table |
| KernelRuns.EveryForkSucceeds | src/filesystem/src/fork.c:7-41 | in every run from boot without a clash, a fork that is due returns the next task number with a complete copy iff it makes a kernel thread or its parent maps nothing at 2^48 or above |
| KernelRuns.PageFaultsServed | src/filesystem/src/mm.c:131-140 | in every run from boot without a clash, the part of do_mem_abort that allocates and maps can start iff there are slots for its tables and its mapping, and goes on whenever its task runs (its counter `ind`, which turns every return after the first into -1, is not modelled) |
| KernelRuns.ExhaustedForkLeaks | src/filesystem/src/fork.c:9-17 | the exception: with every frame taken the fork returns with its caller's preempt_count one too high |
| PageRaces.ExclusiveIff | src/filesystem/src/mm.c:26-37 | in every interleaving of ticks, scheduling and calls of get_free_page, each frame handed out or found free has one taker iff no task finds free a frame that a preempted one has found free and not yet marked |
| PageRaces.HandedOnceIff | src/filesystem/src/mm.c:26-37 | in every interleaving that ends with no task between test and mark: no frame was handed out twice iff there was no such clash |
| PageRaces.Linearizes | src/filesystem/src/mm.c:26-37 | in every interleaving without a clash, wherever calls are preempted, each takes effect in one step: it marks the first free frame of that moment, or returns 0 when none is free at that moment |
| PageRaces.GuardedNoClash | src/filesystem/src/fork.c:9-11 | if every call of a run is made with preemption disabled, there is no clash |
| PageRaces.GuardedCallSafe | src/filesystem/src/fork.c:9-11 | one call with preemption disabled, while other tasks are anywhere, keeps one taker for each frame iff no other task has found its frame before |
| PageRaces.ForkFrameTwice | src/filesystem/src/fork.c:9-11 | the failing run, from every sane state with two runnable tasks, a free frame and room in `task[]`: a page fault is preempted between test and mark, another task forks, and both get the same frame |
| PageRaces.AllocationRuns | src/filesystem/src/mm.c:26-37 | the statements of a call that is not preempted add up to get_free_page on values |
| PageRaces.TicksReach | src/filesystem/src/sched.c:74-84 | from every sane state ticks alone bring any given runnable task onto the processor |
| PageRaces.SameFrameTwice | src/filesystem/src/mm.c:26-37 | the failing run, from every sane state with two runnable tasks and a free frame: a tick between test and mark, and both get the same frame |
| MemoryManager.FrameTable.constructor | src/filesystem/src/mm.c:7-7 | mem_map starts with no frame marked |
| MemoryManager.FrameTable.AllocateFrame | src/filesystem/src/mm.c:26-37 | the loop over mem_map in place is get_free_page on values |
| MemoryManager.FrameTable.ClearFrame | src/filesystem/src/mm.S:9-14 | clearing a frame word by word zeroes it and no other frame |
| MemoryManager.FrameTable.LinkTable | src/filesystem/src/mm.c:68-81 | map_table in place: the next table, whether it is new, and the new memory |
| MemoryManager.FrameTable.NextTable | src/filesystem/src/mm.c:96-99 | one level of map_page in place, with the record in kernel_pages |
| MemoryManager.FrameTable.TopTable | src/filesystem/src/mm.c:88-93 | the top table in place, allocated and recorded when there is none |
| MemoryManager.FrameTable.LastEntry | src/filesystem/src/mm.c:111-113 | the last entry and the record in user_pages, in place |
| MemoryManager.FrameTable.AddMapping | src/filesystem/src/mm.c:87-114 | map_page in place has the effect on memory and on the task that the value function has |
| MemoryManager.FrameTable.KernelPage | src/filesystem/src/mm.c:9-15 | allocate_kernel_page in place |
| MemoryManager.FrameTable.UserPageFor | src/filesystem/src/mm.c:17-24 | allocate_user_page in place |
| MemoryManager.FrameTable.CopyPage | src/filesystem/src/mm.S:1-7 | the copy of a page in place, read through the running task's tables as they change |
| MemoryManager.FrameTable.CopyMemory | src/filesystem/src/mm.c:117-127 | copy_virt_memory in place |
| Scheduling.ScanResult | src/filesystem/src/sched.c:29-37 | the scan finds the lowest-numbered running task of maximal counter if some running counter is not negative, and otherwise comes back with -1 and task 0 |
| Scheduling.RechargeBounded | src/filesystem/src/sched.c:41-46 | recharging keeps every counter at most 2 * priority - 1 and makes every counter that is not negative at least the priority |
| Scheduling.PickResult | src/filesystem/src/sched.c:28-47 | which task _schedule picks and whether it recharges, by the counters alone: nothing, or everything exactly once, or task 0 when all running counters are negative |
| Scheduling.TwoScans | src/filesystem/src/sched.c:28-47 | the loop scans at most twice |
| Scheduling.PickRuns | src/filesystem/src/sched.c:28-48 | no zombie is picked while task 0 is running |
| Scheduling.ForkResult | src/filesystem/src/fork.c:7-41 | copy_process with a page returns the next task number, and in that slot is a running task with the parent's priority as priority and as counter, and one disable; every other slot, the parent's included, and the current task are as before. Without a page it returns -1 with preemption disabled once more |
| Scheduling.ExitResult | src/filesystem/src/sched.c:86-96 | exit_process makes its own task a zombie and no other, clears its counter, keeps its count of disables, and leaves the choice to _schedule |
| SchedulerFairness.LiftsIff | src/filesystem/src/sched.c:41-46 | how many recharges make a counter positive, as thresholds on the counter: none from 1 on, one from 2 - 2 * priority on, two from 4 - 6 * priority on, and so forth |
| SchedulerFairness.WaitBound | src/filesystem/src/sched.c:23-56 | with n runnable tasks and r recharges lacking, the waiting measure is between 1 and (r + 1) * n - 1 |
| SchedulerFairness.CallResult | src/filesystem/src/sched.c:23-50 | a call of _schedule recharges iff no runnable counter is positive, and then dispatches the lowest-numbered runnable task of maximal, positive counter |
| SchedulerFairness.CallLacks | src/filesystem/src/sched.c:23-50 | a call that recharges takes one from what a task lacks, another none; the task dispatched lacked nothing, or just the recharge that came |
| SchedulerFairness.CallShortens | src/filesystem/src/sched.c:23-50 | each call that picks by counters, from whichever caller, dispatches a given runnable task or shortens its wait, whatever other tasks owe |
| SchedulerFairness.EventProgress | src/filesystem/src/sched.c:52-96 | ticks, yields, forks and exits keep the state sane; those that call _schedule bring a given task onto the processor or closer to it, the others keep the current task, and only a fork adds to the wait; exits are those after which a runnable task goes on |
| SchedulerFairness.BootSane | src/filesystem/src/sched.c:7-10 | the kernel starts in a sane state with one runnable task |
| SchedulerFairness.ForkKeepsSane | src/filesystem/src/fork.c:28-40 | a fork keeps the state sane, and makes no counter negative |
| SchedulerFairness.ExitKeepsSane | src/filesystem/src/sched.c:86-96 | after an exit a runnable task goes on, in a sane state, iff another runnable counter is not negative or the task of slot 0 is runnable and another than the one that exits; and no counter becomes negative |
| SchedulerFairness.NoStarvation | src/filesystem/src/sched.c:52-96 | for n runnable tasks, f of them waiting with time left, and a task that lacks r recharges: in every run of ticks, yields, forks and exits (those after which a runnable task goes on) that calls _schedule f + r * n times, and r + 1 times more for each fork, that task is dispatched, unless its own exit is the first call; what other tasks owe makes no difference |
| SchedulerFairness.WithinTwoRounds | src/filesystem/src/sched.c:52-96 | so 2n - 1 calls, and 2 more for each fork, are enough for the current task and for every task whose own counter is at least 2 - 2 * priority |
| Turns.EventTurns | src/filesystem/src/sched.c:23-84 | a call by a tick or yield dispatches a task iff its number of turns is 1, and otherwise takes one from it; a tick that does not call takes none |
| Turns.DispatchedIff | src/filesystem/src/sched.c:23-84 | in every run of ticks and yields, whatever their order and whatever debts there are, a task is dispatched iff the run calls _schedule as often as the number of turns, which is a sum over the runnable tasks of their counters and priorities |
| Turns.BoundIff | src/filesystem/src/sched.c:23-84 | so k calls are always enough iff k is at least that number |
| Turns.TurnsBound | src/filesystem/src/sched.c:23-84 | that number is at most (r + 1) * (n - 1) + 1 for a task that lacks r recharges, so at most 2n - 1 for one that lacks one or none |
| Starvation.ServedByRecharges | src/filesystem/src/sched.c:41-46 | a runnable task is not dispatched before as many recharges as it lacks, and once they have come it is, before no waiting task has time left any more |
| Starvation.DebtWaits | src/filesystem/src/sched.c:41-46 | a waiting task is not dispatched by fewer calls than it lacks recharges, whichever ticks, yields, forks and exits make them; only the task of slot 0 may come sooner, when another exits |
| Starvation.DebtRun | src/filesystem/src/sched.c:74-80 | for every debt, the statements from boot that lead to it: a fork, and ticks inside the _schedule of the first task |
| Starvation.UnboundedWait | src/filesystem/src/sched.c:74-80 | so no bound on the wait holds when ticks come inside _schedule: for every w some run from boot leaves a runnable task that no w calls by ticks, yields and forks dispatch |
| Preemption.MoveKeeps | src/filesystem/src/sched.c:12-96 | every statement of _schedule, copy_process and exit_process, and a tick at any point, keeps the counts of disabled preemption, the counter bound and the scan's candidate |
| Preemption.HandOver | src/filesystem/src/sched.c:12-72 | in every run from boot, whether forks find pages or not: outside disabled sections the current task's count is the number of its failed forks and every other task's is one more than that of its own, so the hand-over is intact iff no fork of a task failed; inside a section a tick only takes a unit of time |
| Preemption.CountersAndChoice | src/filesystem/src/sched.c:28-48 | in every run, ticks included, counters stay at most 2 * priority - 1, and a scan ends with a running task while task 0 is running |
| Preemption.FailedForkLeaks | src/filesystem/src/fork.c:9-17 | in every state, what a fork that finds no page does: it returns with its caller's preempt_count one higher |
| Preemption.InsertsChild | src/filesystem/src/fork.c:28-37 | the same new task, with nothing else changed, when ticks come between the statements of copy_process |
| Preemption.ScheduleRuns | src/filesystem/src/sched.c:23-50 | the statements of _schedule without a tick among them add up to the one-step _schedule |
| Operations.YieldRuns | src/filesystem/src/sched.c:52-56 | the statements of schedule, without a tick, add up to the yield on values |
| Operations.TickRuns | src/filesystem/src/sched.c:74-84 | a tick anywhere, and the statements of _schedule if it calls it, add up to timer_tick on values |
| Operations.ForkRuns | src/filesystem/src/fork.c:7-41 | the statements of copy_process add up to the fork on values, with a page and without; with one, the new task has its parent's priority and a whole time slice, and nothing else has changed |
| Operations.ExitRuns | src/filesystem/src/sched.c:86-96 | the statements of exit_process add up to the exit on values |
| Operations.OperationsAreRuns | src/filesystem/src/sched.c:12-96 | every run of ticks, yields, forks and exits is a run of statements, with the same end and with no failed fork if none fails |
| Operations.OperationsHandOver | src/filesystem/src/sched.c:12-72 | so after any run of these operations from boot without a failed fork the current task's count is 0, every other's is 1, and the counters are bounded |
| Scheduler.Kernel.constructor | src/filesystem/src/sched.c:7-10 | task[] holds the initial task alone |
| Scheduler.Kernel.ScanTasks | src/filesystem/src/sched.c:29-37 | the scanning loop over task objects is the scan on values |
| Scheduler.Kernel.RechargeTasks | src/filesystem/src/sched.c:41-46 | the recharging loop changes exactly the counters of all tasks in the table |
| Scheduler.Kernel.PickTask | src/filesystem/src/sched.c:28-47 | the outer loop ends, and gives the picked task and the counters of the value function |
| Scheduler.Kernel.SwitchTo | src/filesystem/src/sched.c:59-67 | changes the current task and nothing else |
| Scheduler.Kernel.RunSchedule | src/filesystem/src/sched.c:23-50 | _schedule in place, with the enable done by the task that is switched to |
| Scheduler.Kernel.Schedule | src/filesystem/src/sched.c:52-56 | schedule in place |
| Scheduler.Kernel.TimerTick | src/filesystem/src/sched.c:74-84 | timer_tick in place |
| Scheduler.Kernel.ExitProcess | src/filesystem/src/sched.c:86-96 | exit_process in place: the current task, and only it, becomes a zombie, and another is scheduled |
| Scheduler.Kernel.Fork | src/filesystem/src/fork.c:7-41 | the scheduling part of copy_process in place: a new task object in the next slot, running, with the parent's priority, a counter equal to it and preemption disabled, every other task as before; or -1 with the parent's preemption left disabled |
| Scheduler.Kernel.EndFork | src/filesystem/src/fork.c:28-40 | the end of copy_process in place, once memory is there, with the same new task |
| Scheduler.Kernel.InsertTask | src/filesystem/src/fork.c:36-37 | the table gains the task in the next slot and changes nowhere else |
| Scheduler.Kernel.MarkZombie | src/filesystem/src/sched.c:88-93 | the loop of exit_process ends at the current task and changes its state only |
| ForkProcess.Processes.constructor | src/filesystem/src/sched.c:7-10 | one task without memory, no frame marked |
| ForkProcess.Processes.TaskPage | src/filesystem/src/fork.c:11-17 | the page for the task_struct in place: that of allocate_kernel_page on values, or none |
| ForkProcess.Processes.NewMemory | src/filesystem/src/fork.c:11-27 | the page for the task_struct and the copy of the parent's pages, in place: the memory becomes that of the fork on values, or nothing changes and there is no page |
| ForkProcess.Processes.CopyProcess | src/filesystem/src/fork.c:7-41 | copy_process in one piece: memory, task table and returned number are those of the fork on values, on both sides, for the same outcome; the new task is the one that `Scheduling.ForkResult` describes |
| Inodes.SonsUnique | src/filesystem/include/filesystem.h:38-48 | the lists of sons are determined by the links of the table |
| Inodes.LiveIsReachable | src/filesystem/src/filesystem.c:52-74 | in a well-formed table a slot is in use iff it is reachable from the root by father links |
| InodeCreation.CreateKeeps | src/filesystem/src/filesystem.c:52-74 | linking an empty slot at the tail of a folder's sons keeps the forest well-formed: chains acyclic and disjoint, fathers and chains in agreement, files without sons, empty slots unlinked |
| InodeCreation.FullIsReachable | src/filesystem/src/filesystem.c:54-73 | alloc_inode finds no slot iff the whole table is reachable from the root |
| FsLaws.DeleteKeeps | src/filesystem/src/vfs.c:146-170 | deleting a live node other than the root keeps the forest well-formed |
| FsLaws.DeleteOnly | src/filesystem/src/vfs.c:146-170 | a deletion empties exactly the subtree; every other node keeps all but links, its father and the order of its sons, and only the father's list loses the node |
| FsLaws.LinksLive | src/filesystem/include/filesystem.h:43-45 | every son and brother link leads to a live node |
| FsLaws.CreateThenDelete | src/filesystem/src/filesystem.c:52-171 | deleting a node just created restores every slot of the table but for the name left behind (and a reference count that was not 0), so the next creation takes the same slot |
| FsLaws.DeleteKeepsPaths | src/filesystem/src/vfs.c:146-187 | a deletion keeps the result of every path that led elsewhere, and no path leads into the deleted subtree |
| RamFs.InodeTable.constructor | src/filesystem/src/filesystem.c:29-50 | init_fs gives a well-formed forest of the root alone |
| RamFs.InodeTable.FindLastChild | src/filesystem/src/filesystem.c:12-24 | following the brothers gives the last son, or -1 when there is none |
| RamFs.InodeTable.AllocInode | src/filesystem/src/filesystem.c:52-74 | alloc_inode in place: the first empty slot becomes the last son, or -1 and no change |
| RamFs.InodeTable.FreeInode | src/filesystem/src/filesystem.c:139-171 | free_inode in place: refuses a folder that leads to a son; clears the slot; unlinks it from its father's chain if it is in it, and for a detached node finds nothing to unlink |
| RamFs.InodeTable.DeleteInode | src/filesystem/src/vfs.c:146-170 | delete_inode in place, for a node in its father's chain or already detached by the caller's loop: it ends, and clears exactly the node's subtree |
| Paths.FirstMatch | src/filesystem/src/vfs.c:43-55 | the son found is the first one with the name, and none is found iff no son has it |
| Paths.LookupStep | src/filesystem/src/vfs.c:70-102 | one turn of the loop of parse_path agrees with the meaning of the path: split on slashes, empty tokens dropped, one first-match son per token, nothing for a token over 16 characters, a file only at the very end |
| Paths.TokensOfJoin | src/filesystem/src/vfs.c:57-103 | the tokens of two paths joined by a slash are those of the one followed by those of the other |
| Paths.TokensOfPiece | src/filesystem/src/vfs.c:23-41 | a piece without slashes is one token, and none if it is empty; with the law of joins this determines the tokens of every string |
| Paths.ResolvesIff | src/filesystem/src/vfs.c:57-103 | a path leads to a node iff it starts with a slash, has no token over 16 characters, a way of first matches by name leads from the root down its tokens to the node, and no slash is last if the node is a file |
| Paths.CreateKeepsPaths | src/filesystem/src/filesystem.c:59-66 | a creation keeps the result of every path that resolved, even if the new name is a duplicate |
| Paths.NewResolves | src/filesystem/src/vfs.c:115-144 | after a creation, path/name leads to an elder son of that name if there was one, and otherwise to the new node |
| VfsOperations.RootPath | src/filesystem/src/vfs.c:63-103 | a path leads to the root iff it is made of slashes only: the condition under which a deletion must not be asked for |
| VfsOperations.StepGood | src/filesystem/src/vfs.c:115-458 | every operation keeps the table a well-formed forest, whatever is open or dangling |
| VfsLaws.CreateSucceeds | src/filesystem/src/vfs.c:115-144 | a creation succeeds iff the name has 1 to 16 characters, the path leads to a folder and some slot is unreachable; otherwise the code tells the first of these that fails, and nothing changes |
| VfsLaws.CreateResult | src/filesystem/src/vfs.c:330-359 | a creation fills the first empty slot, appends it to its folder's sons, keeps every path, and makes path/name lead to the first son of that name |
| VfsLaws.DeleteResult | src/filesystem/src/vfs.c:172-187 | a deletion succeeds iff the path leads somewhere, and otherwise answers VFS_INVALID_FD and changes nothing; after a success exactly the nodes below are gone and all other paths lead where they led |
| VfsLaws.CreateThenDeleteUndoes | src/filesystem/src/vfs.c:115-187 | creating a new name and deleting it by its path undoes the creation |
| VfsLaws.OpenThenDelete | src/filesystem/src/vfs.c:172-215 | opening a file and deleting it breaks the agreement of counts and descriptors, in every state where it held |
| VfsLaws.RefsCanBreak | src/filesystem/src/vfs.c:115-215 | the failing run from the state after boot: create, open and delete a file |
| Vfs.Vfs.constructor | src/filesystem/src/vfs.c:20-21 | at the start only the root exists, nothing is open, all reference counts agree and all sizes are 0 |
| Vfs.Vfs.GetPathFirstToken | src/filesystem/src/vfs.c:23-41 | the token buffer gets the characters up to the first slash or the end, and a NUL; -1 iff these are more than 16 |
| Vfs.Vfs.GetSonInode | src/filesystem/src/vfs.c:43-55 | walking the brothers finds the first son of that name |
| Vfs.Vfs.ParsePath | src/filesystem/src/vfs.c:57-103 | ends on every string with the node that the path means, or null; its branch for an empty node is never taken |
| Vfs.Vfs.GetNextFd | src/filesystem/src/vfs.c:105-113 | the lowest free descriptor, or -1 iff there is none |
| Vfs.Vfs.CreateFile | src/filesystem/src/vfs.c:115-144 | create_file in place: error codes in their order, and the new state |
| Vfs.Vfs.CreateDir | src/filesystem/src/vfs.c:330-359 | create_dir in place |
| Vfs.Vfs.DeleteFile | src/filesystem/src/vfs.c:172-187 | delete_file in place, also for a folder |
| Vfs.Vfs.DeleteDir | src/filesystem/src/vfs.c:361-376 | delete_dir in place, also for a file |
| Vfs.Vfs.OpenFile | src/filesystem/src/vfs.c:189-215 | open_file in place, with the code, descriptor and state that `VfsRuns.OpenSucceeds` characterizes; on a bad path the caller's descriptor is already set to a free one |
| Vfs.Vfs.OpenDir | src/filesystem/src/vfs.c:378-404 | open_dir in place, likewise |
| Vfs.Vfs.CloseFile | src/filesystem/src/vfs.c:218-239 | close_file in place, with the code, descriptor and state that `VfsRuns.CloseSucceeds` characterizes |
| Vfs.Vfs.CloseDir | src/filesystem/src/vfs.c:406-427 | close_dir in place, likewise |
| Vfs.Vfs.GetNextDirSon | src/filesystem/src/vfs.c:429-458 | get_next_dir_son in place |
| VfsRuns.StepRefs | src/filesystem/src/vfs.c:189-239 | an operation keeps every reference count equal to the number of descriptors open on the inode iff it does not delete an open node |
| VfsRuns.RunRefs | src/filesystem/src/vfs.c:189-239 | so does every run that never deletes an open node |
| VfsRuns.OpenTakesFree | src/filesystem/src/vfs.c:197-214 | an opening uses a free descriptor and leaves the others alone; VFS_MAX_FD_REACHED iff all 128 are taken; on failure nothing changes |
| VfsRuns.OpenSucceeds | src/filesystem/src/vfs.c:189-215 | open_file and open_dir succeed iff some descriptor is free and the path leads to a node of the kind asked for, and otherwise the code tells which of these fails and nothing changes; a success takes the lowest free descriptor, puts the node in it with nothing read or all sons ahead, and counts one reference more, and nothing else changes |
| VfsRuns.CloseSucceeds | src/filesystem/src/vfs.c:218-239 | close_file and close_dir succeed iff the descriptor is open; then it is free, the caller's is -1, the inode's count and the number of descriptors on it are one lower, and nothing else has changed |
| VfsRuns.OpenThenClose | src/filesystem/src/vfs.c:189-239 | an opening and its closing restore the inode table and the set of free descriptors, and the next opening takes the same descriptor again |
| VfsRuns.NextSucceeds | src/filesystem/src/vfs.c:429-458 | get_next_dir_son gives a name iff its descriptor is open on a folder; otherwise the code tells why and nothing changes |
| VfsRuns.AlwaysReadsAtZero | src/filesystem/src/vfs.c:262-267 | in every run every descriptor's position stays 0 |
| VfsRuns.StepSizes | src/filesystem/src/filesystem.c:164-168 | only writing changes the size of a node that stays, and new or deleted slots have size 0 |
| VfsRuns.CursorStarts | src/filesystem/src/vfs.c:396-403 | with a descriptor free, every folder that a path leads to can be opened, and then has all its sons ahead of the cursor |
| VfsRuns.ListOne | src/filesystem/src/vfs.c:450-457 | one call gives the name under the cursor and moves to the next son, or an empty name at the end, for good |
| VfsRuns.QuietStep | src/filesystem/src/filesystem.c:59-66 | no creation, opening, closing or writing anywhere, and no deletion that spares the folder and its sons, disturbs a listing |
| VfsRuns.ListingRun | src/filesystem/src/vfs.c:429-458 | from any point of a listing: the names are those of the folder's sons in order, none twice, all that were there at the opening before anything empty, and only empty names after an empty one |
| VfsRuns.DirectoryListing | src/filesystem/src/vfs.c:378-458 | the same for a whole listing from open_dir on, of any folder that a path leads to while a descriptor is free, interleaved with any quiet operations |
| FileContents.AppendsRun | src/filesystem/src/filesystem.c:85-112 | in any run of writes, the appends to a file give the first 4096 bytes of its contents and all that was asked, and the returned numbers add up to its growth |
| FileContents.WriteThenAppends | src/filesystem/src/vfs.c:270-321 | a write and any run of appends, with writes to other files between them: the first 4096 bytes of all that was asked; the returned numbers add up to the size |
| FileContents.OthersKept | src/filesystem/src/filesystem.c:85-112 | a run changes only the files it names |
| FileRuns.NamesFiles | src/filesystem/src/vfs.c:115-458 | creations, deletions, openings, closings and listings leave the contents of every file that stays, and none to those that are gone or new |
| FileRuns.DataFiles | src/filesystem/src/filesystem.c:76-112 | what a write or append does to the block and the size is what it does to the contents, and it keeps every inode's kind |
| FileRuns.ContentsSurvive | src/filesystem/src/vfs.c:115-458 | after any run of all these operations, a file that was not deleted or written anew holds the first 4096 bytes of what it held and all that was appended to it |
| FileContents.ReadIsExact | src/filesystem/src/filesystem.c:114-136 | for every unsigned length and every position within the file: a read gives what is there, up to the length asked, iff a condition on its end and the file's size holds; and what it reports in every case, by the end of the request |
| FileContents.ReadPastEnd | src/filesystem/src/filesystem.c:114-136 | what a read from a position behind the end of the file reports in every case; read_file never asks for one |
| FileContents.FirstReadIsExact | src/filesystem/src/filesystem.c:114-136 | the same for the reads of read_file, which start at byte 0; and what they report in every case: 128 for a length from 128 to 2^31 - 1, and otherwise the smaller of length and size |
| FileContents.BufferSuffices | src/filesystem/include/vfs.h:79-88 | the len + 1 bytes that vfs.h asks for are enough for the words a read stores iff the length is at least 128, or a multiple of 8 or one less, or not below the file in whole words |
| FileContents.BufferOverrun | src/filesystem/src/filesystem.c:133-133 | 8 bytes are stored for a read of 5 |
| FileContents.ReadsTooMuch | src/filesystem/src/filesystem.c:130-131 | 128 bytes are reported for a file of 10 |
| FileContents.ReadsTooLittle | src/filesystem/src/filesystem.c:130-131 | 128 bytes are reported where 500 were asked for and there |
| FileContents.ReadsGiveBytes | src/filesystem/src/vfs.c:262-267 | a read that is not turned away reports at least one byte, so the position should have moved |
| FileData.FileStore.constructor | src/filesystem/src/filesystem.c:29-50 | every file starts empty |
| FileData.FileStore.MemWrite | src/filesystem/src/filesystem.S:2-11 | exactly n bytes are stored, at the right place of the right block, and n is returned |
| FileData.FileStore.ResetInode | src/filesystem/src/filesystem.c:76-83 | the file becomes empty, no other file changes, and nothing but a file is touched |
| FileData.FileStore.WriteInode | src/filesystem/src/filesystem.c:85-112 | the contents grow by as many bytes as are asked for and fit, that number is returned, and no other file changes |
| FileData.FileStore.WriteFile | src/filesystem/src/vfs.c:270-297 | write_file replaces the contents; -1 and no change unless the descriptor is open on a file |
| FileData.FileStore.AppendFile | src/filesystem/src/vfs.c:299-321 | append_file adds to the contents; -1 and no change unless the descriptor is open on a file |
| FileData.FileStore.MemCopy | src/filesystem/src/mm.S:1-7 | whole words, and at least one, are copied; the rest of the buffer is as before |
| FileData.FileStore.ReadInode | src/filesystem/src/filesystem.c:114-136 | from any position: the number returned, the bytes in the buffer including the rounding to words, what stays in the buffer, and the error codes |
| FileData.FileStore.ReadFile | src/filesystem/src/vfs.c:241-268 | -1 unless the descriptor is open on a file; an empty string for an empty request or file; otherwise the whole words at the beginning of the block, with nothing else in the buffer changed, the number returned, and that it is exact for requests of less than 128 bytes or at least 2^31 |
| Numerals.DigitsCorrect | src/filesystem/src/printf.c:60-76 | the digits of a number are below the base, have no superfluous leading zero and have the number as their value |
| Numerals.CanonicalUnique | src/filesystem/src/printf.c:60-76 | there is only one such digit string |
| Numerals.DigitsLength | src/filesystem/src/printf.c:60-76 | a number below base^k has at most k digits |
| Printf.NumeralFits | src/filesystem/src/printf.c:128-128 | a 32-bit number has at most 10 decimal and 8 hexadecimal digits |
| Printf.DigitTable | src/filesystem/src/printf.c:71-71 | the characters written for the digits 0 to 15 are those of 0123456789abcdef, and with uc those of 0123456789ABCDEF |
| Printf.NumeralLetters | src/filesystem/src/printf.c:60-76 | every character of a numeral is a digit, or above base 10 a capital letter iff uc is set; up to base 10 uc makes no difference |
| Printf.LeadingPower | src/filesystem/src/printf.c:63-65 | the first loop finds the power of the leading digit without 32-bit overflow |
| Printf.SplitDigit | src/filesystem/src/printf.c:67-69 | one turn of the second loop splits off the next digit, and the digits still to come are those of the remainder |
| Printf.Ui2a | src/filesystem/src/printf.c:60-76 | the buffer gets the one canonical numeral of the number, in the characters of `Printf.DigitTable`, and a NUL, and is otherwise unchanged |
| Printf.I2a | src/filesystem/src/printf.c:78-85 | for every 32-bit number, INT_MIN included, sign, digits and NUL fit 12 bytes and are the text that `Printf.DecimalText` characterizes |
| Printf.DecimalText | src/filesystem/src/printf.c:78-85 | the text of a number has a minus sign in front iff it is negative; what follows is the one canonical string of decimal digits that has the magnitude as value |
| Printf.DecimalInjective | src/filesystem/src/printf.c:78-85 | no two numbers have the same text |
| Printf.DecimalReadsBack | src/filesystem/src/printf.c:98-111 | a2i behind the sign reads the magnitude back, up to INT_MAX, if the next character is not accepted |
| Printf.A2i | src/filesystem/src/printf.c:98-111 | the 32-bit value of the longest run of accepted digits, the character after it, and where reading goes on |
| Printf.DigitValues | src/filesystem/src/printf.c:87-96 | a2d gives a digit value to the characters of 0123456789abcdef and 0123456789ABCDEF, each its place there, and -1 to all others |
| Printf.AcceptedCharacters | src/filesystem/src/printf.c:104-104 | a2i in base b takes the first b + 1 characters of these strings, one too many |
| Printf.NothingAccepted | src/filesystem/src/printf.c:98-111 | in front of any character that is not accepted, a sign among them, a2i reads nothing and gives 0 |
| Printf.WrapStep | src/filesystem/src/printf.c:105-105 | a step in wrapped arithmetic is the step in exact arithmetic, wrapped |
| Printf.NumeralReads | src/filesystem/src/printf.c:87-111 | the digits of a printed numeral have the number as their value |
| Printf.NumeralReadsBack | src/filesystem/src/printf.c:98-111 | a numeral followed by more text reads back, wrapped to 32 bits and so as itself up to INT_MAX, and reading stops right behind it, iff the next character is not accepted; in base 10 those accepted are the digits, a and A |
| Printf.TenIsADigit | src/filesystem/src/printf.c:104-104 | "1a" reads as 20 in base 10 |
| Printf.Putchw | src/filesystem/src/printf.c:113-124 | the output grows by the padding that is missing to the width, and the string |
| Printf.PaddedReadsBack | src/filesystem/src/printf.c:113-124 | a numeral padded with zeros to any width reads back |

## Left out

- UART, GPIO, timer registers, the interrupt controller, boot and exception assembly: hardware with no state that these components read.
- `free_page`: nothing in the kernel calls it.
- `cpu_switch_to`, `set_pgd`, register save and restore, and the copy of `pt_regs` in `copy_process`: a switch only changes the current task here.
- `move_to_user_mode` and `do_mem_abort` apart from their allocate-and-map step; the latter's `ind` counter is a debugging limit.
- Block descriptors and addresses of the upper half in the hardware walk: the code never writes a block descriptor, and user addresses are below 2^48.
- TLB maintenance and caches: a walk sees the tables as they are.
- Interrupts inside one C statement: ticks come between statements.
- The WARN messages and the null-pointer checks of `vfs.c`; `vfs_error` keeps all its members.
- Deleting the root: `free_inode` would follow its null father link, so deletion requires another path; `VfsOperations.RootPath` says which paths are meant.
- Descriptors of 128 and above, which `close_file` and the rest do not check: callers must stay below.
- The byte layout of an inode: the NUL of a 16-character name falls on the low byte of `data_block`, which is 0 for a page address, so name and block are separate fields here.
- In `FileData` each inode has a zeroed block of its own; that the blocks are distinct frames, zeroed and left alone is `MemoryRuns.OneOwnerEach` and `MemoryRuns.KernelPagesKept`, and that there are enough is `KernelRuns.HandOver`.
- `string.c`: names are compared as strings.
- `sys.c`, `user.c`, `kernel.c`, `tfp_format` and the `PRINTF_LONG_SUPPORT` variants: forwarding, demonstration code or duplicates.
- FileData.FileStore.ReadInode: words past the end of a block or of the buffer are ruled out by its precondition, because they are other memory; for `read_file` they never pass the block, and `FileContents.BufferSuffices` says when the buffer is enough.
- FileData.FileStore.ReadFile: likewise, the buffer has room for the words stored.
- ForkIsolation.ForkIsolates: a mapping recorded at 2^48 or above is a fault of the copy, since the running task's tables do not translate such an address; the lower half of the address space is not affected.
- SchedulerFairness.NoStarvation: ticks fall between operations; those inside disabled sections are moves of `Preemption`, and show here as the debts that a run starts with. An exit after which a task that does not run is dispatched is left out, as `SchedulerFairness.ExitKeepsSane` says exactly when.
- MemoryRuns.RunConsistent: each operation on memory is one step; `Interleaving` takes page faults apart.
- Interleaving.ActKeeps: a fault's writes to its new frame and to its own tables and record go with the statement that marks the frame or looks up the next table; no other task reads or writes these. A fork is one step, since preemption is disabled.
- KernelRuns.MemoryInOrder: page faults that would overrun kernel_pages or user_pages do not occur in its runs.
- KernelRuns.PageFaultsServed: the counter `ind` of do_mem_abort is left out; with it every page fault after the first returns -1 although its page is mapped.
- System calls on files are single steps, although they run with interrupts on and preemption enabled: `parse_path` keeps its token in one static buffer for all tasks, `alloc_inode` tests a slot and takes it in two statements, and a deletion relinks brothers in several. The theorems about files hold of runs in which such a call is not preempted by a task that makes another.
