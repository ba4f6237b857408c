# Verified model of the HardCore kernel

A model in Dafny of the data structures and protocols at the heart of HardCore, a small teaching kernel: the run queue
and scheduler, timers, semaphores and the monitor built on them, the simple file system (SFS) and the program that
builds its images, the page allocator, virtual memory areas, page tables, process numbers and the process family.
`dafny verify dfyconfig.toml` checks all of it.

The model follows the code. Objects that the kernel updates in place are classes whose methods carry the loops and
assignments of the C functions; a ghost value says what an object stands for, and the contracts say how that value
changes. Blocking protocols are state machines with one program counter per process, and their theorems are about every
interleaving. Kernel assertions are proved, or, where the code can really fail one, appear as a result `Panic` with the
exact condition under which it does.

| files | what they model |
|---|---|
| `RbShape`, `RbTree` | the intrusive red-black tree, at the level of its pointers |
| `Proc`, `RunQueue`, `Scheduler`, `SchedulerRuns` | the stride and CFS classes on that tree, `schedule` and `wakeup_proc`, and whole runs of them |
| `Fairness`, `FairRuns` | what long runs guarantee to each process |
| `Timer`, `TimerRuns` | the timer list, which stores differences, and whole runs of it |
| `Monitor`, `Philosophers`, `Meals` | semaphores, the Hoare monitor, both dining-philosopher solutions, and who gets to eat in them |
| `Bitmap`, `SfsLayout`, `SfsBytes`, `Sfs` | free blocks, block maps, reading, writing, truncating and reclaiming files |
| `Mksfs`, `Mount` | the image builder, and mounting what it built |
| `Ring`, `Runs`, `Pmm` | circular lists, runs of free pages, and the page allocator |
| `VmaSpec`, `Vmm` | virtual memory areas |
| `PageTable` | page tables, reference counts, unmapping and copying of ranges |
| `AddressSpace`, `SpaceRuns` | areas and page tables together: faults, `brk`, fork and exit, and whole runs of many processes |
| `Pid`, `Forest` | process numbers and family links |

What a reader would not see in any one function:

- The comparators of the run queue never return 0, so searching only ever walks left, and picking a process changes its
  key while its node is still linked. Dequeuing is right all the same, because only the least process is dequeued, and
  that one is on the left edge (`RunQueue.Queue.TakeNext`).
- Wrapped 32-bit strides order processes as unbounded ones would, as long as the keys of the runnable processes lie
  within `BIG_STRIDE` of each other, and picking keeps them there (`RunQueue.AdvanceKeepsSpread`). The window is tight
  (`RunQueue.WindowIsTight`). A newcomer fits in if and only if the comparison stays transitive with it
  (`RunQueue.JoinExact`), and the kernel does not see to that: a new process, whose stride is 0, does not fit in when two
  strides lie on either side of the point half way round (`RunQueue.NewcomerOutOfReach`).
- `sys_nice` stores any priority: 20 makes a later division trap, 0 makes an assertion of the CFS class fail. Both appear as
  results with their exact conditions.
- `copy_range` returns when there is no page for a table, but fails an assertion when there is none for the copy itself;
  which of the two happens, and where, depends only on the number of free pages (`PageTables.StopsAt`).
- Whatever processes do, a page is present only inside one of their areas, and can be written only if the area can
  (`SpaceRuns.Run`). So `dup_mmap` never finds anything in its way in the child, and copies every page that the parent has
  (`AddressSpaces.DupMmap`), and `exit_mmap` never gives back a page table that still maps something
  (`AddressSpaces.UserSpace.Exit`).
- `mm_unmap` does not give back page tables, and `exit_mmap` looks for them only beneath areas. When a process ends, pages
  are lost for good if and only if one of its tables lies beneath no area (`AddressSpaces.UserSpace.Exit`, an example in
  `AddressSpaces.TableLost`). As long as nothing is unmapped, no page is lost, and when all processes have ended all pages
  are free again (`SpaceRuns.Run`).
- `mksfs` builds files of up to 32768 blocks, but the kernel reaches 1036. An image meets the invariant of the file system
  if and only if no file is longer than that (`Mounting.MountsExactly`).
- The double `list_del` in the page allocator is harmless because of the stale links that the first one leaves
  (`Rings.DelAgain`, `Rings.ReplaceRing`).
- SFS accepts sizes up to 128 MB, but a block map reaches 12 + 1024 blocks; a longer write or truncation fails an
  assertion unless the disk is full before. A truncation that ran out of blocks leaves the blocks it got, and a later
  truncation to the same size, as `sfs_reclaim` makes for an empty file, fails an assertion (`Sfs.FailedGrowthExact`).
  The result `Panic` of `Write`, `Truncfile` and `Reclaim` says exactly when.
- A write that starts behind the blocks of a file and gets no block still sets the size to its offset, which the blocks
  then cannot hold. This happens if and only if the write is `Stranded`; `sfs_tryseek` keeps offsets within the file.
- Once the philosophers begin no new meals, every step brings the end nearer: each that is hungry eats, and all are
  thinking again within 20 steps a philosopher with semaphores and 31 with the monitor (`SemaphoreMeals.MealsEnd`,
  `CondvarMeals.MealsEnd`). With new meals a philosopher can wait for ever (`SemaphoreMeals.CanStarve`).
- Under stride, picks follow the shares 20 - priority up to the spread of the keys and the rounding of the division
  (`FairRuns.StrideRun`). Above 20 the unsigned divisor wraps: a process with a priority from 21 to 0x8000_0014 does not
  move on at all, and one beyond does again (`RunQueue.PassExactly`).
- A call of `mm_map`, `mm_unmap` or `mm_brk` whose end passes 2^32 is let through if it comes round to the page in which it
  began, and is then about that page only (`VmaSpec.AcceptsExactly`, `VmaSpec.TouchesExactly`).
- `mm_unmap` looks only at the area that contains the start of the range. It removes the range if and only if the start
  is mapped or nothing in the range is (`VmaSpec.UnmapExact`); `mm_map` and `mm_brk` inherit this.
- The best-fit allocator starts from the constant `0x7ffffffff` in an `int`, which becomes the largest unsigned number in
  the comparison, so it still finds the smallest run that fits.

## Model

| member | source | states |
|---|---|---|
| `RbShape.RotationOrder` | libs/rbtree.c:41-85 | a rotation keeps the in-order sequence, whatever the colours |
| `RbShape.PushRedGap` | libs/rbtree.c:97-107 | recolouring a red uncle moves the only red-red edge two levels up, all black heights kept |
| `RbShape.RaiseLeftGap` | libs/rbtree.c:109-121 | with a black uncle, one or two rotations and a recolouring put the red node below a black parent, all black heights kept |
| `RbShape.RaiseRightGap` | libs/rbtree.c:136-148 | the same on the other side |
| `RbShape.EraseGapClosed` | libs/rbtree.c:230-231 | when the short subtree is red or the whole tree, blackening it makes the tree red-black again |
| `RbShape.ShiftUpGap` | libs/rbtree.c:171-177 | a black sibling without red children gives up its black, and the missing black moves to the parent |
| `RbShape.BorrowLeftGap` | libs/rbtree.c:187-192 | a red outer nephew pays for the missing black: the tree is red-black again |
| `RbShape.BorrowRightGap` | libs/rbtree.c:221-226 | the same on the other side |
| `RbShape.SuccessorGap` | libs/rbtree.c:243-284 | replacing a node by its successor leaves at most the successor's black missing, and only where it was |
| `RbShape.HeightIsLogarithmic` | libs/rbtree.c:87-304 | a red-black tree of n nodes has height h with 2^h at most (n+1)^2, that is h at most 2*log2(n+1) |
| `RbTree.RotateLeft` | libs/rbtree.c:41-62 | the pointers after a left rotation are those of the rotated tree in its unchanged surroundings |
| `RbTree.RotateRight` | libs/rbtree.c:64-85 | the same for a right rotation |
| `RbTree.InsertColor` | libs/rbtree.c:87-152 | from a tree with at most one red-red edge the loop reaches a red-black tree with consistent parent links and the same sequence of nodes |
| `RbTree.EraseColor` | libs/rbtree.c:154-232 | from a tree with at most one black missing the loop reaches a red-black tree with consistent links and the same sequence |
| `RbTree.EraseInner` | libs/rbtree.c:243-284 | the two-child case: the sequence loses exactly the node, and at most one black is missing |
| `RbTree.EraseOuter` | libs/rbtree.c:286-299 | the same for a node with at most one child |
| `RbTree.Erase` | libs/rbtree.c:234-304 | erasing any node of a red-black tree leaves a red-black tree whose sequence is the old one without that node |
| `RbTree.EraseAny` | libs/rbtree.c:234-304 | the same for a node given only by being in the tree: the set of nodes and their sequence lose exactly that node |
| `RbTree.LinkNode` | libs/rbtree.h:214-221 | an empty position gets a red leaf |
| `RbTree.Insert` | libs/rbtree.c:87-152 | linking and rebalancing keep a red-black tree and put the node at the chosen place of the sequence |
| `RbTree.First` | libs/rbtree.c:378-388 | the first node of the sequence, null just for the empty tree |
| `RbTree.Next` | libs/rbtree.c:402-429 | the node that follows in the sequence, or null behind the last; null for an unlinked node |
| `RunQueue.CompareAgrees` | kern/schedule/stride_rb_tree.c:5-23 | within the window the wrapped comparison is the order by unbounded key and pid, for both classes |
| `RunQueue.WindowIsTight` | kern/schedule/stride_rb_tree.c:5-23 | one step beyond the window the wrapped comparison is wrong |
| `RunQueue.JoinExact` | kern/schedule/stride_rb_tree.c:5-23 | there is a number for the stride of a newcomer within BIG_STRIDE of all others if and only if the wrapped comparison stays transitive with it |
| `RunQueue.NewcomerOutOfReach` | kern/process/proc.c:134-137 | a new process, whose stride is 0, fits in if and only if no two strides lie on either side of the point half way round and less than that apart |
| `RunQueue.OutOfReach` | kern/process/proc.c:134-137 | strides of 0x60000000 and 0xA0000000 are such a pair |
| `RunQueue.AdvanceKeepsSpread` | kern/schedule/default_sched.c:40-47 | advancing the least stride keeps every two keys within BIG_STRIDE of each other, for every priority but 20 |
| `RunQueue.HeadIsLeast` | kern/schedule/stride_rb_tree.c:69-78 | the first of the sorted sequence is the least by key and pid |
| `RunQueue.Queue.Insert` | kern/schedule/stride_rb_tree.c:42-67 | the process is inserted where the wrapped comparison leads; in a sorted queue, and for a process it can tell apart from the others, that is where the order wants it |
| `RunQueue.Queue.Search` | kern/schedule/stride_rb_tree.c:25-40 | a process is found if and only if it is on the left edge of the tree |
| `RunQueue.Queue.FindMin` | kern/schedule/stride_rb_tree.c:69-78 | the first process of the sequence, null just for the empty queue |
| `RunQueue.Queue.Enqueue` | kern/schedule/default_sched.c:19-27 | the queue gains exactly this process, and stays sorted if the comparison tells it apart from the others; the time slice is refilled when used up or too large; procNum is the size |
| `RunQueue.Queue.PickNext` | kern/schedule/default_sched.c:40-47 | the least process; under stride its key moves on by the step of PassExactly, in the field modulo 2^32; the division traps just when that priority is 20 |
| `RunQueue.PassExactly` | kern/schedule/default_sched.c:45 | for every priority but 20 the step times the divisor 20 - priority (wrapped above 20) is at most 0x7FFFFFFF and the next greater step would be more; it is 0 if and only if the priority is from 21 to 0x80000014 |
| `RunQueue.PassGrows` | kern/schedule/default_sched.c:45 | below 20 a greater priority has a greater step |
| `RunQueue.Queue.Dequeue` | kern/schedule/default_sched.c:29-38 | takes out the process on the left edge with that pid, and only that one; otherwise changes nothing |
| `RunQueue.Queue.DequeueFirst` | kern/schedule/cfs_sched.c:28-38 | dequeuing the first process removes it and nothing else, whatever its key now is |
| `RunQueue.Queue.TakeNext` | kern/schedule/sched.c:85-87 | pick and dequeue together remove exactly the least process, whose key moves on by the step of PassExactly, and leave the queue sorted, or trap just when its priority is 20 |
| `Scheduler.Scheduler.constructor` | kern/schedule/sched.c:44-53 | idle runs, the queue is new and empty, no process has a key, and the invariant between scheduler calls holds |
| `Scheduler.Scheduler.SchedEnqueue` | kern/schedule/sched.c:15-20 | the queue gains the process, unless it is idle |
| `Scheduler.Scheduler.Wakeup` | kern/schedule/sched.c:55-73 | the process becomes runnable with its slice refilled, and one that was runnable is left alone; the tree holds exactly the runnable processes other than idle and current, once each; it is sorted if and only if the comparison tells the newcomer apart from the runnable ones |
| `Scheduler.Scheduler.Schedule` | kern/schedule/sched.c:75-97 | keeps that invariant; the runnable process with the least key runs next, or idle if there is none; its key, by the step of PassExactly under stride, its run count and the slice and need_resched of the old one are all that changes; traps just when the stride of the next process cannot be moved on |
| `Scheduler.Scheduler.Charge` | kern/schedule/cfs_sched.c:57-58 | the running process's vruntime grows by its priority without disturbing the tree; the assertion fails just when that is 0 |
| `Scheduler.Scheduler.Tick` | kern/schedule/sched.c:32-40 | the effect of a tick on slice, vruntime and need_resched of the running process, for both classes and idle, and the exact condition of the failing assertion; the invariant holds |
| `Scheduler.Scheduler.Nice` | kern/syscall/syscall.c:240-252 | any priority of any process can be changed at any time without disturbing the queue |
| `SchedulerRuns.Step` | kern/schedule/sched.c:32-97 | every event keeps the invariant, for forks, wakeups, ticks, scheduler calls, sleeping, exiting and renicing, or fails just as Fails says; what it does to the state of each process, who runs then, and the new priorities; waking a zombie fails an assertion |
| `SchedulerRuns.WakePid` | kern/schedule/sched.c:55-73 | the process becomes runnable and joins those that compete, no other state changes; fails just as Fails says |
| `SchedulerRuns.Run` | kern/schedule/sched.c:32-97 | from sched_init on any sequence of events keeps the invariant, with one process more for every fork; as long as nobody is reniced to 0 or 20, only a wakeup can fail, and under CFS only that of a zombie |
| `FairRuns.Tick` | kern/schedule/cfs_sched.c:48-64 | a tick of the scheduler is a tick of the transition system of Fairness |
| `FairRuns.Resched` | kern/schedule/sched.c:75-97 | a call of the scheduler is a rescheduling of that system |
| `FairRuns.CfsRun` | kern/schedule/cfs_sched.c:18-64 | however many ticks and scheduler calls the scheduler gets, the vruntimes stay within max(first spread, slice*priority) of each other and priority*ticks of any two processes within a constant |
| `FairRuns.Pick` | kern/schedule/default_sched.c:40-47 | a call of the scheduler under stride is a pick of that system |
| `FairRuns.StrideRun` | kern/schedule/default_sched.c:40-47 | however often the scheduler is called, step*picks of any two processes differ by at most 2*d, and their keys by at most d, where d bounds every step and the first spread; so the picks are as the shares 20 - priority, up to d and the rounding of the steps; the strides may wrap |
| `Fairness.CfsIsFair` | kern/schedule/cfs_sched.c:18-64 | the same bounds for every run of the transition system whose steps those of the scheduler are |
| `Fairness.StrideIsProportional` | kern/schedule/default_sched.c:40-47 | likewise for every sequence of picks |
| `Fairness.SharesFollow` | kern/schedule/default_sched.c:45 | that bound on steps gives the bound on shares, for any steps that are shares rounded down |
| `TimerSpec.FiresOnTime` | kern/schedule/sched.c:99-170 | a timer added with n ticks is pending after fewer than n ticks, and fires at the n-th, whatever else is added or deleted |
| `TimerSpec.NoOvertaking` | kern/schedule/sched.c:138-170 | of two timers that fire at the same tick, the one in front fires first |
| `TimerSpec.AddedBehind` | kern/schedule/sched.c:99-118 | a new timer goes behind all that are due no later |
| `TimerSpec.OrderKept` | kern/schedule/sched.c:99-170 | adding or deleting another timer never changes the order of two pending ones |
| `TimerSpec.StaysPending` | kern/schedule/sched.c:99-170 | over any run without its deletion a timer keeps its deadline: what it has left drops by one at each tick, until it is due |
| `Timers.TimerList.AddTimer` | kern/schedule/sched.c:99-118 | on the stored differences, the queue of absolute times gains exactly the new timer, and no other deadline changes |
| `Timers.TimerList.DelTimer` | kern/schedule/sched.c:120-136 | the queue loses exactly that timer; one that is not listed is left alone |
| `Timers.TimerList.RunTick` | kern/schedule/sched.c:138-170 | every pending timer is one tick nearer, those that reach zero are returned in order, and the head stays positive |
| `TimerRuns.Serve` | kern/schedule/sched.c:99-170 | over any sequence of added and deleted timers and ticks, exactly the timers whose deadlines have come and that were not deleted before have fired, each at its deadline and for the process of its call, in the order of deadlines and for equal deadlines in the order of adding |
| `Semaphores.Semaphore.Up` | kern/sync/sem.c:16-30 | one more can pass; if anybody waits, the one who has waited longest is woken; nobody waits while something is left |
| `Semaphores.Semaphore.Down` | kern/sync/sem.c:32-54 | one fewer can pass; the caller waits, behind all others, just when none could |
| `Semaphores.Semaphore.TryDown` | kern/sync/sem.c:67-76 | passes just when nobody would have to wait, and never queues |
| `Semaphores.Semaphore.Serve` | kern/sync/sem.c:16-54 | over any number of calls processes get through in the order in which they asked, and as many as the value and the calls of up allow |
| `Semaphores.FirstComeFirstServed` | kern/sync/sem.c:16-54 | in every run processes get through in the order in which they asked, none is lost, their number is what initial value and ups allow, and a positive value means an empty queue |
| `Monitor.InitInv` | kern/sync/monitor.c:8-23 | a new monitor has its token in mutex |
| `Monitor.StepInv` | kern/sync/monitor.c:26-72 | every step of every process moves the one token as TokenNext says and keeps the invariant |
| `Monitor.RunInv` | kern/sync/monitor.c:26-72 | the invariant holds in every state that any interleaving reaches |
| `Monitor.OneToken` | kern/sync/monitor.c:26-72 | mutex, next and all condition semaphores are one split binary semaphore: values and holders always add up to one |
| `Monitor.NeverStuck` | kern/sync/monitor.c:26-72 | while some process is neither outside nor waiting for a condition, some process can go on without a new call |
| `CondvarPhilosophers.StepPInv` | kern/sync/check_sync.c:172-221 | every step of every philosopher keeps the table's invariant, for any number of at least two |
| `CondvarPhilosophers.Safe` | kern/sync/check_sync.c:172-221 | in every reachable state no two neighbours eat, a philosopher who has taken the forks eats and the neighbours do not, and at most one process is inside the monitor |
| `CondvarPhilosophers.NobodyForgotten` | kern/sync/check_sync.c:172-221 | whenever mutex is free no hungry philosopher could eat, and one who waits is hungry beside one who eats |
| `CondvarPhilosophers.NoDeadlock` | kern/sync/check_sync.c:172-221 | in every reachable state some philosopher can take a step |
| `CondvarMeals.StepForward` | kern/sync/check_sync.c:172-221 | every step takes its philosopher on towards thinking again, moves no other away from it, and lets nobody pass by the meal |
| `CondvarMeals.MealsEnd` | kern/sync/check_sync.c:172-221 | from every reachable state, a run that begins no new meal has at most 31 steps a philosopher, and can go on until all are thinking |
| `CondvarMeals.CanReturn` | kern/sync/check_sync.c:172-221 | from every reachable state there is a run, without new meals, after which all are thinking |
| `CondvarMeals.PassesTheMeal` | kern/sync/check_sync.c:172-221 | in every such run each philosopher that was taking the forks eats |
| `CondvarMeals.CanEat` | kern/sync/check_sync.c:172-221 | from every reachable state every philosopher can come to eat, and one that is taking the forks does so without anybody beginning a new meal |
| `SemaphorePhilosophers.StepSInv` | kern/sync/check_sync.c:86-112 | every step of every philosopher keeps the invariant of the semaphore solution |
| `SemaphorePhilosophers.Safe` | kern/sync/check_sync.c:86-112 | in every reachable state no two neighbours eat, each private semaphore is 0 or 1 and 1 only for a pending grant, and with mutex free no hungry philosopher could eat and one who waits is beside one who eats |
| `SemaphorePhilosophers.NoDeadlock` | kern/sync/check_sync.c:86-112 | in every reachable state some philosopher can take a step |
| `SemaphoreMeals.StepForward` | kern/sync/check_sync.c:86-112 | every step takes its philosopher on towards thinking again, moves no other away from it, and lets nobody pass by the meal |
| `SemaphoreMeals.MealsEnd` | kern/sync/check_sync.c:86-112 | from every reachable state, a run that begins no new meal has at most 20 steps a philosopher, and can go on until all are thinking |
| `SemaphoreMeals.CanReturn` | kern/sync/check_sync.c:86-112 | from every reachable state there is a run, without new meals, after which all are thinking |
| `SemaphoreMeals.PassesTheMeal` | kern/sync/check_sync.c:86-112 | in every such run each philosopher that was taking the forks eats |
| `SemaphoreMeals.CanEat` | kern/sync/check_sync.c:86-112 | from every reachable state every philosopher can come to eat, and one that is taking the forks does so without anybody beginning a new meal |
| `SemaphoreMeals.CanStarve` | kern/sync/check_sync.c:86-112 | of five philosophers one can wait for ever while its neighbours eat again and again |
| `Bitmaps.Bitmap.constructor` | kern/fs/sfs/bitmap.c:19-51 | all bits are set, and the bits that only fill the last word are clear |
| `Bitmaps.Bitmap.Alloc` | kern/fs/sfs/bitmap.c:55-73 | clears the lowest set bit, and fails just when there is none |
| `Bitmaps.Bitmap.Test` | kern/fs/sfs/bitmap.c:77-93 | reads the bit |
| `Bitmaps.Bitmap.Free` | kern/fs/sfs/bitmap.c:95-103 | sets the bit and no other |
| `Bitmaps.Bitmap.Load` | kern/fs/sfs/sfs_fs.c:127-140 | the words read from the freemap become the bits of the map |
| `SfsLayout.EntryWrite` | kern/fs/sfs/sfs_inode.c:270 | writing an index entry changes that entry only, byte for byte |
| `SfsLayout.EntryBytes` | kern/fs/sfs/sfs_inode.c:263-270 | an index entry is four bytes of the block, the low one first |
| `SfsLayout.PutInFile` | kern/fs/sfs/sfs_io.c:98-119 | a block that is written shows up in the one file that owns it, at its place, and in no other |
| `SfsLayout.AppendIndexed` | kern/fs/sfs/sfs_inode.c:255-280 | a new index block and a new data block extend the file by one cleared block; every other file and the ownership of all blocks are kept |
| `SfsLayout.ShrinkIndirect` | kern/fs/sfs/sfs_inode.c:342-358 | giving up the last indirect block shortens the file by one block and keeps everything else |
| `SfsLayout.RemoveInode` | kern/fs/sfs/sfs_inode.c:1090-1095 | removing an inode without data blocks frees its block and its index block and keeps everything else |
| `SfsBytes.BytesSplice` | kern/fs/sfs/sfs_io.c:106-119 | changing a piece of block i changes that piece of the file's bytes |
| `SfsBytes.ReadBack` | kern/fs/sfs/sfs_inode.c:771-853 | what was written is read back, and the bytes before and behind it are as they were |
| `Sfs.CountUnused` | kern/fs/sfs/sfs_fs.c:234-240 | counts the set bits of the freemap |
| `Sfs.FileSystem.BlockAlloc` | kern/fs/sfs/sfs_inode.c:108-119 | the lowest free block, cleared, and the count lowered; fails just when no block is free |
| `Sfs.FileSystem.BlockFree` | kern/fs/sfs/sfs_inode.c:124-130 | sets the block's bit and raises the count |
| `Sfs.FileSystem.CreateEntry` | kern/fs/sfs/sfs_inode.c:255-287 | the entry and, if needed, the index block are created; when blocks run out half-way the freemap and the count are as before |
| `Sfs.FileSystem.BmapLoad` | kern/fs/sfs/sfs_inode.c:401-419 | the block of a file block, or the next one made; succeeds just when enough blocks are free, and a failure leaves freemap, count and all inodes unchanged |
| `Sfs.FileSystem.BmapTruncate` | kern/fs/sfs/sfs_inode.c:426-437 | the file loses its last block, which becomes free, and nothing else changes |
| `Sfs.StrandedExact` | kern/fs/sfs/sfs_inode.c:847-851 | a write behind the blocks of a file fails without having written anything if and only if no block is left for it |
| `Sfs.StrandedWrite` | kern/fs/sfs/sfs_inode.c:847-851 | a write at offset 1 of an empty file on a full disk is such a case |
| `Sfs.FileSystem.Write` | kern/fs/sfs/sfs_inode.c:771-853 | the contents are overlaid with exactly the bytes written, all of them or, for want of blocks, a prefix; the bytes up to an offset behind the end are those of the last block, then zeros; other files are unchanged and the free blocks drop by what the growth costs; the result is WriteRet of inode and free blocks; sizes stay within the blocks if and only if the write is not Stranded; the range is refused if and only if it starts outside 0 to 128 MB or ends at 2^31 or beyond, and success means that all bytes were written |
| `Sfs.FileSystem.Read` | kern/fs/sfs/sfs_inode.c:771-853 | returns exactly the bytes from offset to the end of the range or of the file, so every range within the file in full, and changes nothing; refuses a range under the same condition |
| `Sfs.GoodRange` | kern/fs/sfs/sfs_inode.c:774-785 | every range within the largest file, 1036 blocks, is accepted and not cut short; beyond that a range is accepted if and only if it starts below 128 MB and ends below 2^31 |
| `Sfs.WrittenInFull` | kern/fs/sfs/sfs_inode.c:771-853 | a write that succeeds lies within the largest file |
| `Sfs.FileSystem.GrowTo` | kern/fs/sfs/sfs_inode.c:1163-1171 | the file gets cleared blocks up to the wanted number, and fails just when they do not suffice, with as many as there were |
| `Sfs.FileSystem.ShrinkTo` | kern/fs/sfs/sfs_inode.c:1172-1180 | the file gives up exactly its blocks from the wanted number on |
| `Sfs.FileSystem.Truncfile` | kern/fs/sfs/sfs_inode.c:1143-1188 | size and block count match on success and the common prefix of the contents is kept; a failure keeps the contents and as many blocks as there were; the free blocks drop by what growth costs; the result is TruncRet of the inode and the free blocks |
| `Sfs.FailedGrowthExact` | kern/fs/sfs/sfs_inode.c:1155-1171 | for every file whose blocks match its size: after a growth that ran out of blocks, truncating to the size it still has fails an assertion if and only if there were enough free blocks at first for one more block of the file |
| `Sfs.FileSystem.GrowAndReturn` | kern/fs/sfs/sfs_inode.c:1143-1188 | the same of two calls of Truncfile |
| `Sfs.EmptyFileStuck` | kern/fs/sfs/sfs_inode.c:1163-1171 | an empty file that is to get two blocks when one is free is such a case |
| `Sfs.FileSystem.Reclaim` | kern/fs/sfs/sfs_inode.c:1064-1103 | while others claim or hold the inode nothing happens; then an unlinked file returns exactly the blocks it owned to the freemap and the count, and a linked one keeps them; the failing assertions have their exact conditions |
| `Mksfs.Image.constructor` | tools/mksfs.c:242-273 | unused blocks are those not given out |
| `Mksfs.Image.AllocIno` | tools/mksfs.c:192-199 | block numbers are given out in order, each once, and the count follows |
| `Mksfs.Image.UpdateCache` | tools/mksfs.c:401-414 | makes a zeroed index block when there is none, failing just when the image is full, and says when it would have to search the cache |
| `Mksfs.CacheFile.AppendBlock` | tools/mksfs.c:416-445 | the direct, indirect and doubly indirect blocks list exactly the blocks appended, in order, with as few index blocks as that takes, all of them new; the cache is never searched; other files keep their index blocks; it stops just when the file is too big or the image too small |
| `Mksfs.OtherHolds` | tools/mksfs.c:416-445 | a file that shares no index block with the one appended to is laid out as it was |
| `Mksfs.AppendTo` | tools/mksfs.c:416-445 | appending to one of many files adds one block and its bytes to that file, keeps all of them laid out, and no block number is used twice in the image; the exact condition for enough room |
| `Mksfs.Create` | tools/mksfs.c:220-231 | so does a new file |
| `Mksfs.Build` | tools/mksfs.c:331-445 | any number of files filled in any order is done if and only if all of it fits on the disk and no file gets beyond 32768 blocks; then the files, their blocks and their sizes are those asked for, every file is laid out as the kernel will find it, no block is used twice, none lies in the freemap, and just the numbers not given out are marked free |
| `Mksfs.KernelFinds` | kern/fs/sfs/sfs_inode.c:297-334 | the kernel's block map finds each of the first 1036 blocks that the image builder appended, and nothing behind them |
| `Mksfs.Freemap` | tools/mksfs.c:331-353 | the freemap written has exactly the bits from next_ino to ninos set |
| `Mksfs.Image.CloseFreemap` | tools/mksfs.c:331-353 | the number of those bits is unused_blocks, so the image passes the kernel's check on mounting |
| `Mounting.MountsExactly` | kern/fs/sfs/sfs_fs.c:154-245 | an image that was built and written out meets the invariant of the file system, with a use for each block, if and only if no file is longer than a block map reaches |
| `Mounting.Mount` | kern/fs/sfs/sfs_fs.c:154-245 | mounting such an image gives a file system in order, with the count of free blocks that mksfs wrote, in which each file has exactly the blocks that were put into it |
| `Rings.DelRing` | libs/list.h:85-88 | deleting an entry leaves a ring of the others |
| `Rings.DelAgain` | kern/mm/default_pmm.c:60-68 | deleting an entry that was just deleted changes nothing |
| `Rings.AddRing` | libs/list.h:61-75 | inserting an entry between two neighbours leaves a ring with it in that place |
| `Rings.ReplaceRing` | kern/mm/default_pmm.c:60-68 | deleting an entry, adding another behind it and deleting it again puts the other in its place |
| `Runs.Unique` | kern/mm/default_pmm.c:146-189 | a set of free pages can be written as sorted, non-touching runs in one way only |
| `Runs.TakeFree` | kern/mm/default_pmm.c:58-71 | taking pages from a run makes exactly those pages not free |
| `Runs.TakeThenGive` | kern/mm/default_pmm.c:41-189 | giving back what was just taken restores the very same runs, however it is done |
| `Runs.MergeJoin` | kern/mm/default_pmm.c:160-176 | joining a touching run keeps the free pages, their number and the progress of the scan |
| `PageAllocator.FreeArea.FindFirst` | kern/mm/default_pmm.c:47-57 | the first run that is long enough, or none just when no run is |
| `PageAllocator.FreeArea.FindBest` | kern/mm/default_pmm.c:81-92 | the smallest run that is long enough, the first of those |
| `PageAllocator.FreeArea.FindWorst` | kern/mm/default_pmm.c:116-127 | the largest run, the last of those |
| `PageAllocator.FreeArea.Detach` | kern/mm/default_pmm.c:58-71 | the links, sizes, flags and count after an allocation are those of the runs without the pages taken |
| `PageAllocator.FreeArea.Alloc` | kern/mm/default_pmm.c:41-143 | takes the pages from the front of the run its policy chooses, and fails just when no run is long enough |
| `PageAllocator.FreeArea.FreePages` | kern/mm/default_pmm.c:146-189 | the free pages grow by exactly the range, and the list is again the sorted, non-touching runs of the free pages |
| `PageAllocator.FreeArea.AllocThenFree` | kern/mm/default_pmm.c:41-189 | freeing right after allocating restores the identical list |
| `PageAllocator.FreeArea.InitMemmap` | kern/mm/default_pmm.c:24-39 | a run of reserved pages becomes free at the end of the list, which stays sorted if and only if the run lies behind all others |
| `VmaSpec.CutLookup` | kern/mm/vmm.c:519-586 | cutting a range out removes exactly the mappings in it, across holes and trims on both sides |
| `VmaSpec.LeastPages` | kern/mm/vmm.c:137-138 | the rounded range of a call holds every byte asked for, with less than a page more at either end |
| `VmaSpec.AcceptsExactly` | kern/mm/vmm.c:137-142 | a call is let through if and only if its bytes are user memory and it is about a page; in the last page of memory it is not, and past the end of memory just when it comes round to its first page |
| `VmaSpec.TouchesExactly` | kern/mm/vmm.c:137-138 | the range is the pages that hold one of the bytes of the call |
| `VmaSpec.PutsBytes` | kern/mm/vmm.c:135-164 | so after mm_map every byte asked for has the flags, and after mm_unmap none is mapped |
| `VmaSpec.UnmapExact` | kern/mm/vmm.c:530-532 | mm_unmap removes exactly the range if and only if its start is mapped or nothing in it is |
| `VmaSpec.UnmapMisses` | kern/mm/vmm.c:530-532 | a mapping behind an unmapped start is not removed |
| `VmaSpec.NeighboursDecide` | kern/mm/vmm.c:107-113 | the overlap checks on the two neighbours succeed if and only if the new area overlaps none |
| `VmaSpec.ExtendGood` | kern/mm/vmm.c:610-613 | an area can be extended without overlap if and only if there is room for what it gains |
| `Vmm.Mm.FindVma` | kern/mm/vmm.c:48-77 | with or without the cache, the area that contains the address, or null just when there is none |
| `Vmm.Mm.InsertVma` | kern/mm/vmm.c:90-119 | the area goes where its start belongs; the assertions fail just when it is empty or overlaps another |
| `Vmm.Mm.RemoveVma` | kern/mm/vmm.c:642-656 | the area goes, with the cache entry if it was that one, and map_count follows |
| `Vmm.Mm.Resize` | kern/mm/vmm.c:623-639 | the area shrinks to whole pages inside itself and the list stays sorted |
| `Vmm.Mm.PunchHole` | kern/mm/vmm.c:534-547 | a hole inside one area leaves the two parts |
| `Vmm.Mm.PutBack` | kern/mm/vmm.c:561-584 | the areas taken out come back trimmed, or not at all, in their old order |
| `Vmm.Mm.Unmap` | kern/mm/vmm.c:519-586 | the list becomes that of the old mappings with the range cut out, if the start was mapped, so that none of the bytes asked for and nothing else of their pages is mapped, and stays as it was otherwise; the ranges passed to unmap_range hold exactly the addresses that were mapped in the range; no assertion fails |
| `Vmm.Mm.Map` | kern/mm/vmm.c:135-164 | every page that holds one of the bytes asked for is mapped with the flags and nothing else changes; the error and the failing assertion have their exact conditions |
| `Vmm.Mm.Brk` | kern/mm/vmm.c:598-621 | when the start is mapped or nothing in the range is, every page that holds one of the bytes becomes readable and writable memory and nothing else changes; otherwise the areas come to overlap or an assertion fails, depending on the area below |
| `Vmm.BrkOverlaps` | kern/mm/vmm.c:606-615 | two areas that mm_brk makes overlap |
| `Vmm.Mm.UserMemCheck` | kern/mm/vmm.c:460-494 | true if and only if the range is in user space and every byte lies in an area that allows the access |
| `Vmm.DupArea` | kern/mm/vmm.c:171-179 | the child gains the parent's area, a new one, and keeps those it had; the assertions fail just when the two overlap |
| `Vmm.MapThenUnmap` | kern/mm/vmm.c:135-586 | what mm_map has mapped, mm_unmap removes again, and nothing else |
| `PageTables.Mmu.GetPte` | kern/mm/pmm.c:259-285 | a missing table is made, empty, when asked for and a page is free; no mapping changes |
| `PageTables.Mmu.SetupPgdir` | kern/process/proc.c:311-323 | a new directory in a page of its own, without user mappings; fails just when no page is free |
| `PageTables.Mmu.PageRemovePte` | kern/mm/pmm.c:299-318 | exactly that mapping goes, and its page is freed just when it was the last |
| `PageTables.Mmu.PageInsert` | kern/mm/pmm.c:401-420 | exactly that entry changes; every page's count stays its number of mappings, and a page becomes free just when it lost its last one |
| `PageTables.Mmu.PgdirAllocPage` | kern/mm/pmm.c:429-455 | a new page is mapped at the place; fails just when there is none for it or for its table, and then nothing changes |
| `PageTables.ShareAt` | kern/mm/pmm.c:401-420 | a page that is mapped already is mapped at another place as well, and its count is then at least two |
| `PageTables.Mmu.UnmapRange` | kern/mm/pmm.c:320-336 | exactly the present mappings of the range go, though whole tables are skipped, and exactly the pages that lost their last mapping become free |
| `PageTables.Mmu.ExitRange` | kern/mm/pmm.c:338-352 | exactly the tables beneath the range, which map nothing any more, become free pages |
| `PageTables.Mmu.PutPgdir` | kern/process/proc.c:325-329 | the page of the directory becomes free; the pages of the tables it still has are lost |
| `PageTables.Mmu.CopyRange` | kern/mm/pmm.c:354-390 | succeeds if and only if one page is free for each page of the parent and for each table the child lacks; then every page of the parent in the range is mapped in the child on a page of its own with the same contents, writable just when that of the parent is and open to the user just when that is, and nothing else changes; else StopsAt says at which page it ends and whether it returns or an assertion fails |
| `PageTables.NeededNext` | kern/mm/pmm.c:366-386 | a page of the parent costs one page, and one more if no table of the child covers it yet |
| `PageTables.Step` | kern/mm/pmm.c:259-455 | what each event does to the mappings: the new directory, the page mapped or shared, the range unmapped, the copy; and no page is lost by it |
| `PageTables.Run` | kern/mm/pmm.c:259-455 | over any sequence of new address spaces, pages mapped on demand or shared, unmapped ranges and copies, counts are numbers of mappings and every page is free, used for tables or mapped: none is lost |
| `AddressSpaces.UserSpace.Unmap` | kern/mm/vmm.c:519-586 | keeps every present page inside an area; exactly the pages that hold one of the bytes asked for go, from the areas and from the tables, if the start is mapped, and none otherwise; no page of the range is left if and only if the start was mapped or none was there |
| `AddressSpaces.UserSpace.Map` | kern/mm/vmm.c:135-164 | keeps that invariant, page tables untouched; the pages of the bytes asked for get the flags; the exact conditions of error and failing assertion |
| `AddressSpaces.UserSpace.Brk` | kern/mm/vmm.c:598-621 | keeps that invariant if and only if it fails or sees all that is mapped in its range; then the pages of the bytes asked for are gone and are ordinary memory |
| `AddressSpaces.UserSpace.Fault` | kern/mm/vmm.c:352-458 | a page is mapped only inside an area that allows the access: a write just where the area is writable, a read just of an absent page where it is readable or executable; the page is the user's, and writable just when the area is; the outcome depends on area, entry and free pages as stated |
| `AddressSpaces.PermittedExactly` | kern/mm/vmm.c:366-383 | which accesses are let through, by the bits of the error code and of the flags |
| `AddressSpaces.DupMmap` | kern/mm/vmm.c:166-186 | succeeds if and only if the child has nothing in the way of the parent's areas and one page is free for each page and each new table; then the child has the parent's areas and a copy of its own of every page of the parent |
| `AddressSpaces.Fork` | kern/process/proc.c:332-376 | the same of a new process, whose directory takes one page more; when memory runs out, all mappings, tables and free pages are as before |
| `AddressSpaces.CopyAllowsTheSame` | kern/mm/pmm.c:371 | after a copy every page of the child is writable just when that of the parent is, open to the user just when that is, and has the very flags of a page that a fault has mapped |
| `AddressSpaces.UserSpace.Exit` | kern/mm/vmm.c:188-202 | nothing of the address space stays mapped and no other one changes; the pages lost are those of the tables beneath no area, so none is lost if and only if every table lies beneath one |
| `AddressSpaces.TableLost` | kern/mm/vmm.c:188-202 | a process that maps a page, touches it, unmaps it and ends loses a page for good |
| `SpaceRuns.Step` | kern/mm/vmm.c:135-621 | what each event does to the table of processes, to the areas of each and to the mappings, by the bytes of the call; and that no other process notices |
| `SpaceRuns.Run` | kern/mm/vmm.c:135-621 | over any sequence of new processes, mappings, unmappings, growth, faults, forks and exits, every present page lies in an area that allows it; if nothing is unmapped no page is lost, and when all processes have ended all pages are free |
| `Pids.PidTable.Scan` | kern/process/proc.c:202-222 | ends at a free pid with a free range behind it, without passing a free pid |
| `Pids.PidTable.GetPid` | kern/process/proc.c:192-224 | terminates with the next free pid in cyclic order, and the open window up to next_safe holds no live pid |
| `Pids.PidTable.Fork` | kern/process/proc.c:501-503 | the new process is listed under a pid that no other has; the window stays free |
| `Pids.PidTable.Reap` | kern/process/proc.c:961-966 | the pid, and no other, is free again; the window stays free |
| `Forest.ChildrenNameParent` | kern/process/proc.c:163-189 | the children of a process are exactly those that name it as their parent |
| `Forest.ProcTable.SetLinks` | kern/process/proc.c:163-173 | the new process becomes the youngest child of its parent; every other family is unchanged |
| `Forest.ProcTable.RemoveLinks` | kern/process/proc.c:175-189 | the process leaves its parent's children in their order; every other family is unchanged |
| `Forest.ProcTable.Reparent` | kern/process/proc.c:570-586 | the exiting process ends with no children and init gains exactly them, the oldest in front |
| `Forest.ProcTable.Walk` | kern/process/proc.c:933-941 | walking cptr and then optr lists the children once each |

## Left out

- Fairness.CfsIsFair: is about a fixed set of runnable processes, on numbers that do not wrap; FairRuns.CfsRun requires that the 32-bit vruntimes do not wrap during the run.
- Fairness.StrideIsProportional: is about a fixed set of runnable processes.
- Sfs.FileSystem.Truncfile: the bytes that a growing file gains in its old last block are those a shrinking one left there; they are not claimed to be zero.
- Sfs.FileSystem.constructor: takes the inodes and the use of each block as given; reading inodes from disk, dirty marks and writing them back are not modelled.
- Vmm.DupArea: does not copy pages; AddressSpaces.DupMmap does.
- AddressSpaces.UserSpace.Unmap: the calls of unmap_range are made after the work on the areas and not in between, which makes no difference to either.
- AddressSpaces.UserSpace.Fault: a page that was swapped out is only reported; the swap manager is not modelled.
- PageTables.Mmu.CopyRange: is about a range with nothing present in the child; AddressSpaces.DupMmap, its only caller, always finds it so. The flag share is not used by the code either.
- PageTables.Mmu.ExitRange: is about tables that map nothing any more; AddressSpaces.UserSpace.Exit, its only caller, always finds them so.
- PageTables.Mmu.SetupPgdir: the kernel half of a directory, which is copied from the first one, is not modelled; nor is the count of its page, which the kernel does not set.
- Mounting.Mount: takes the inodes as mksfs wrote them; the magic number and the checks of the superblock are not modelled.
- PageTables.Mmu.AllocPage: takes any free page; which one the page allocator picks is the subject of PageAllocator.
- In the red-black tree the writes of a rotation and of the two-child case are grouped, with the same links at the end; the colour is a field of its own and not a bit of the parent pointer. rb_last, rb_prev, rb_replace_node and the augmented variants would add only mirror images.
- A machine word of the bitmap is given by its bits.
- Wait queues are sequences of processes; interrupt flags, memory failures of kmalloc and errors of disk transfers do not occur.
- Directories, path lookup, the VFS layer, and creating and linking inodes.
- Booting, interrupts, drivers, system calls and user programs.
- Swapping and the buddy allocator.
- Waking a process from the timer list is the list of fired timers; waking itself is Scheduler.Scheduler.Wakeup.
- CondvarMeals.CanEat: that a philosopher of the monitor can also wait for ever, as SemaphoreMeals.CanStarve shows of the semaphores, is not shown.
