# Pintos, verified

A model in Dafny 4.11 of the parts of the Pintos teaching kernel (`pintos/src`) and of the parallel
string-matching project beside it (`project4`) whose correctness is hard to see, with proofs of what they
promise. `dafny verify dfyconfig.toml` checks everything.

How the model is built:

- Sequential code that changes things in place is a method on arrays, sequences, maps or objects, with a
  specification. The intrusive lists are heap objects whose `prev` and `next` fields are rewritten.
- Concurrent code is an interleaving step system: a state, the steps a thread can take, and `Panic` (or
  `Fault`) as the outcome of a failed assertion or of using freed memory. A section with interrupts off is
  one step; between two steps any other thread may run. Theorems are about every run.
- Machine integers are mathematical integers with explicit ranges and explicit wrapping where the source
  relies on or suffers from it (`Arithmetic`, `Bits`, `Malloc`, `Stdio`, `Lcs.End`).

The modules, by source file:

| module | models |
|---|---|
| `Lists`, `MergeSort` | `lib/kernel/list.c`: splicing, the natural merge sort, ordered insertion |
| `Arithmetic` | `lib/arithmetic.c`: 64-bit division from a 32-bit divide |
| `Scheduler` | `threads/thread.c`, and the semaphores of `threads/synch.c` |
| `Monitor` | locks and condition variables of `threads/synch.c` |
| `Timer` | `devices/timer.c`: sleeping and the timer interrupt |
| `ProcessWait` | `userprog/process.c`: executing, waiting for and exiting processes |
| `Frames` | `vm/frame.c` and the steps of `vm/page.c` that set or clear a page's frame |
| `Mappings` | the page table entries that `vm/page.c` sets and clears, on top of `Frames` |
| `Bits`, `Bitmaps` | `lib/kernel/bitmap.c` |
| `Palloc` | `threads/palloc.c` |
| `Malloc` | `threads/malloc.c` |
| `Hash` | `lib/kernel/hash.c` |
| `CStrings`, `Stdio`, `Ustar` | `lib/ustar.c` with what it uses of `lib/stdio.c` and `lib/string.c` |
| `CmdLine` | the argument stack of `userprog/process.c`, and `strtok_r` |
| `InodeIo` | reading and writing in `filesys/inode.c` |
| `Directory` | `filesys/directory.c` |
| `FileSys` | ownership of sectors across `filesys/filesys.c`, `inode.c`, `free-map.c`, `file.c` |
| `Volumes` | these three together, on the bytes of the disk, with the open files of `filesys/file.c` |
| `Lcs` | `project4/longest_common_substring.c`, `project4/3way-openmp/p4_omp.c` |
| `Options`, `Queues`, `Pages`, `Words` | shared definitions |

Where a promise does not hold, the input that shows it and the exact condition are proved:

- `umod64` and `smod64` return 32 bits of the remainder. They are right for every dividend exactly if the divisor is
  at most 2^32, or 2^31 in magnitude (`Arithmetic.RemaindersFitIff`, `Arithmetic.SignedRemaindersFitIff`).
- `sdiv64` is right in every case but the least integer divided by -1 (`Arithmetic.Sdiv64`).
- `page_lock` returns with the frame locked if the mapping cannot be installed, and its callers exit. No assertion
  fails in any run without such a failure; after one, the thread's freeing of that page fails one, and nothing else
  does (`Frames.NoFailureNoPanic`, `Frames.PageHasItsFrame`, `Frames.FailureIsFatal`, `Frames.LeakPanics`).
- A page that `page_lock` has locked is mapped exactly if, since its mapping was last installed, no `page_out` of it has
  failed and `setup_stack` has not given it its frame; if it is not mapped the kernel's access to it panics
  (`Mappings.LockedMappedIff`, `Mappings.FailedPageOutIsFatal`, `Mappings.SetupPanics`).
- `malloc` adds a header to a size above 1024 and rounds up in 32 bits. The block is as large as asked for exactly if
  that does not wrap; the largest sizes get one page, and the other wrapping ones nothing (`Malloc.BigEnoughIff`,
  `Malloc.WrappedPages`).
- A file creation that the directory refuses leaves the free map as it was exactly if there was no place for the file
  or it had no data (`FileSys.RefusedKeepsMapIff`, `FileSys.RefusedLoses`, `FileSys.SecondCreateLoses`).
- The threads' ranges in the string-matching project partition the pairs of lines exactly if at least one line was
  read (`Lcs.PartitionIff`).

Two comments of the source differ from its code, which the model follows: `bitmap_scan_and_flip` with a count of zero
returns its start and not 0 (`Bitmaps.NothingFitsAtStart`), and the branch of `inode_write_at` that starts from a
sector of zeros cannot be reached (`InodeIo.WriteChunk`).

## Model

| member | source | states |
|---|---|---|
| Lists.ListInsert | pintos/src/lib/kernel/list.c:168-178 | the chain of linked nodes with the element inserted at its position is well linked, both ways |
| Lists.ListRemove | pintos/src/lib/kernel/list.c:248-256 | the chain without the element is well linked; the follower is returned; the removed element keeps its own links |
| Lists.ListSplice | pintos/src/lib/kernel/list.c:183-204 | within one list: the range is moved to before the given element and everything is well linked; an empty range changes nothing |
| Lists.MovedIs | pintos/src/lib/kernel/list.c:183-204 | what a splice does: the range and what lay between it and its new place change places |
| Lists.ListSpliceAcross | pintos/src/lib/kernel/list.c:183-204 | between two lists: both are well linked, one without and one with the range |
| Lists.FindEndOfRun | pintos/src/lib/kernel/list.c:357-372 | the end of the longest nondecreasing run that starts at the element |
| Lists.InplaceMerge | pintos/src/lib/kernel/list.c:379-399 | merging two adjacent runs by splicing single nodes gives the stable merge of the two runs, in place |
| Lists.MergeNextRuns | pintos/src/lib/kernel/list.c:419-434 | one round of a pass keeps the pass's state: stable permutation so far, and the count of runs output |
| Lists.PassOver | pintos/src/lib/kernel/list.c:414-436 | a pass permutes stably, counts half the natural runs rounded up, and leaves at most that many |
| Lists.List.SortPass | pintos/src/lib/kernel/list.c:414-436 | the same for the list object |
| Lists.List.Sort | pintos/src/lib/kernel/list.c:404-440 | list_sort terminates, because each repeated pass leaves strictly fewer natural runs, with the same nodes, well linked, sorted and stably permuted, for every strict weak order |
| Lists.FindInsertionPoint | pintos/src/lib/kernel/list.c:455-457 | the first element that the new one is less than |
| Lists.List.InsertSorted | pintos/src/lib/kernel/list.c:445-459 | the new list is the old one with the element inserted at its ordered position |
| MergeSort.MergeSorted | pintos/src/lib/kernel/list.c:374-399 | the merge of two sorted runs is sorted |
| MergeSort.MergeStable | pintos/src/lib/kernel/list.c:374-399 | equivalent elements stay in order, the left run's before the right run's |
| MergeSort.MergeMultiset | pintos/src/lib/kernel/list.c:374-399 | the merge has the elements of both runs |
| MergeSort.RunEndIsMaximal | pintos/src/lib/kernel/list.c:353-372 | a natural run is sorted, and ends only at a descent |
| MergeSort.PassStep | pintos/src/lib/kernel/list.c:419-434 | merging the next two runs keeps the state of a pass |
| MergeSort.PassEnd | pintos/src/lib/kernel/list.c:419-437 | how many runs a pass outputs and leaves |
| MergeSort.SortedStableUnique | pintos/src/lib/kernel/list.c:404-440 | there is only one sorted stable permutation, so the contract of the sort leaves no freedom |
| MergeSort.InsertOrderedSorted | pintos/src/lib/kernel/list.c:442-459 | ordered insertion keeps a sorted list sorted |
| MergeSort.InsertOrderedStable | pintos/src/lib/kernel/list.c:442-459 | and puts the element behind those equivalent to it |
| MergeSort.InsertOrderedKeeps | pintos/src/lib/kernel/list.c:442-459 | and leaves the order of all others as it was |
| Arithmetic.Divl | pintos/src/lib/arithmetic.c:25-35 | the divide instruction: the floor of the quotient; its precondition is exactly that it does not trap |
| Arithmetic.Stage | pintos/src/lib/arithmetic.c:50-71 | one stage of the leading-zero count shifts without losing bits |
| Arithmetic.Nlz | pintos/src/lib/arithmetic.c:41-73 | the shift that brings the top set bit to bit 31 |
| Arithmetic.DivideBySmall | pintos/src/lib/arithmetic.c:80-112 | divisors below 2^32: the exact quotient, and neither divide traps |
| Arithmetic.EstimateIsQuotientOrOneMore | pintos/src/lib/arithmetic.c:121-124 | the large-divisor estimate is the quotient or one more |
| Arithmetic.Estimate | pintos/src/lib/arithmetic.c:121-123 | the estimate is computed without a trap or a lost bit |
| Arithmetic.Correction | pintos/src/lib/arithmetic.c:124 | the correction's test tells the two cases apart and nothing in it wraps |
| Arithmetic.DivideByLarge | pintos/src/lib/arithmetic.c:113-126 | divisors of 2^32 and more: the exact quotient |
| Arithmetic.Udiv64 | pintos/src/lib/arithmetic.c:77-127 | the floor of n / d for all 64-bit n and nonzero d |
| Arithmetic.Umod64 | pintos/src/lib/arithmetic.c:131-135 | the remainder modulo 2^32; it is the remainder whenever d is at most 2^32, and otherwise exactly if that fits 32 bits |
| Arithmetic.RemaindersFitIff | pintos/src/lib/arithmetic.c:131-135 | umod64 is right for every n if and only if d is at most 2^32; with a larger d it returns 0 for n = 2^32 |
| Arithmetic.Sdiv64 | pintos/src/lib/arithmetic.c:139-146 | truncates toward zero, except for the least integer divided by -1 |
| Arithmetic.Smod64 | pintos/src/lib/arithmetic.c:150-154 | the truncating remainder narrowed to 32 bits; right whenever the magnitude of d is at most 2^31, and otherwise exactly if the remainder fits |
| Arithmetic.SignedRemaindersFitIff | pintos/src/lib/arithmetic.c:150-154 | smod64 is right for every n if and only if the magnitude of d is at most 2^31; with a larger d it returns -2^31 for n = 2^31 |
| Arithmetic.TruncatingDivisionIsC | pintos/src/lib/arithmetic.c:137-154 | the reference definition is C's division: it recomposes n, and the remainder is small and has n's sign |
| Scheduler.StepKeepsInv | pintos/src/threads/thread.c:222-325 | no step of creating, blocking, unblocking, yielding, exiting, idling, downing or upping fails an assertion, and each keeps the invariant |
| Scheduler.BootHasInv | pintos/src/threads/thread.c:89-119 | the state after thread_start has it |
| Scheduler.RunKeepsInv | pintos/src/threads/thread.c:506-582 | so every state of every run has it |
| Scheduler.ReachableStates | pintos/src/threads/thread.h:79-84 | exactly one thread runs; the ready list holds exactly the ready non-idle threads, once each; no thread is on two lists; while threads are parked on a semaphore its value is at most the number of woken ones that have not retested, so no wake-up is lost |
| Scheduler.StepFrees | pintos/src/threads/thread.c:289-307 | a page is freed only in the step in which its thread exits, and by another thread |
| Scheduler.FreedForGood | pintos/src/threads/thread.c:531-560 | and never again |
| Scheduler.StepQueue | pintos/src/threads/thread.c:240-325 | the ready list is a queue: a thread that starts, is woken or yields goes to its end, and whoever gives up the processor leaves it to the front, or to the idle thread if there is no one |
| Scheduler.RunIsQueueRun | pintos/src/threads/thread.c:506-513 | so it is over whole runs |
| Scheduler.ServedInOrder | pintos/src/threads/thread.c:506-513 | the thread at position p of the ready list runs when the processor is given up for the (p + 1)-st time |
| Scheduler.StepSema | pintos/src/threads/synch.c:60-121 | what each step does to each semaphore: an up adds one and takes the front off the list, a down that finds it positive takes one, and one that finds it zero adds its thread to the end of the list |
| Scheduler.SemaphoreLaw | pintos/src/threads/synch.c:60-121 | over every run from boot: a semaphore's value is the one it was initialised with, plus the ups since, minus the downs since that found it positive |
| Scheduler.TestsTell | pintos/src/threads/synch.c:60-102 | sema_down returns exactly if it finds the semaphore positive, and otherwise its thread is blocked at the end of the list; sema_try_down returns whether it did, and changes nothing else |
| Scheduler.WokenInOrder | pintos/src/threads/synch.c:108-121 | the thread at position p of a semaphore's list is put on the ready list by the (p + 1)-st up, and until then moves up one place with each |
| Scheduler.CreatedWaits | pintos/src/threads/thread.c:166-217 | a thread that has been created is blocked until it is started, and then goes to the end of the ready list |
| Monitor.NoPanic | pintos/src/threads/synch.c:192-236 | the assertions of locks and condition variables hold |
| Monitor.StepKeepsInv | pintos/src/threads/synch.c:287-338 | every step keeps the invariant |
| Monitor.RunKeepsInv | pintos/src/threads/synch.c:287-338 | so every state of every run has it |
| Monitor.MutualExclusion | pintos/src/threads/synch.c:192-236 | at most one thread is inside the lock, its semaphore is 0 or 1, and the recorded holder is the thread inside |
| Monitor.SignalWakesOnce | pintos/src/threads/synch.c:311-322 | a signal wakes a thread not woken before, once, even if it has not yet reached its semaphore |
| Monitor.WaitReturnsSignalled | pintos/src/threads/synch.c:287-303 | cond_wait returns only with the lock held and after exactly one signal to that call |
| Monitor.OneSignalPerWait | pintos/src/threads/synch.c:287-322 | over every run: between the beginning of a call of cond_wait and its return exactly one signal is sent to its semaphore |
| Monitor.ParkedUnsignalled | pintos/src/threads/synch.c:287-322 | and as long as it is blocked none has been sent |
| Monitor.SignalsLongestWaiter | pintos/src/threads/synch.c:311-322 | over every run: the thread at position p of a condition's list is chosen by the signal that follows the first p ones to it, and until then moves up one place with each and is not signalled |
| Monitor.NoOvertaking | pintos/src/threads/synch.c:287-322 | no thread that began to wait later is chosen while an earlier waiter of the condition has not been signalled |
| Monitor.NoLostWakeup | pintos/src/threads/synch.c:108-121 | in every reachable state, if the lock is free and threads are blocked on it, another is on its way to take it |
| Monitor.TakesFreeLock | pintos/src/threads/synch.c:192-221 | lock_try_acquire, and each test in lock_acquire, takes the lock exactly if no thread is inside; otherwise the one changes nothing and the other blocks at the end of the list |
| Monitor.ReleasedInOrder | pintos/src/threads/synch.c:228-236 | the lock's waiters are unblocked in order, one by each release |
| Timer.TimerInterrupt | pintos/src/devices/timer.c:196-211 | the loop wakes the due prefix of the sorted wait list |
| Timer.WakesExactlyDue | pintos/src/devices/timer.c:196-211 | exactly the threads that are due are upped, once each, and leave the list; nothing else changes |
| Timer.StepKeepsInv | pintos/src/devices/timer.c:106-123 | each step keeps the list sorted and each sleeper's accounts right |
| Timer.RunKeepsInv | pintos/src/devices/timer.c:106-123 | so do whole runs |
| Timer.InterruptLeavesNoneDue | pintos/src/devices/timer.c:196-211 | after an interrupt everyone left on the list is due at a later tick |
| Timer.TicksCount | pintos/src/devices/timer.c:196-211 | the tick count is the number of interrupts |
| Timer.NotYetListed | pintos/src/devices/timer.c:106-119 | between computing its wake-up time and being put on the list a call can go on, and is not upped |
| Timer.ReturnsOnceDue | pintos/src/devices/timer.c:106-123 | over every run: a call timer_sleep (n) begun at tick b is on the list until the first interrupt at tick b + n or later, and sema_down returns exactly if that has come |
| Timer.UppedWhenDue | pintos/src/devices/timer.c:196-211 | an interrupt ups a listed call once and unblocks it exactly if the tick is b + n or later, and otherwise leaves it as it is |
| Timer.SleepsLongEnough | pintos/src/devices/timer.c:106-123 | a call of timer_sleep (n) does not return before n ticks have passed since it began |
| ProcessWait.LocalSteps | pintos/src/userprog/process.c:43-213 | the invariant can be checked parent and child by parent and child |
| ProcessWait.StepKeepsInv | pintos/src/userprog/process.c:43-213 | no step touches a status that is not allocated or an exec_info that is not the child's, and each keeps the invariant |
| ProcessWait.RunKeepsInv | pintos/src/userprog/process.c:43-213 | so every state of every run has it |
| ProcessWait.NoFault | pintos/src/userprog/process.c:73-117 | in every reachable state every possible step is free of faults |
| ProcessWait.StepFrees | pintos/src/userprog/process.c:122-132 | a status is freed only after both sides have released it, and not if it was freed before |
| ProcessWait.FreedOnce | pintos/src/userprog/process.c:122-132 | over a whole run it is freed once if at all |
| ProcessWait.NoLeak | pintos/src/userprog/process.c:122-132 | once both sides are done with it, it has been freed |
| ProcessWait.AllFreed | pintos/src/userprog/process.c:163-213 | when all processes have ended no status is left |
| ProcessWait.StepReaps | pintos/src/userprog/process.c:141-161 | process_wait collects a child that can no longer change its exit code, and only once |
| ProcessWait.CodeStays | pintos/src/userprog/process.c:165-180 | the exit code of an exiting process does not change |
| ProcessWait.WaitReturnsOnce | pintos/src/userprog/process.c:134-161 | what is returned is the exit code the child has from then on, and every later wait for it, whoever asks, returns -1 at once and changes nothing else |
| ProcessWait.ReturnsExitCode | pintos/src/userprog/process.c:152-157 | the value that process_wait returns after release_child is the child's exit code |
| ProcessWait.WaitReturnsExitArgument | pintos/src/userprog/process.c:152-180 | over every run: a process_wait that returns after child c called exit with a code returns that code |
| ProcessWait.ExitedBefore | pintos/src/userprog/process.c:163-180 | and a child whose exit code is settled has called exit |
| ProcessWait.ListedIff | pintos/src/userprog/process.c:43-66 | over every run: a process has on its list exactly the children that it executed, that loaded, and that it has not waited for |
| ProcessWait.WaitsIff | pintos/src/userprog/process.c:134-161 | process_wait waits exactly for those, and returns -1 at once for any other |
| ProcessWait.OnlyWaits | pintos/src/userprog/process.c:43-213 | no one waits in vain: process_execute goes on exactly if the child has reported, process_wait exactly if the child has said that it is dead, a lock is waited for only while another holds it and can release it, and all others can take a step |
| ProcessWait.UntouchedIgnored | pintos/src/userprog/process.c:43-213 | a step neither changes a status it does not touch nor depends on it: the step is the same whatever the status holds, and even if it has been freed |
| ProcessWait.TouchedAllocated | pintos/src/userprog/process.c:43-213 | every status that a step touches is allocated, but for the one that loading makes |
| ProcessWait.ParentDone | pintos/src/userprog/process.c:141-189 | after its own release no step of the parent touches the status |
| ProcessWait.ChildDone | pintos/src/userprog/process.c:165-189 | nor does any step of the child after its own |
| Frames.LocalSteps | pintos/src/vm/frame.c:40-162 | the invariant can be checked for one thread, one frame and one page |
| Frames.StepLocal | pintos/src/vm/frame.c:40-162 | no step concerns more than that |
| Frames.ReadOrAssert | pintos/src/vm/frame.c:127-141 | the assertion in frame_lock holds |
| Frames.Evict | pintos/src/vm/page.c:137-151 | the page evicted is live and has the frame its evictor has locked |
| Frames.PageOut | pintos/src/vm/page.c:151-181 | nothing fails in page_out after its mapping is cleared, and the invariant is kept whether page_out succeeds or not |
| Frames.StepKeepsInv | pintos/src/vm/frame.c:40-162 | a step fails an assertion or uses a freed page only if a thread asks for a frame's lock that it holds itself; otherwise it keeps the invariant |
| Frames.RunKeepsInv | pintos/src/vm/frame.c:40-162 | so every state of every run has it |
| Frames.PageHasItsFrame | pintos/src/vm/page.c:66-98 | in every interleaving a live page whose frame is f is the page recorded in f, and no two live pages share a frame; a next step fails an assertion exactly if a thread whose page_lock could not install the mapping goes on to free that page |
| Frames.NoFailureNoPanic | pintos/src/vm/page.c:276-300 | if every mapping can be installed no assertion fails in any run |
| Frames.LeakStays | pintos/src/vm/page.c:284-288 | after page_lock has failed to install the mapping, its thread holds the frame's lock and the page keeps the frame in every later state |
| Frames.FailureIsFatal | pintos/src/vm/page.c:17-25 | once that thread begins to free the page, no run gets past its asking for the lock, which it can do at once and which fails the assertion of lock_acquire |
| Frames.LeakPanics | pintos/src/vm/page.c:276-291 | an instance: a run with one frame and one thread that ends so |
| Frames.LockedPageStays | pintos/src/vm/frame.c:125-141 | while its owner has it locked no other thread's step takes a page's frame away |
| Frames.ScanFindsFree | pintos/src/vm/frame.c:45-60 | a search for a free frame that no one disturbs takes the first frame that is neither locked nor in use, and goes on to the clock if there is none |
| Frames.TriesThrice | pintos/src/vm/frame.c:107-122 | over every run frame_alloc_and_lock gives up exactly after three failed attempts |
| Frames.WritesOutFirst | pintos/src/vm/page.c:238-252 | page_deallocate writes the page of a shared file out before it frees the frame |
| Frames.ClockSweep | pintos/src/vm/frame.c:62-100 | the eviction loop, on the frames' locks and pages and the accessed bits, computes the clock's result |
| Frames.ClockFinds | pintos/src/vm/frame.c:62-100 | the clock finds a frame to take or evict within twice the number of frames, exactly if some frame is not locked |
| Frames.SweepIsClock | pintos/src/vm/frame.c:62-100 | the sweep of the step system, undisturbed, is the clock's: it ends with the same frame locked and the scan lock released, or with none |
| Mappings.LocalSteps | pintos/src/vm/page.c:103-181 | the invariant of the page table entries can be checked for one thread and one page |
| Mappings.Tables | pintos/src/userprog/pagedir.c:91-111 | the assertion of pagedir_set_page, that the entry is not present, holds in every step that installs a mapping |
| Mappings.AfterPageOut | pintos/src/vm/page.c:146-180 | page_out keeps the invariant from the clearing of the entry to its success or failure |
| Mappings.StepKeepsInv | pintos/src/vm/page.c:103-291 | a step panics exactly if a thread asks for a frame's lock that it holds, or the kernel uses a locked page that is bare; otherwise the invariant is kept |
| Mappings.RunKeepsInv | pintos/src/vm/page.c:103-291 | so every state of every run has it |
| Mappings.MappedToItsFrame | pintos/src/vm/page.c:124-151 | in every interleaving a live page is mapped to nothing but the frame that records it, so no frame is mapped for two pages or for another page than the one it is given to |
| Mappings.LockedMapped | pintos/src/vm/page.c:277-291 | a locked page is mapped to the locked frame, unless it is bare |
| Mappings.BareIff | pintos/src/vm/page.c:151-180 | a page is bare exactly if a failed page_out or the stack set-up has left it so, and it has lived on without a mapping installed since |
| Mappings.LockedMappedIff | pintos/src/vm/page.c:277-291 | over every run: a locked page is mapped to the locked frame if and only if nothing has stripped it since a mapping was last installed, and the kernel's access panics if and only if it is not mapped |
| Mappings.ExposedIsFatal | pintos/src/vm/page.c:284-290 | any run to a state with an unmapped page that has a frame goes on, by page_lock succeeding, to a panic |
| Mappings.FailedPageOutIsFatal | pintos/src/vm/page.c:146-180 | so does any run to a page_out, if it fails, of a page of another thread that is doing nothing |
| Mappings.SetupPanics | pintos/src/userprog/process.c:605-623 | an instance: one thread that locks the page of its new stack before it has been mapped |
| Bits.MaskMod | pintos/src/lib/kernel/hash.c:305-310 | masking with a power of two minus one is reduction modulo it |
| Bits.ClearLowest | pintos/src/lib/kernel/hash.c:328-340 | clearing the lowest set bit gives 0 exactly for powers of two and otherwise keeps the top bit |
| Bits.MaskTest | pintos/src/lib/kernel/bitmap.c:197-204 | the test with a one-bit mask reads that bit |
| Bitmaps.OneBitChanges | pintos/src/lib/kernel/bitmap.c:156-195 | marking, resetting and flipping change the bit they name and no other |
| Bitmaps.Bitmap.constructor | pintos/src/lib/kernel/bitmap.c:74-94 | a new bitmap is all false |
| Bitmaps.Bitmap.Mark | pintos/src/lib/kernel/bitmap.c:156-167 | the packed words then stand for the old sequence of bits with that one true |
| Bitmaps.Bitmap.Reset | pintos/src/lib/kernel/bitmap.c:169-180 | with that one false |
| Bitmaps.Bitmap.Flip | pintos/src/lib/kernel/bitmap.c:182-195 | with that one toggled |
| Bitmaps.Bitmap.Test | pintos/src/lib/kernel/bitmap.c:197-204 | reads the bit of the sequence |
| Bitmaps.Bitmap.SetMultiple | pintos/src/lib/kernel/bitmap.c:217-229 | exactly the given range is set |
| Bitmaps.Bitmap.Count | pintos/src/lib/kernel/bitmap.c:231-247 | counts the bits of the range that have the value |
| Bitmaps.Bitmap.Contains | pintos/src/lib/kernel/bitmap.c:249-264 | tells whether the value occurs in the range |
| Bitmaps.Bitmap.Scan | pintos/src/lib/kernel/bitmap.c:292-311 | returns the lowest fitting index, or an error if there is none |
| Bitmaps.Bitmap.ScanAndFlip | pintos/src/lib/kernel/bitmap.c:313-327 | and flips exactly the bits found |
| Bitmaps.FirstFitUnique | pintos/src/lib/kernel/bitmap.c:292-311 | a first fit is unique |
| Bitmaps.NothingFitsAtStart | pintos/src/lib/kernel/bitmap.c:292-327 | a run of no bits is found at the start of the search |
| Bitmaps.FlipBack | pintos/src/lib/kernel/bitmap.c:313-327 | setting the range back undoes the allocation |
| Palloc.StepKeepsInv | pintos/src/threads/palloc.c:71-142 | bit by bit, with lock-free frees in the middle of scans, no assertion fails, whether runs are freed whole or in parts, and a page is marked exactly if it belongs to a run, and then to one only |
| Palloc.RunKeepsInv | pintos/src/threads/palloc.c:71-142 | in every run |
| Palloc.LiveRunsDisjoint | pintos/src/threads/palloc.c:64-101 | runs given out and not freed are in the pool, pairwise disjoint, and marked |
| Palloc.NoPanic | pintos/src/threads/palloc.c:116-142 | the assertion that the pages freed are in use holds |
| Palloc.NothingLost | pintos/src/threads/palloc.c:116-142 | when every run has been freed no page is marked |
| Palloc.GivesWhatWasAsked | pintos/src/threads/palloc.c:71-101 | over every run: a request for n pages that succeeds gives a run of n pages, under a name not in use |
| Palloc.GivesFirstFit | pintos/src/threads/palloc.c:80-82 | if no one interferes it is the first fit in the map as it was, and the request fails exactly if nothing fits |
| Palloc.GetRefused | pintos/src/threads/palloc.c:71-82 | a request is refused at once, and changes nothing, exactly if it is for no pages or for more than there are |
| Palloc.FreesAll | pintos/src/threads/palloc.c:116-142 | over every run: freeing a run of n pages takes n steps that check and n that give back its pages in order, and then the run is gone |
| Palloc.ScanFindsFirstFit | pintos/src/threads/palloc.c:80-82 | undisturbed, the steps of the scan find the first fit |
| Palloc.PoolOfPage | pintos/src/threads/palloc.c:127-134 | every page of either pool is recognised as that pool's and its index is recovered |
| Palloc.PoolsShare | pintos/src/threads/palloc.c:43-61 | the two pools and their maps share the free memory without a gap, half each unless the limit is lower |
| Palloc.MapFits | pintos/src/threads/palloc.c:153-170 | the bitmap fits into the pages set aside for it, of which there are no more than needed |
| Malloc.Init | pintos/src/threads/malloc.c:71-85 | the seven descriptors: block sizes 16 to 1024, and 255 to 3 blocks per arena |
| Malloc.NewArenaOk | pintos/src/threads/malloc.c:124-146 | cutting up a new page keeps the heap's invariant |
| Malloc.PopOk | pintos/src/threads/malloc.c:148-153 | so does giving out a block |
| Malloc.PushOk | pintos/src/threads/malloc.c:236-242 | and taking one back |
| Malloc.FullWhenUnused | pintos/src/threads/malloc.c:241-246 | free_cnt is at most the number of blocks, and equal to it exactly if none is in use |
| Malloc.DropOk | pintos/src/threads/malloc.c:242-253 | taking the blocks of an unused arena off the free list keeps the invariant |
| Malloc.NewBigOk | pintos/src/threads/malloc.c:105-120 | so does handing out whole pages |
| Malloc.DropBigOk | pintos/src/threads/malloc.c:257-262 | and taking them back |
| Malloc.LiveInside | pintos/src/threads/malloc.c:177-186 | a block in use lies in its arena, behind the header, and is as large as asked for exactly if the size did not wrap |
| Malloc.BigEnoughIff | pintos/src/threads/malloc.c:105-113 | the pages taken for a large size hold it if and only if adding the header and rounding up does not wrap around 32 bits |
| Malloc.BigPagesAreLeast | pintos/src/threads/malloc.c:105-113 | and no fewer pages would hold it |
| Malloc.WrappedPages | pintos/src/threads/malloc.c:105-113 | of the sizes that wrap, those from 2^32 - 11 on get one page and the others none; 2^32 - 1 is one that gets a page |
| Malloc.LiveApart | pintos/src/threads/malloc.c:284-294 | blocks in use have no byte in common |
| Malloc.LiveClearOfFree | pintos/src/threads/malloc.c:57-61 | nor any in common with a free block, which holds the links of its list |
| Malloc.LiveClearOfHeaders | pintos/src/threads/malloc.c:284-294 | and overlap no arena's header |
| Malloc.HeldWhileLive | pintos/src/threads/malloc.c:241-253 | a page is held exactly as long as one of its blocks is in use |
| Malloc.Allocator.FindDesc | pintos/src/threads/malloc.c:100-105 | the smallest descriptor that is large enough |
| Malloc.Allocator.PushNewBlocks | pintos/src/threads/malloc.c:141-145 | all the blocks of the new arena, in order, are appended |
| Malloc.Allocator.Malloc | pintos/src/threads/malloc.c:89-154 | a new block, of the smallest size that is large enough or of the pages it needs; none exactly if the size is 0, or no free block of the right size is there and no page is to be had; a page is used only if the right free list is empty; the invariant is kept |
| Malloc.Allocator.BlockToArena | pintos/src/threads/malloc.c:266-282 | the arena of a block that its assertions hold for |
| Malloc.LiveAligned | pintos/src/threads/malloc.c:218-234 | they hold for every block in use, as free needs |
| Malloc.FreeAligned | pintos/src/threads/malloc.c:148-153 | and for every free block, as malloc needs for the one it gives out |
| Malloc.Allocator.RemoveBlocks | pintos/src/threads/malloc.c:247-251 | exactly the arena's blocks, all of which are on it, leave the free list |
| Malloc.Allocator.Free | pintos/src/threads/malloc.c:218-264 | the block is no longer in use, and its arena's pages are returned, all of them, exactly if it was the last one |
| Hash.LookupUnique | pintos/src/lib/kernel/hash.c:129-135 | a table holds at most one element equal to a given one, so look-ups are those of a finite map |
| Hash.BestBucketCnt | pintos/src/lib/kernel/hash.c:364-372 | the loop arrives at the largest power of two not above max(4, elem_cnt / 2) |
| Hash.BucketIdxInRange | pintos/src/lib/kernel/hash.c:304-310 | the bucket index is the hash modulo the number of buckets |
| Hash.ElemsUnique | pintos/src/lib/kernel/hash.c:314-326 | bucket by bucket uniqueness is uniqueness in the whole table, because equal elements share a bucket |
| Hash.Table.constructor | pintos/src/lib/kernel/hash.c:24-42 | a new table is empty |
| Hash.Table.FindElem | pintos/src/lib/kernel/hash.c:312-326 | searching one bucket searches the table |
| Hash.Table.Find | pintos/src/lib/kernel/hash.c:129-135 | the element equal to the key, if there is one |
| Hash.Table.MoveAll | pintos/src/lib/kernel/hash.c:394-410 | the new buckets hold exactly the old elements, each in its place |
| Hash.Table.Rehash | pintos/src/lib/kernel/hash.c:347-413 | the contents do not change, and with memory the number of buckets becomes the best one |
| Hash.Table.Insert | pintos/src/lib/kernel/hash.c:94-110 | adds the element unless an equal one is there, which is returned; elem_cnt is the number of elements and the total of the bucket lengths, whether or not there is memory |
| Hash.Table.Replace | pintos/src/lib/kernel/hash.c:112-127 | the equal element, if any, is replaced and returned |
| Hash.Table.Delete | pintos/src/lib/kernel/hash.c:137-154 | the equal element, if any, is removed and returned |
| Hash.Table.Clear | pintos/src/lib/kernel/hash.c:44-74 | the table is empty, and the destructor was called once for each element |
| CStrings.StrLCpy | pintos/src/lib/string.c:316-343 | as much of the source as fits and a null byte, and nothing else, is written, and nothing at all if the size is 0; the source's length is returned |
| CStrings.ClippedIs | pintos/src/lib/string.c:316-343 | what fits is all of the source if that is shorter than the size, and else one character less than the size |
| Stdio.ValueOfRender | pintos/src/lib/stdio.c:501-513 | the octal digits of a number stand for that number |
| Stdio.DigitsNeeded | pintos/src/lib/stdio.c:501-522 | a number is written with as many digits as it needs and no more |
| Stdio.Accumulate | pintos/src/lib/stdio.c:501-522 | the digit loops fill the buffer with the digits, lowest first, and do not overrun it |
| Stdio.FormatOctal | pintos/src/lib/stdio.c:469-547 | zero-padded octal conversion prints the number's digits to at least the field width |
| Stdio.SnPrintOctal | pintos/src/lib/stdio.c:26-52 | output is cut to the buffer and null-terminated; the length is what it would have been |
| Ustar.StripAntisocialPrefixes | pintos/src/lib/ustar.c:65-73 | the loop computes the stripped name |
| Ustar.StrippedIsSafe | pintos/src/lib/ustar.c:56-73 | a stripped name does not start with "/", "./" or "../", is neither empty nor "..", and stripping is idempotent |
| Ustar.StrippedStrips | pintos/src/lib/ustar.c:56-73 | stripping leaves alone a name that begins with none of "/", "./" and "../", is indifferent to such a prefix, and turns nothing and ".." into "." |
| Ustar.StrippedIsOnly | pintos/src/lib/ustar.c:56-73 | and no other function does |
| Ustar.ParseOctalField | pintos/src/lib/ustar.c:120-162 | accepted are exactly digits, at least one, ended by a space or null byte, whose value fits; that value is the result |
| Ustar.OctalFieldIff | pintos/src/lib/ustar.c:120-162 | a field is read as v exactly if it starts with octal digits for v, which fits an unsigned long, and a space or a null byte |
| Ustar.ParseOfRender | pintos/src/lib/ustar.c:129-162 | a field written by snprintf parses to the number written |
| Ustar.CalculateChksum | pintos/src/lib/ustar.c:35-54 | the sum of the bytes with spaces for the checksum field |
| Ustar.SumIgnoresField | pintos/src/lib/ustar.c:46-51 | the checksum does not depend on its own field |
| Ustar.SumIsTotal | pintos/src/lib/ustar.c:35-54 | the checksum is the sum of all bytes outside its field and of eight spaces |
| Ustar.MakeHeader | pintos/src/lib/ustar.c:82-118 | fails exactly for stripped names over 99 characters; otherwise the buffer holds every field in its place, and the checksum of the whole |
| Ustar.HeaderLayout | pintos/src/lib/ustar.c:93-113 | the fields that parsing does not look at: mode 0644 or 0755, owner and group 0 and root, and the time, at their places in the ustar format |
| Ustar.ParseHeader | pintos/src/lib/ustar.c:181-227 | the checks in order, with their error messages |
| Ustar.ParseChecks | pintos/src/lib/ustar.c:181-227 | a header of zeros is the end; any other is accepted exactly if none of the eight checks fails, and otherwise rejected with the message of the first that does; type and size are those of their fields |
| Ustar.ParseUndoesMake | pintos/src/lib/ustar.c:82-227 | parsing a made header returns the stripped name, the type and the size, 0 for directories; a negative size of a regular file is rejected |
| Ustar.ParsedNameIsSafe | pintos/src/lib/ustar.c:222-226 | no accepted header yields an antisocial name, or one with a null byte in it |
| Ustar.DamageIsDetected | pintos/src/lib/ustar.c:204-207 | changing one byte outside the checksum field makes a good header an error |
| CmdLine.SpansAreWords | pintos/src/lib/string.c:201-275 | the tokens are nonempty, free of spaces, maximal, and in order |
| CmdLine.AllWords | pintos/src/lib/string.c:201-275 | and all such are tokens |
| CmdLine.StrTokR | pintos/src/lib/string.c:234-275 | the next token, the position to go on from, and the one byte that is changed |
| CmdLine.Push | pintos/src/userprog/process.c:540-550 | the bytes end where the stack began, the pointer moves by the size rounded up to words, and nothing else changes; none if there is no room |
| CmdLine.PaddedIsLeast | pintos/src/userprog/process.c:540-550 | the size rounded up to words is the least that will do |
| CmdLine.Reverse | pintos/src/userprog/process.c:522-531 | the first argc words in reverse order, nothing else changed |
| CmdLine.PushArgs | pintos/src/userprog/process.c:575-585 | a pointer to every token is pushed and every token is null-terminated in place, if there is room for all |
| CmdLine.InitCmdLine | pintos/src/userprog/process.c:556-600 | succeeds exactly if the copy, the pointers and the frame fit into the page, and then the page holds them |
| CmdLine.CountsAndEnds | pintos/src/userprog/process.c:587-598 | on the stack, above a null return address: argc is the number of tokens, argv points right behind, and argv[argc] is null |
| CmdLine.ArgumentsAreWords | pintos/src/userprog/process.c:575-598 | argv[i] is the address of a null-terminated copy of token i |
| CmdLine.StackIsAligned | pintos/src/userprog/process.c:597-599 | the stack pointer is word-aligned and in the page |
| InodeIo.ReadAt | pintos/src/filesys/inode.c:200-250 | returns the bytes of the file asked for, as far as there are any |
| InodeIo.TransferIsMost | pintos/src/filesys/inode.c:200-250 | a transfer moves as many bytes as were asked for and are there |
| InodeIo.SectorCountIsLeast | pintos/src/filesys/inode.c:24-29 | a file has the least number of sectors that hold its bytes |
| InodeIo.WriteChunk | pintos/src/filesys/inode.c:284-308 | a part of a sector is written through a bounce buffer without touching the rest |
| InodeIo.WriteAt | pintos/src/filesys/inode.c:257-318 | nothing while writes are denied; otherwise exactly the bytes that fit the file change, and no other byte of the disk |
| InodeIo.WriteInFile | pintos/src/filesys/inode.c:252-318 | seen from the file a write replaces its range, and reading it back gives what was written |
| InodeIo.OtherFileKept | pintos/src/filesys/inode.c:252-318 | files elsewhere keep their contents |
| Directory.NewEntryReads | pintos/src/filesys/directory.c:171-174 | the entry written reads back as the name and the sector |
| Directory.RoomIff | pintos/src/filesys/directory.c:159-169 | there is a free slot exactly if there are fewer names than entries |
| Directory.Dir.Lookup | pintos/src/filesys/directory.c:91-112 | finds the entry for a name exactly if the directory's map has it |
| Directory.Dir.Add | pintos/src/filesys/directory.c:141-179 | succeeds exactly for a valid new name with a free slot and writing allowed, and then the map gains the name; nothing outside the directory changes |
| Directory.Dir.Remove | pintos/src/filesys/directory.c:184-216 | the map loses the name exactly if it had it and writing is allowed |
| Directory.Dir.ReadDir | pintos/src/filesys/directory.c:218-236 | the next name in use, skipping none |
| FileSys.OpenedOk | pintos/src/filesys/inode.c:111-151 | opening keeps the invariant |
| FileSys.UnlinkedOk | pintos/src/filesys/inode.c:188-195 | so does removing a name together with marking the inode |
| FileSys.ClosedSpace | pintos/src/filesys/inode.c:160-186 | closing keeps the ownership of sectors |
| FileSys.ClosedOpen | pintos/src/filesys/inode.c:160-186 | and the accounts of the open inodes |
| FileSys.CreatedOk | pintos/src/filesys/filesys.c:45-59 | a created file owns sectors that no one owned |
| FileSys.LostOk | pintos/src/filesys/filesys.c:54-55 | a creation the directory refuses keeps the invariant, with the data's sectors lost |
| FileSys.RefusedKeepsMapIff | pintos/src/filesys/filesys.c:45-59 | a creation that the directory refuses leaves the free map unchanged if and only if there was no place for the file or its length is 0 |
| FileSys.RefusedLoses | pintos/src/filesys/filesys.c:54-55 | otherwise all of the data's sectors are marked used, and no file has them |
| FileSys.SecondCreateLoses | pintos/src/filesys/filesys.c:45-59 | an instance: creating a file of one byte twice under one name on a device of eight sectors loses a sector |
| FileSys.DeniedOk | pintos/src/filesys/inode.c:320-327 | denying keeps deny_write_cnt at most open_cnt |
| FileSys.AllowedOk | pintos/src/filesys/inode.c:329-338 | the assertions of allowing hold |
| FileSys.FileSystem.Format | pintos/src/filesys/filesys.c:93-103 | succeeds exactly if the device has room for the free map and the root directory, and establishes the invariant |
| FileSys.FileSystem.InodeOpen | pintos/src/filesys/inode.c:108-142 | an inode open already is shared and counted |
| FileSys.FileSystem.InodeClose | pintos/src/filesys/inode.c:160-186 | the last close removes it from the list and, if it was removed, clears its sectors |
| FileSys.FileSystem.Close | pintos/src/filesys/free-map.c:43-50 | the sectors released are all marked used, as the assertion demands |
| FileSys.FileSystem.FreeMapAllocate | pintos/src/filesys/free-map.c:22-41 | first fit, marked |
| FileSys.FileSystem.Create | pintos/src/filesys/filesys.c:41-59 | succeeds exactly if there is a place for the file and the directory takes the name; otherwise nothing changes, but for the data's sectors if the directory refused |
| FileSys.FileSystem.OpenFile | pintos/src/filesys/filesys.c:61-77 | opens the inode of the name, if there is one |
| FileSys.FileSystem.Reopen | pintos/src/filesys/file.c:36-42 | counts another user |
| FileSys.FileSystem.CloseFile | pintos/src/filesys/file.c:44-54 | takes back the denial and closes; the free map changes exactly at the last close of a removed file |
| FileSys.FileSystem.DenyWrite | pintos/src/filesys/file.c:116-127 | counted in the inode |
| FileSys.FileSystem.AllowWrite | pintos/src/filesys/file.c:129-141 | and taken back |
| FileSys.FileSystem.Remove | pintos/src/filesys/filesys.c:79-91 | removes exactly the names there are |
| FileSys.RemoveReleases | pintos/src/filesys/inode.c:160-195 | the sectors are released at once if the file was not open; if it was, it stays live and marked, to be released at its last close |
| FileSys.LiveFilesDisjoint | pintos/src/filesys/filesys.c:45-91 | the sectors of all named or open files, system files included, are pairwise disjoint and marked used |
| FileSys.InodesKept | pintos/src/filesys/inode.c:257-318 | whatever is written to one file's data changes no inode |
| FileSys.DataKept | pintos/src/filesys/inode.c:257-318 | nor another file's data |
| Volumes.InodeReadsBack | pintos/src/filesys/inode.c:86-92 | an inode reads back from its sector as it was written |
| Volumes.InodeLayout | pintos/src/filesys/inode.c:10-21 | the inode's sector holds the start, the length and the magic number, and zeros |
| Volumes.InodeCreate | pintos/src/filesys/inode.c:86-101 | the inode is in its sector, the data's sectors are zeros, and no other byte of the disk changes |
| Volumes.InitialisedKeeps | pintos/src/filesys/inode.c:90-101 | which, in free sectors, changes no live file's inode and no live file's bytes |
| Volumes.NoNames | pintos/src/filesys/directory.c:24-30 | a directory of zeros is a well-formed directory without names |
| Volumes.DenialsCounted | pintos/src/filesys/file.c:116-141 | deny_write_cnt is positive exactly if some open file of the inode denies writing |
| Volumes.Volume.Format | pintos/src/filesys/filesys.c:93-103 | succeeds exactly if there is room; then both inodes are on the disk and the root directory's bytes are an empty directory |
| Volumes.Volume.Read | pintos/src/filesys/file.c:63-74 | the file's bytes at its position, which moves on |
| Volumes.Volume.Write | pintos/src/filesys/file.c:87-100 | 0 bytes while some open file of the inode denies writing, and otherwise as many as the file has room for; they replace the file's bytes at its position, and every other live file, directory and inode stays as it is |
| Volumes.ReadsBack | pintos/src/filesys/file.c:63-100 | what was written to a file is read back from the same place, through whichever of its open files |
| Volumes.ReadsOn | pintos/src/filesys/file.c:63-74 | two reads one after the other deliver what one read of both sizes would |
| Volumes.WritesOn | pintos/src/filesys/file.c:87-100 | two writes one after the other do what one write of both buffers would |
| Volumes.Volume.DenyWrite | pintos/src/filesys/file.c:116-127 | however often a file denies writing it counts once |
| Volumes.Volume.AllowWrite | pintos/src/filesys/file.c:129-141 | and is taken back once, whichever files are open: nothing is assumed of the inode's count |
| Volumes.Volume.Open | pintos/src/filesys/filesys.c:61-77 | searching the directory's bytes finds the inode of the name, and a file at position 0 is opened for it; the inode is shared if it was open, and the free map stays |
| Volumes.Volume.Reopen | pintos/src/filesys/file.c:36-42 | another file for the same inode |
| Volumes.Volume.Close | pintos/src/filesys/file.c:44-54 | the file's opening and its denial, if any, are taken back; its sectors are released exactly if this was the last close of a removed file |
| Volumes.Volume.Create | pintos/src/filesys/filesys.c:41-59 | on the bytes of the disk: the name is entered in the directory exactly if there is a place and the directory takes it; the file is all zeros, and every other live file keeps its bytes, even if the creation is refused |
| Volumes.Volume.Remove | pintos/src/filesys/filesys.c:79-91 | the name leaves the directory's bytes exactly if it was there, and every live file but the directory keeps its bytes |
| Lcs.AgreeIsCommon | project4/longest_common_substring.c:43-76 | each table entry is the length of a common substring ending there |
| Lcs.AgreeIsLongest | project4/longest_common_substring.c:43-76 | and of the longest |
| Lcs.FillRow | project4/longest_common_substring.c:46-75 | a row of the table and the running maximum |
| Lcs.LcsDynamic | project4/longest_common_substring.c:24-93 | the maximum length of a common substring, and its first occurrence in a, null-terminated |
| Lcs.LongestIsUnique | project4/longest_common_substring.c:24-93 | there is one answer only |
| Lcs.RangesDisjoint | project4/3way-openmp/p4_omp.c:65-72 | no line belongs to two threads |
| Lcs.RangesCover | project4/3way-openmp/p4_omp.c:65-72 | with at least one line read, every line but the last belongs to a thread |
| Lcs.PartitionIff | project4/3way-openmp/p4_omp.c:65-72 | the ranges are exactly the pairs of adjacent lines if and only if there is a line |
| Lcs.StepKeepsInv | project4/3way-openmp/p4_omp.c:76-89 | what the threads have written so far is right and is what they have got past |
| Lcs.GoesOn | project4/3way-openmp/p4_omp.c:76-89 | with at least one line read, a thread that is not at the end of its range can do its next line, and reads no line that is not there |
| Lcs.AllPairsAnswered | project4/3way-openmp/p4_omp.c:55-92 | however the threads interleave, in the end every pair of adjacent lines has its answer and nothing else is written |
| Lcs.OutputIsDetermined | project4/3way-openmp/p4_omp.c:17-92 | with the program's numbers of threads and lines the output does not depend on how the threads interleave |

## Left out

- Context switches, interrupt controller and device drivers: kept is only that a section with interrupts off, and one instruction on one word of a bitmap, is atomic.
- Overflow of tick counts, of reference counts and of thread identifiers: these are unbounded here.
- Priority donation and the multi-level feedback scheduler: the code does not implement them.
- `pintos/src/threads/timer.c`: an older duplicate of `devices/timer.c`.
- Contents of pages across eviction, swap, memory-mapped files, and the choice between swap and file in `page_out`: it is a step that fails or clears the page's frame.
- Thread creation that fails in `process_execute`, and the page and file clean-up of `process_exit`.
- Scheduler.StepKeepsInv: `thread_create` and the handlers of interrupts appear through the steps they make on threads and semaphores; priorities are not modelled.
- Monitor.StepKeepsInv: one lock with its condition variables; `cond_broadcast` is as many signals as there are waiters.
- Malloc.Allocator.Malloc: calls are sequential; the per-descriptor locks are not modelled, nor are `calloc` and `realloc`.
- Mappings.MappedToItsFrame: live pages only; an exiting process frees its pages before its page directory, which it uses no more.
- Mappings.Tables: the other assertions of `pagedir_set_page`, on addresses, and the accessed, dirty and writable bits are not modelled.
- Hash: iteration and the hash functions themselves; any hash that respects equality will do.
- Frames, Scheduler, Monitor, Timer, ProcessWait and Palloc are step systems on values, since their point is interleaving; in-place update appears as the step's new state.
- Failure of internal memory allocation in the file system, and disk errors.
- FileSys.FileSystem.Create: the directory is a map with room for 16 names there; that its bytes behave so is shown in module Directory, and put together in module Volumes.
- FileSys.FileSystem.FreeMapAllocate: the free map file's contents are not modelled; writing it does not fail.
- Volumes.Volume.Format: the free map file's contents are not modelled here either; its inode is.
- Hash.Table.constructor: memory for the first buckets is there.
- Directory.Dir.Remove: opening, marking and closing the removed inode is in `Volumes.Volume.Remove`.
- InodeIo.WriteAt: offsets and sizes do not wrap around 31 bits.
- CmdLine.InitCmdLine: the page's user address leaves room for the page below 2^32.
- printf conversions other than zero-padded octal, and the parsing of format strings.
- Table entries of the dynamic programme are unbounded; reading the input file, timing and printing, and the MPI and pthread variants, are not modelled.
- Partition tables, the ring buffer, RC4, cksum, heap sort and binary search of the library, tests, utilities and documentation.
