# A verified model of the OS simulator's memory, barrier and scheduler

This project models the three cores of the simulator in `ossim_mm_tlb_hk241/` and proves what they keep.

**Paged virtual memory.** `Bits` and `Pte` are the bit macros and the page table entries on
32-bit words. `Regions` is the free-region list with first fit, `Frames` the allocation of
frames with FIFO eviction to swap, `Memory` the two together as `__alloc` and `__free` of one
process, and `Machine` any number of processes on one RAM and one swap device. `Access` is
reading and writing a byte, `Traffic` mixes accesses into the runs, and `Backing` says what
the swap device then holds. These are
specifications on values, and the theorems over whole runs are about them. `Devices`,
`Lists` and `Paging` are the same code in place, on classes, arrays, linked lists and loops,
each method proved equal to its specification.

**Slot barrier and threads.** `Barrier` is the protocol between the timer and any number of
devices, with condition variables and their wait states. `Kernel` puts the loops of the CPUs
and of the loader on top of it, one atomic step per critical section; `KernelPlaces`,
`KernelInv` and `KernelRuns` prove what all interleavings keep, `KernelEvents` how long a
process holds a CPU and which CPUs stop, `KernelWaits` how long a queued process waits, and
`KernelEnds` when each process is admitted and that all work ends.

**Scheduler.** `Sched` is the multi-level queue policy as a function, with its waiting
bounds; `SchedImp` is the array queues and the loop of `get_mlq_proc`, proved equal to it.

## Main results

- Every interleaving of timer, loader and CPUs is in lock step and free of deadlock, and a
  shutdown is sound: when a CPU stops, all processes were admitted, and the unfinished ones
  are in the hands of other CPUs (`LockStep`, `DeadlockFree`, `BarrierRun`, `StopIsSafe`,
  `LiveFetches`, `SoundShutdown`).
- Processes are admitted on time to the slot, conserved, run their programs once and in
  order, get full quanta, and wait boundedly (`AdmittedOnTime`, `Conservation`,
  `OnceInOrder`, `FullQuantum`, `BoundedWaiting`, `KernelWaiting`).
- All work ends within a number of steps bounded by the configuration, and then exactly the
  CPUs that are not idle stop; a CPU is idle only since a `get_proc` or a test that found
  nothing (`WorkEnds`, `StopsExactly`, `LastRetires`, `IdleSince`).
- The virtual space stays partitioned in every run that respects live ids, and exactly then
  (`SpacePartition`, `PartitionStep`).
- `alloc_pages_range` has an exact closed form, failures included; swap slots are never lost
  or shared in any run, and page tables, FIFO lists and devices agree in every run whose
  mappings find their frames, and exactly then (`TurnsClosed`, `AllocPagesExact`,
  `SlotOwnership`, `Agreement`).
- A byte written is read back at its address (`ReadYourWrite`), and over whole runs of many
  processes a read returns the byte last stored where it looks (`ReadLastWrite`). An evicted
  page's slot keeps the bytes saved from its frame as long as the page is off the list, and
  free slots are never written (`EvictedBytes`, `FreeBytes`).

## Where the code does not do what it means to

Each of these is the code's behaviour, kept as it is, with the exact condition under which
the intended property holds.

- `PAGING_FPN` reads bits 8..9 of an entry while `pte_set_fpn` writes bits 0..12. So a frame
  number is read back only if it is 0 (`PagingFpnExact`), and an eviction "reuses the frame of
  the victim page", as the comment at `mm.c:153` says, only for frame 0. Pages share bytes
  exactly when the bits read agree (`AliasExact`). On a RAM of up to 256 frames all resident
  pages are accessed in frame 0 (`SmallRamCollapses`); an evicted page is accessed in the
  frame named by bits 3 and 4 of its slot (`EvictedReaches`, `PageReached`).
- Frame ownership survives an operation if and only if the operation, judged by the state
  before it, needs no frame from a victim, or the one frame 0; or, when it cannot find its
  frames, there was no free frame and no page to lose (`OwnershipStep`, `FrameOwnership`).
  `EvictionLoses` and `FailureLoses` are runs that lose a frame.
- `PAGING_SWP` reads only some bits of the slot `pte_set_swap` wrote (`PagingSwpExact`).
- `pte_set_swap` sets PRESENT, so an evicted page is never fetched back; the swap-in branch
  of `pg_getpage` is reached only for pages that were never mapped (`SetSwapFacts`,
  `AccessBelowEnd`, `AbsentSlot`).
- `__alloc` ignores the result of `inc_vma_limit`: when the missing frames cannot be had by
  eviction the area has grown over unmapped pages (`ExtendCode`, `AllocMapped`).
- Freeing an id twice, or allocating over a live id, breaks the partition unless the region
  is empty (`FreeKeepsPartition`, `TakeKeepsPartition`, `DoubleFreeBreaks`).
- A CPU without a process at the head of its loop never tests `done`, so the program need
  not end. Once no work is left and `done` is set, the CPUs that stop are exactly the others,
  each within three of its own steps (`StopsExactly`, `IdleNeverStops`, `NoProcessNoStop`);
  the CPU that retires the last process is one of them if `done` is set by its next step
  (`LastRetires`, `MissTests`).
- A full queue drops a process silently (`FullQueueDrops`), which cannot happen with at most
  `MAX_QUEUE_SIZE` processes per priority (`NothingDropped`).

## Assumptions

- Critical sections are atomic steps, and the unlocked reads of `done` and of the time are
  single reads of the current value. Condition variables may wake up spuriously.
- Memory that `malloc` leaves unset and the code then reads is zero or NULL: the list heads
  of `init_mm`, the symbol table, the contents of the devices.
- RAM has at most 8192 frames and swap at most 2^21, the widths of the entry fields;
  `vm_end` does not exceed the 22-bit bus; an access needs a RAM of 1024 bytes, because
  `PAGING_FPN` can name frame 3.
- Priorities are below 140. The time slot is at least 1 where an upper
  bound on quanta is claimed.
- The set of live ids and the history variables of the kernel are ghost state: the code
  keeps neither.

## Model

| member | source | states |
|---|---|---|
| Barrier.InvStep | ossim_mm_tlb_hk241/src/timer.c:21-93 | one step of the timer, of a device in `next_slot` or `detach_event`, or a spurious wakeup keeps the barrier invariant: flags agree with thread positions, sleepers have a reason to sleep, slot counts are level, the timer's two counters are exact |
| Barrier.CountedKept | ossim_mm_tlb_hk241/src/timer.c:29-42 | devices the timer has already counted in this slot stay finished or detached, and the number detached among them stays what it counted, whatever devices do meanwhile |
| Barrier.RunInv | ossim_mm_tlb_hk241/src/timer.c:21-77 | the invariant holds in every state of every interleaving, for any number of devices |
| Barrier.LockStep | ossim_mm_tlb_hk241/src/timer.c:44-77 | in every reachable state an undetached device has finished `_time` or `_time + 1` slots, and no device is let into a slot before every undetached device finished the one before |
| Barrier.WorkingLevel | ossim_mm_tlb_hk241/src/timer.c:61-77 | two devices doing the work of a slot are in the same slot, which is the timer's, and no undetached device is more than one report ahead of them |
| Barrier.NoLostWakeup | ossim_mm_tlb_hk241/src/timer.c:30-36 | a device asleep on `timer_cond` still has `done` set and a timer that has not exited; a timer asleep on `event_cond` waits for a device that is still to report |
| Barrier.ExitTest | ossim_mm_tlb_hk241/src/timer.c:54-56 | when all devices are counted, `fsh == event` holds if and only if every device has detached |
| Barrier.TimerDecreases | ossim_mm_tlb_hk241/src/timer.c:21-59 | every timer step lowers a potential, so the timer cannot run for ever without the devices working |
| Barrier.RecheckDecreases | ossim_mm_tlb_hk241/src/timer.c:68-76 | the same for a device re-testing `done` |
| Barrier.ComesToRest | ossim_mm_tlb_hk241/src/timer.c:21-77 | left to itself the barrier takes at most 13 n + 28 steps for n devices |
| Barrier.RestState | ossim_mm_tlb_hk241/src/timer.c:29-56 | where no step of the barrier itself is possible, either all have ended, or the timer waits for a device that is still working and every undetached device works in the same slot or has finished it |
| Barrier.DeadlockFree | ossim_mm_tlb_hk241/src/timer.c:29-93 | while some device is undetached, some timer or device step is possible |
| Barrier.StopEnds | ossim_mm_tlb_hk241/src/timer.c:22 | once `stop_timer` was called, a timer at the head of its loop leaves it at its next step, and the time does not advance again |
| Sched.Selection | ossim_mm_tlb_hk241/src/sched.c:38-62 | `get_mlq_proc` returns NULL if and only if all 140 queues are empty; otherwise the head of the current queue while it has budget and work, else the head of the least-numbered non-empty queue; only that queue changes; `slot_left <= MAX_PRIO - curr_prio` is kept |
| Sched.GetAt | ossim_mm_tlb_hk241/src/sched.c:44-59 | whatever level a search arrives at with nothing more urgent waiting (or the current level, with budget and work) is the level the policy serves |
| Sched.OneStepNearer | ossim_mm_tlb_hk241/src/sched.c:38-74 | a get hands out the head of the observed level, or uses one unit of what another level may still take first; a put changes neither that amount nor the positions already in the queue |
| Sched.BoundedWaiting | ossim_mm_tlb_hk241/src/sched.c:38-74 | with no more urgent level busy, the process at position i is handed out within `slot_left + i + 1` gets, whatever puts interleave |
| Sched.WaitStep | ossim_mm_tlb_hk241/src/sched.c:38-74 | one operation of a run keeps the remaining wait plus the gets already made within the bound |
| Sched.BoundedHold | ossim_mm_tlb_hk241/src/sched.c:38-62 | a level is served at most `MAX_PRIO - p` times in a row while a more urgent level waits |
| Sched.FullQueueDrops | ossim_mm_tlb_hk241/src/queue.c:12-18 | a put loses the process if and only if its queue already holds `MAX_QUEUE_SIZE`; otherwise it is appended, and no other queue changes |
| SchedImp.Queue.Enqueue | ossim_mm_tlb_hk241/src/queue.c:12-18 | in place on the array: the newcomer is appended, or dropped by a full queue |
| SchedImp.Queue.Dequeue | ossim_mm_tlb_hk241/src/queue.c:20-37 | the shifting loop returns the head and leaves the rest in order; NULL on an empty queue |
| SchedImp.Queue.Empty | ossim_mm_tlb_hk241/src/queue.c:5-10 | `empty` is true exactly if no process waits |
| SchedImp.Scheduler.constructor | ossim_mm_tlb_hk241/src/sched.c:11-30 | 140 empty queues, cursor 0, budget `MAX_PRIO` |
| SchedImp.Scheduler.Search | ossim_mm_tlb_hk241/src/sched.c:44-59 | 140 turns of the loop always reach the level to serve, or find all queues empty and end with cursor 0 |
| SchedImp.Scheduler.Serve | ossim_mm_tlb_hk241/src/sched.c:55-57 | dequeues at the cursor and spends one unit of its budget |
| SchedImp.Scheduler.GetMlqProc | ossim_mm_tlb_hk241/src/sched.c:38-62 | the loop over cursor and budget computes exactly the policy `Sched.Get` |
| SchedImp.Scheduler.PutMlqProc | ossim_mm_tlb_hk241/src/sched.c:64-74 | `put_mlq_proc` and `add_mlq_proc` compute exactly `Sched.Put` |
| KernelInv.LinksStep | ossim_mm_tlb_hk241/src/os.c:51-156 | positions of threads agree with the barrier: detached exactly when ended, held only at the head of a loop |
| KernelPlaces.PlacesStep | ossim_mm_tlb_hk241/src/os.c:57-101 | every step keeps queues, CPUs and the place of every process in agreement |
| KernelPlaces.PlacesFetch | ossim_mm_tlb_hk241/src/os.c:62 | `get_proc` keeps that agreement: the process it returns leaves its one queue position for the CPU |
| KernelPlaces.PlacesRequeue | ossim_mm_tlb_hk241/src/os.c:78 | `put_proc` keeps it: the process leaves the CPU for one position of its queue, or is lost to a full queue |
| KernelPlaces.PlacesAdd | ossim_mm_tlb_hk241/src/os.c:146-148 | `add_proc` keeps it: the next waiting process takes one position of its queue, or is lost to a full queue |
| KernelRuns.BarrierRun | ossim_mm_tlb_hk241/src/os.c:51-156 | every run of timer, loader and CPUs drives the barrier through one of the runs of `Barrier`, so its lock step and deadlock freedom hold here |
| KernelRuns.Conservation | ossim_mm_tlb_hk241/src/os.c:59-80 | at all times every admitted process is in exactly one place: one position of the queue of its priority, one CPU, finished, or dropped by a full queue |
| KernelRuns.RoomFor | ossim_mm_tlb_hk241/src/queue.c:12-18 | a process outside its queue finds room there when at most `MAX_QUEUE_SIZE` processes share its priority |
| KernelRuns.NothingDropped | ossim_mm_tlb_hk241/src/queue.c:14-15 | with at most `MAX_QUEUE_SIZE` processes per priority no process is ever dropped |
| KernelInv.RanStep | ossim_mm_tlb_hk241/src/cpu.c:48-55 | every step keeps each process's trace equal to the prefix of its program up to its `pc` |
| KernelRuns.OnceInOrder | ossim_mm_tlb_hk241/src/cpu.c:50-55 | across preemption and migration a process has executed exactly the first `pc` instructions of its program, each once and in order; a finished one all of them |
| KernelRuns.CallsStep | ossim_mm_tlb_hk241/src/os.c:98-101 | an event adds one to the total of `run` calls if it is a call of `run`, and nothing otherwise |
| KernelRuns.WorkBound | ossim_mm_tlb_hk241/src/os.c:67-101 | in every run the number of `run` calls is at most the sum of the program sizes, an empty program counting one |
| KernelEvents.QuantumStep | ossim_mm_tlb_hk241/src/os.c:55-101 | every step keeps, per CPU: `time_left` is the slot length less the calls of `run` counted since the process took the CPU, or 0 before the dispatch, when there was no call yet |
| KernelEvents.FullQuantum | ossim_mm_tlb_hk241/src/os.c:74-101 | counting events of the run: a process that holds a CPU took it at some event and has had at most `time_slot` calls of `run` by that CPU since; when it is put back it has had exactly `time_slot` |
| KernelEvents.TimeLeft | ossim_mm_tlb_hk241/src/os.c:55-99 | `0 <= time_left <= time_slot` in every state of a run; a CPU without a process has none left |
| KernelInv.DoneComesLate | ossim_mm_tlb_hk241/src/os.c:146-153 | `done` is set a whole slot after the last `add_proc`: by then every CPU that has not stopped is in a later slot than that call |
| KernelInv.AddKeepsLive | ossim_mm_tlb_hk241/src/os.c:146-149 | at an `add_proc` every CPU will still look at the queues again |
| KernelInv.CpuQueues | ossim_mm_tlb_hk241/src/os.c:59-91 | a CPU that arrives at the second test without a process leaves all queues empty; only a CPU about to fetch makes them non-empty |
| KernelInv.ShutStep | ossim_mm_tlb_hk241/src/os.c:57-103 | every step keeps: `done` implies that all CPUs not stopped are past the last `add_proc`; a stopping CPU saw `done`; once all processes are admitted, waiting work implies a CPU that will still fetch |
| KernelRuns.LastFetch | ossim_mm_tlb_hk241/src/os.c:62-91 | a fetch that returns NULL after the last `add_proc` leaves every process finished, dropped or on another CPU |
| KernelRuns.StopIsSafe | ossim_mm_tlb_hk241/src/os.c:83-86 | when one CPU decides to stop, every process was admitted and has run to its end, or was dropped (only if some priority has more processes than a queue holds), or is on another CPU, or is queued with another CPU live |
| KernelRuns.LiveStays | ossim_mm_tlb_hk241/src/os.c:57-103 | a live CPU stays live through every step except its own call of `get_proc` |
| KernelRuns.LiveFetches | ossim_mm_tlb_hk241/src/os.c:59-91 | what live means: such a CPU cannot stop before it has called `get_proc` once more |
| KernelRuns.SoundShutdown | ossim_mm_tlb_hk241/src/os.c:83-104 | once all CPUs have stopped, every process was admitted and ran to its end, unless a full queue dropped it |
| KernelRuns.KernelProgress | ossim_mm_tlb_hk241/src/os.c:51-156 | while some thread has not detached, a thread or the timer can take a step |
| KernelRuns.IdleStep | ossim_mm_tlb_hk241/src/os.c:59-66 | with no work left, a CPU at the head of its loop without a process stays there or on its way back there |
| KernelRuns.IdleNeverStops | ossim_mm_tlb_hk241/src/os.c:59-66 | such a CPU never reaches the test of `done`, so it never stops |
| KernelRuns.EndingStep | ossim_mm_tlb_hk241/src/os.c:74-104 | with no work left and `done` set, each own step of a CPU past the head of its loop brings it nearer to its end, and no other step moves it |
| KernelRuns.StopsExactly | ossim_mm_tlb_hk241/src/os.c:57-104 | from a state with no work left and `done` set, a CPU that takes three more steps, or as many as it can, has stopped if and only if it was not idle in that state; which events make a CPU idle is `IdleSince` |
| KernelEvents.MissStops | ossim_mm_tlb_hk241/src/os.c:67-86 | a CPU that frees or puts back its process while `done` is set, all queues being empty, has stopped once it has taken two more steps, or can take none |
| KernelEvents.MissTests | ossim_mm_tlb_hk241/src/os.c:67-91 | after such a `get_proc` the next step of the CPU decides to stop if and only if `done` is set by then; otherwise the CPU goes back to the head of its loop |
| KernelEvents.LastRetires | ossim_mm_tlb_hk241/src/os.c:67-86 | if `done` is set when the last process retires, the CPU that retires it has stopped once it has taken two more steps, or can take none |
| KernelEvents.IdleCause | ossim_mm_tlb_hk241/src/os.c:59-91 | a step makes a CPU idle if it is a `get_proc` at the head of its loop with all queues empty, or a second test without process and without `done`; no other step makes a CPU idle |
| KernelEvents.IdleSince | ossim_mm_tlb_hk241/src/os.c:59-91 | in every run, a CPU that is idle has been since the start or since such a step |
| KernelRuns.NoProcessNoStop | ossim_mm_tlb_hk241/src/os.c:57-66 | the concrete case: with no processes configured no CPU ever stops |
| KernelEnds.RankStep | ossim_mm_tlb_hk241/src/os.c:51-156 | within a slot every step of the timer, the loader or a CPU lowers a rank; a spurious wakeup raises it by one at most |
| KernelEnds.PaceStep | ossim_mm_tlb_hk241/src/os.c:118-150 | every step keeps the loader on time: it finishes a slot only while the next process is not due, or after an admission, and it is about to admit only in the slot the process is due, `max(start time, one after the previous admission)` |
| KernelEnds.AdmittedOnTime | ossim_mm_tlb_hk241/src/os.c:118-150 | in every run, a process is admitted in exactly that slot: no process is off the waiting list before it, hence none before its start time, and none is still waiting after it |
| KernelEnds.LoaderEnds | ossim_mm_tlb_hk241/src/os.c:118-154 | once the time is past the slot after the last admission, the loader has set `done` and detached |
| KernelEnds.QuietStep | ossim_mm_tlb_hk241/src/os.c:57-103 | in a slot after the loader has ended, as long as no CPU calls `run`: a CPU that is through holds no process, and waiting work implies a CPU that will still fetch or run |
| KernelEnds.QuietEnd | ossim_mm_tlb_hk241/src/os.c:57-103 | a slot that ends so leaves no work: every process is over |
| KernelEnds.SlotInvStep | ossim_mm_tlb_hk241/src/os.c:51-156 | until work is over, slots number at most those of the loader, one, and one for each call of `run` before the current slot |
| KernelEnds.WorkEnds | ossim_mm_tlb_hk241/src/os.c:51-156 | in every run of more steps of timer, loader and CPUs than a bound that depends on the configuration only, spurious wakeups allowed for, every process is over and `done` is set at some point |
| KernelWaits.SchedMoves | ossim_mm_tlb_hk241/src/os.c:57-101 | every step performs one put, one get or nothing on the queues, and a get hands its process to the CPU |
| KernelWaits.SchedulerRun | ossim_mm_tlb_hk241/src/sched.c:38-74 | the scheduler's states in a run of the kernel are those of one of its own runs of puts and gets |
| KernelWaits.WaitEvent | ossim_mm_tlb_hk241/src/sched.c:38-74 | one step of the kernel, seen from a process in its queue: dispatched at the head, moved up, or kept in place with at most one get spent on others |
| KernelWaits.KernelWaiting | ossim_mm_tlb_hk241/src/sched.c:38-74 | in a run of the kernel, while no more urgent level has work, the process at position i of its level is on a CPU within `slot_left + i + 1` calls of `get_proc` by all CPUs together |
| Bits.BitGenMask | ossim_mm_tlb_hk241/include/bitops.h:27-28 | `GENMASK(h, l)` has exactly the bits l..h, for all l <= h < 32 |
| Bits.BitBitMask | ossim_mm_tlb_hk241/include/bitops.h:10 | `BIT(nr)` has exactly bit nr |
| Bits.NbitsIsLog2 | ossim_mm_tlb_hk241/include/bitops.h:30-35 | `NBITS(n)` is the floor of log2 n for every non-zero 32-bit n |
| Bits.NbitsOfPower | ossim_mm_tlb_hk241/include/bitops.h:30-35 | `NBITS` of a power of two is its exponent |
| Bits.BitGetVal | ossim_mm_tlb_hk241/include/mm.h:70 | `GETVAL` of any field reads exactly the digits of that field |
| Bits.BitSetVal | ossim_mm_tlb_hk241/include/mm.h:69 | `SETVAL` of any field replaces exactly the digits of that field |
| Bits.BitSetBit | ossim_mm_tlb_hk241/include/mm.h:66 | `SETBIT` sets one bit and keeps the others |
| Bits.BitClrBit | ossim_mm_tlb_hk241/include/mm.h:67 | `CLRBIT` clears one bit and keeps the others |
| Bits.FieldRoundTrip | ossim_mm_tlb_hk241/include/mm.h:69-70 | `GETVAL` after `SETVAL` of a field gives the value cut to the field's width, from any prior word |
| Bits.FieldFrame | ossim_mm_tlb_hk241/include/mm.h:69-70 | `SETVAL` of one field leaves every disjoint field as it was |
| Pte.Positions | ossim_mm_tlb_hk241/include/mm.h:49-62 | the bit positions written with `NBITS` are 8, 10 and 14, and `PAGING_MAX_PGN` is 2^14 |
| Pte.TestBit | ossim_mm_tlb_hk241/include/mm.h:27 | testing a one-bit mask reads that bit |
| Pte.BitSetFpn | ossim_mm_tlb_hk241/src/mm.c:71-79 | every bit of the entry `pte_set_fpn` leaves |
| Pte.BitSetSwap | ossim_mm_tlb_hk241/src/mm.c:55-64 | every bit of the entry `pte_set_swap` leaves |
| Pte.SetFpnFacts | ossim_mm_tlb_hk241/src/mm.c:71-79 | from any prior entry: present, not swapped, non-zero, and the FPN field gives back the frame number |
| Pte.SetSwapFacts | ossim_mm_tlb_hk241/src/mm.c:55-64 | from any prior entry: swapped, and also present, non-zero, and the SWPOFF field gives back the slot |
| Pte.PagingFpnReads | ossim_mm_tlb_hk241/include/mm.h:75-84 | `PAGING_FPN` reads bits 8 and 9 of the stored frame number |
| Pte.PagingFpnExact | ossim_mm_tlb_hk241/include/mm.h:75-84 | `PAGING_FPN` gives back the frame number stored by `pte_set_fpn` if and only if it is 0; otherwise a smaller one, below 4 |
| Pte.PagingSwpExact | ossim_mm_tlb_hk241/include/mm.h:61-63 | `PAGING_SWP` gives back the slot stored by `pte_set_swap` if and only if the slot is a multiple of 8 below 512 |
| Pte.PagingFpnOfSlot | ossim_mm_tlb_hk241/include/mm.h:75-84 | of any entry `PAGING_FPN` reads bits 3 and 4 of what would be its slot |
| Pte.AddressSplit | ossim_mm_tlb_hk241/include/mm.h:73-82 | for every 32-bit address, page number times 256 plus offset is the address modulo 2^22, with the page number below `PAGING_MAX_PGN` |
| Regions.CutCovers | ossim_mm_tlb_hk241/src/mm-vm.c:546-579 | cutting a region moves bytes from the list to the region handed out and loses none |
| Regions.CutExact | ossim_mm_tlb_hk241/src/mm-vm.c:551-579 | a used-up region with a successor leaves a list one shorter, the others in order; otherwise the list keeps its length and only that region shrinks, from its front, to what is left of it |
| Regions.TakeKeepsPartition | ossim_mm_tlb_hk241/src/mm-vm.c:88-96 | an allocation from the free list keeps the partition of the area if and only if it does not overwrite a live, non-empty region |
| Regions.ExtendKeepsPartition | ossim_mm_tlb_hk241/src/mm-vm.c:107-127 | an allocation by growing the area keeps the partition under exactly the same condition |
| Regions.FreeKeepsPartition | ossim_mm_tlb_hk241/src/mm-vm.c:152-157 | a free keeps the partition if and only if the id is live or its region empty |
| Regions.LiveDisjoint | ossim_mm_tlb_hk241/src/mm-vm.c:81-131 | two live regions never share a byte |
| Regions.BytesConserved | ossim_mm_tlb_hk241/src/mm-vm.c:81-161 | sizes of free and live regions add up to `vm_end` |
| Frames.TurnsClosed | ossim_mm_tlb_hk241/src/mm.c:119-160 | the loop of `alloc_pages_range`, turn by turn, equals the closed form in every case, failures included |
| Frames.TurnAt | ossim_mm_tlb_hk241/src/mm.c:123-158 | one successful turn takes the closed form for n frames to the one for n + 1 |
| Frames.TurnFails | ossim_mm_tlb_hk241/src/mm.c:134-147 | the turn that finds no victim or no slot ends in the closed form of failure: -1 or -3000, no frames, and a victim lost when only the slot is missing |
| Frames.AllocPagesExact | ossim_mm_tlb_hk241/src/mm.c:119-160 | with k = max(0, req - free frames) it succeeds if and only if k pages can be evicted and k slots are free; it then yields req frames and evicts exactly the k oldest pages, in order, to the first k slots, and changes no other entry |
| Frames.PartialEvict | ossim_mm_tlb_hk241/src/mm.c:148-157 | one eviction: the oldest page, its entry marked with the first free slot, the frame `PAGING_FPN` reads put at the head of the list |
| Frames.SlotsSwapOut | ossim_mm_tlb_hk241/src/mm.c:149-153 | evictions record exactly the slots they took |
| Frames.EnlistedOk | ossim_mm_tlb_hk241/src/mm.c:97-106 | enlisting the new pages keeps the FIFO list free of duplicates and adds exactly those pages |
| Frames.FramesMapped | ossim_mm_tlb_hk241/src/mm.c:97-108 | the frame list is consumed in the reverse of the order in which frames were obtained, so the resident pages, newest first, hold the frames in the order obtained |
| Frames.FramesAfter | ossim_mm_tlb_hk241/src/mm.c:183-199 | allocation and mapping replace, among the frames in use, those of the victims by the frames obtained |
| Memory.AllocKeeps | ossim_mm_tlb_hk241/src/mm-vm.c:81-131 | `__alloc` keeps `sbrk == vm_end`, page alignment, a non-empty free list within the area, and a duplicate-free FIFO list, also when the mapping fails or a live id is reused |
| Memory.FreeKeeps | ossim_mm_tlb_hk241/src/mm-vm.c:140-161 | the same for `__free`, also for an id freed twice |
| Memory.AllocVirtual | ossim_mm_tlb_hk241/src/mm-vm.c:81-131 | `__alloc` keeps the partition of `[0, vm_end)` if and only if it does not overwrite a live, non-empty region |
| Memory.AllocFresh | ossim_mm_tlb_hk241/src/mm-vm.c:90-118 | the region handed out has the size asked for, lies below `vm_end` and shares no byte with another live region |
| Memory.ExtendCode | ossim_mm_tlb_hk241/src/mm.c:171-202 | `vm_map_ram` succeeds if and only if the k frames missing from the free list are matched by k pages on the FIFO list and k free slots |
| Memory.FailShape | ossim_mm_tlb_hk241/src/mm.c:134-147 | a failed `vm_map_ram` takes every free frame and every pair of page and slot, and drops one page more if slots ran out first |
| Memory.AllocMapped | ossim_mm_tlb_hk241/src/mm-vm.c:101-118 | after `__alloc` every page below `vm_end` is mapped and none other, resident pages being exactly the unswapped ones, if and only if the free-region list had room, or the missing frames were matched by pages to evict and free slots |
| Memory.ExtendBelow | ossim_mm_tlb_hk241/src/mm.c:119-202 | growing the area, with or without success, records and frees no frame number beyond those on record before |
| Memory.AllocConserves | ossim_mm_tlb_hk241/src/mm.c:119-199 | no `__alloc`, mapped or failed, loses a swap slot: slots move between device and table, resident pages stay unswapped and nothing is written beyond the area; pages on the FIFO list and free frames together stay as many as they were if and only if the allocation can be mapped, or there was neither |
| Memory.AllocFrames | ossim_mm_tlb_hk241/src/mm.c:119-199 | an `__alloc` that can be mapped with k evictions exchanges the k victims' frames for the frames `PAGING_FPN` takes them to be |
| Memory.ExchangeExact | ossim_mm_tlb_hk241/src/mm.c:149-154 | that exchange is no change if and only if nothing was evicted, or one page in frame 0 |
| Machine.SpacesStep | ossim_mm_tlb_hk241/src/mm-vm.c:81-161 | over many processes, every legal step keeps the shape of all address spaces, whatever ids it uses |
| Machine.PartitionStep | ossim_mm_tlb_hk241/src/mm-vm.c:81-161 | over many processes, a step keeps every address space partitioned if and only if it respects live ids |
| Machine.SpacePartition | ossim_mm_tlb_hk241/src/mm-vm.c:81-161 | over whole runs of any number of processes, whether or not memory runs out, free and live regions cover `[0, vm_end)` exactly once all along if and only if every step respects live ids |
| Machine.SpaceFacts | ossim_mm_tlb_hk241/src/mm-vm.c:471-494 | the consequences in every state of such a run: `sbrk == vm_end`, a multiple of 256; every byte in exactly one region; live regions disjoint; bytes conserved |
| Machine.DoubleFreeBreaks | ossim_mm_tlb_hk241/src/mm-vm.c:140-161 | a run that breaks the partition: one region allocated and freed twice |
| Machine.SlotsStep | ossim_mm_tlb_hk241/src/mm.c:119-160 | every legal step, failed mappings included, conserves the swap slots over all processes |
| Machine.SlotOwnership | ossim_mm_tlb_hk241/src/mm.c:134-153 | over every legal run, failed mappings and misused ids included, the slots recorded in all page tables and the free slots are each slot of the device exactly once |
| Machine.AgreesStep | ossim_mm_tlb_hk241/src/mm.c:119-199 | from a state in agreement, a legal step keeps page tables, FIFO lists and devices in agreement if and only if it needs no mapping or its mapping finds its frames |
| Machine.Agreement | ossim_mm_tlb_hk241/src/mm.c:55-160 | over whole runs, ids misused or not, the following holds all along if and only if every mapping finds its frames: every page below `vm_end / 256` is on the FIFO list once and not swapped, or absent from it and swapped; recorded and free slots are each slot of the device exactly once; resident pages and free frames number the frames of the RAM |
| Machine.OwnershipStep | ossim_mm_tlb_hk241/src/mm.c:119-160 | any legal step keeps frame ownership if and only if, by the state before: a mapping that finds its frames evicts no page or one page in frame 0, and one that does not finds neither a free frame nor a page |
| Machine.FrameOwnership | ossim_mm_tlb_hk241/src/mm-memphy.c:113-157 | over whole runs, frames of resident pages of all processes and free frames are exactly 0..numfp-1, each once, all along if and only if every step meets that condition |
| Machine.EvictionLoses | ossim_mm_tlb_hk241/src/mm.c:148-153 | a run with two frames in which an eviction loses frame 1 |
| Machine.FailureLoses | ossim_mm_tlb_hk241/src/mm.c:134-147 | a run with one frame in which a failed mapping loses it without evicting anything |
| Machine.FramesExist | ossim_mm_tlb_hk241/src/mm.c:71-79 | in every run, evictions and failed mappings included, free frames and the frames stored for resident pages are below the number of frames |
| Devices.Memphy.constructor | ossim_mm_tlb_hk241/src/mm-memphy.c:190-203 | all frames of the device are free |
| Devices.Memphy.Format | ossim_mm_tlb_hk241/src/mm-memphy.c:113-139 | for any page size the loop builds the free list 0..numfp-1 of frames inside the device; a device without a whole frame gives -1 and keeps its list |
| Devices.Memphy.GetFreeFp | ossim_mm_tlb_hk241/src/mm-memphy.c:141-157 | takes the first free frame, or fails on an empty list |
| Devices.Memphy.Read | ossim_mm_tlb_hk241/src/mm-memphy.c:56-67 | the byte at the address |
| Devices.Memphy.Write | ossim_mm_tlb_hk241/src/mm-memphy.c:96-107 | exactly one byte changes |
| Devices.SwapCpPage | ossim_mm_tlb_hk241/src/mm.c:210-226 | the byte loop copies one frame over another and changes nothing else |
| Access.SwapInOk | ossim_mm_tlb_hk241/src/mm-vm.c:194-239 | `pg_getpage` succeeds if and only if the page is present, or a victim and a slot exist; a present page changes nothing; afterwards the page is present |
| Access.SwapInExact | ossim_mm_tlb_hk241/src/mm-vm.c:203-236 | a swap-in takes the first free slot and the oldest page; it saves that page's frame to the slot its entry then records, fills the frame from swap frame 0, records it for the page and makes the page the newest of the list; no other entry and no other byte of RAM or swap changes; what is then read is frame 0, which is that frame only if it is 0 |
| Access.GetPageConserves | ossim_mm_tlb_hk241/src/mm-vm.c:194-239 | `pg_getpage` never loses a swap slot: recorded and free slots together stay the same, found or not; resident pages stay distinct and unswapped, and as many, except that a victim is lost when only the slot is missing |
| Access.AccessConserves | ossim_mm_tlb_hk241/src/mm-vm.c:247-285 | the same for reading and for writing a byte |
| Access.ReadYourWrite | ossim_mm_tlb_hk241/src/mm-vm.c:247-285 | a byte `pg_setval` stored is what the next `pg_getval` at that address returns, whether or not the page had to be fetched, and that read changes nothing |
| Access.StoreExact | ossim_mm_tlb_hk241/src/mm-vm.c:270-285 | on a present page a store changes one RAM byte and no table or list, and every present address reads the new value exactly if it shares that byte |
| Access.AliasExact | ossim_mm_tlb_hk241/include/mm.h:75-84 | two addresses, of one process or of two, share a byte if and only if offsets agree and the stored frame numbers agree in bits 8 and 9 |
| Access.PhysExact | ossim_mm_tlb_hk241/src/mm-vm.c:236-280 | an access reaches the frame stored by `pte_set_fpn` if and only if that is frame 0 |
| Access.AccessBelowEnd | ossim_mm_tlb_hk241/src/mm-vm.c:194-285 | where every page of the area is mapped, an access below `vm_end` takes no swap-in: a read changes nothing, a write one byte of the RAM |
| Access.LiveBytesPresent | ossim_mm_tlb_hk241/src/mm-vm.c:81-131 | every byte of every live region lies on a present page below `vm_end` |
| Access.SmallRamCollapses | ossim_mm_tlb_hk241/src/mm-vm.c:236 | in every run on at most 256 frames, evictions and failed mappings included, all resident pages of all processes are accessed in frame 0 |
| Access.EvictedReaches | ossim_mm_tlb_hk241/src/mm-vm.c:196-236 | an evicted page stays present, and its access reaches the frame named by bits 3 and 4 of its slot |
| Access.PageReached | ossim_mm_tlb_hk241/src/mm-vm.c:236 | in runs whose mappings find their frames, which frame any page of any area is accessed in; on at most 256 frames it is frame 0 exactly for resident pages and for pages in a slot with bits 3 and 4 clear |
| Traffic.AccessStep | ossim_mm_tlb_hk241/src/mm-vm.c:247-285 | an access below `vm_end`, in a world whose books agree, changes no table or list: a read changes nothing, a write one byte |
| Traffic.RunSound | ossim_mm_tlb_hk241/src/mm-vm.c:81-285 | in every run that mixes allocations, frees, reads and writes of any number of processes, the books stay in agreement, the devices keep their sizes, and every operation is defined |
| Traffic.AccessOwns | ossim_mm_tlb_hk241/src/mm-vm.c:194-285 | over all processes, recorded and free slots stay each slot of the device exactly once through any access below `vm_end`, also to a page that a failed mapping left unmapped |
| Traffic.BooksRun | ossim_mm_tlb_hk241/src/mm-vm.c:81-285 | with its accesses left out such a run is a run of `Machine`, so its theorems hold with accesses in between |
| Traffic.ReadLastWrite | ossim_mm_tlb_hk241/src/mm-vm.c:247-285 | a read returns the byte last stored, by whichever process, at an address that reached the same RAM byte |
| Backing.EvictedStep | ossim_mm_tlb_hk241/src/mm.c:132-153 | one operation of a mixed run: a page off its FIFO list afterwards was off it before, with its slot and the bytes there unchanged, or was evicted by the operation, and its slot holds the 256 RAM bytes of the frame named by bits 8 and 9 of its stored frame number |
| Backing.EvictedBytes | ossim_mm_tlb_hk241/src/mm.c:132-153 | over whole mixed runs of any number of processes: every page below `vm_end` off its FIFO list was evicted by one operation and stayed off, and the 256 swap bytes of its slot are the RAM bytes, just before that operation, of the frame named by bits 8 and 9 of its stored frame number |
| Backing.FreeBytes | ossim_mm_tlb_hk241/src/mm.c:145-151 | over the same runs, a slot that is still free holds the bytes it had at the start |
| Backing.GrowBytes | ossim_mm_tlb_hk241/src/mm.c:148-153 | one growing allocation: the i-th slot taken holds the frame the i-th oldest page was believed to occupy, and every other slot keeps its bytes |
| Paging.MmStruct.constructor | ossim_mm_tlb_hk241/src/mm.c:233-257 | empty table, empty FIFO list, one empty free region, `sbrk == vm_end == 0` |
| Paging.Pcb.constructor | ossim_mm_tlb_hk241/src/os.c:133-137 | a process on the shared devices starts with a fresh address space that satisfies the invariant |
| Paging.Pcb.Evict | ossim_mm_tlb_hk241/src/mm.c:132-153 | the eviction in place: list, slot, page copy and entry; what is left behind when it fails |
| Paging.Pcb.ObtainFrame | ossim_mm_tlb_hk241/src/mm.c:125-154 | one turn of the loop in place equals `Frames.Turn` |
| Paging.Pcb.AllocPagesRange | ossim_mm_tlb_hk241/src/mm.c:119-160 | the loop in place leaves exactly the closed form of table, lists and return code, and on the swap device the victims' pages, oldest first |
| Paging.SavedStep | ossim_mm_tlb_hk241/src/mm.c:149-151 | one eviction more adds one page copy to the swap device's contents |
| Paging.Pcb.VmapPageRange | ossim_mm_tlb_hk241/src/mm.c:84-110 | the loop maps the frames at consecutive pages, enlists the pages, and consumes exactly one frame a page |
| Paging.Pcb.VmMapRam | ossim_mm_tlb_hk241/src/mm.c:171-202 | allocation and mapping, or -1 with the damage of the failed allocation |
| Paging.Pcb.IncVmaLimit | ossim_mm_tlb_hk241/src/mm-vm.c:471-494 | `vm_end` and `sbrk` grow before the mapping is tried, and stay grown when it fails |
| Paging.Pcb.Grow | ossim_mm_tlb_hk241/src/mm-vm.c:101-127 | the area grows, and what is left of its last page becomes a free region |
| Paging.Pcb.Alloc | ossim_mm_tlb_hk241/src/mm-vm.c:81-131 | in place, `__alloc` computes exactly the function the run theorems are about, and keeps the process invariant |
| Paging.Pcb.Free | ossim_mm_tlb_hk241/src/mm-vm.c:140-161 | likewise `__free`; an id outside the table gives -1 and changes nothing |
| Paging.BackedAfter | ossim_mm_tlb_hk241/src/mm.c:171-202 | the frames resident pages are taken to occupy always exist in the RAM |
| Paging.WrittenAfter | ossim_mm_tlb_hk241/src/mm.c:55-79 | no entry is ever written that is not present |
| Paging.Pcb.FetchPage | ossim_mm_tlb_hk241/src/mm-vm.c:197-234 | the swap-in in place computes `Access.GetPage`, page copies and entries included; it fails exactly without a victim or a slot, takes the first free slot off the list when it succeeds and none otherwise, and moves the page to the head of the FIFO list in place of its last |
| Paging.PageFifo | ossim_mm_tlb_hk241/src/mm-vm.c:197-234 | an access below `vm_end` keeps the FIFO list duplicate-free, and takes the first free slot exactly if it swaps a page in |
| Paging.Pcb.GetPage | ossim_mm_tlb_hk241/src/mm-vm.c:194-239 | both branches in place compute `Access.GetPage`, which `SwapInExact` and `GetPageConserves` pin down, and an access below `vm_end` keeps the process invariant |
| Paging.Pcb.ValidAccessible | ossim_mm_tlb_hk241/src/mm-vm.c:194-285 | what `__alloc` and `__free` keep, on a RAM of 1024 bytes, is all an access needs |
| Paging.Pcb.GetVal | ossim_mm_tlb_hk241/src/mm-vm.c:247-262 | reads the byte behind `PAGING_FPN`, or gives -1 |
| Paging.Pcb.SetVal | ossim_mm_tlb_hk241/src/mm-vm.c:270-285 | writes the byte behind `PAGING_FPN`, or gives -1 |
| Paging.Pcb.Read | ossim_mm_tlb_hk241/src/mm-vm.c:295-313 | returns -1 for an id out of range; otherwise reads at start plus offset, cut to 32 bits, and returns 0 even when the page could not be fetched |
| Paging.Pcb.Write | ossim_mm_tlb_hk241/src/mm-vm.c:347-365 | likewise for `__write` |
| Lists.RegionList.constructor | ossim_mm_tlb_hk241/src/mm.c:259-276 | a list of one region |
| Lists.RegionList.Enlist | ossim_mm_tlb_hk241/src/mm-vm.c:18-32 | on the heap list, empty or not, computes `Regions.Enlist` and keeps the list acyclic |
| Lists.RegionList.Absorb | ossim_mm_tlb_hk241/src/mm-vm.c:561-572 | copying the successor's contents and unlinking it removes exactly the used-up region |
| Lists.RegionList.Shorten | ossim_mm_tlb_hk241/src/mm-vm.c:554-576 | changes one region of the list and no other |
| Lists.RegionList.Cut | ossim_mm_tlb_hk241/src/mm-vm.c:553-578 | shortens the chosen region, removes a used-up one, and leaves the last one behind empty |
| Lists.RegionList.GetFreeArea | ossim_mm_tlb_hk241/src/mm-vm.c:533-590 | the walk along the links computes `Regions.Take` on the list's contents and keeps it acyclic and non-empty |
| Lists.PageList.EnlistPgn | ossim_mm_tlb_hk241/src/mm.c:278-287 | a new node at the head |
| Lists.PageList.FindVictim | ossim_mm_tlb_hk241/src/mm-vm.c:501-525 | the walk with a trailing node unlinks exactly the last node and returns its page |

## Left out

- TLB (`cpu-tlb.c`, `cpu-tlbcache.c`): its lines overlap and its status code is used as a frame number, so it does not cache the page table; ALLOC, FREE, READ and WRITE are modelled below it.
- Effect of instructions in `Kernel`: `run` there advances the program counter and records the instruction; what ALLOC, FREE, READ and WRITE do to memory is `Paging`.
- The list of free frames of a device is a sequence; only the region list and the FIFO list are modelled as nodes on the heap.
- Paging.Pcb.Free: an id of 30 passes the range check and reads one entry past the 30-entry table, which is outside the language; the method requires another id.
- Paging.Pcb.Read: likewise for the id 30.
- Paging.Pcb.Write: likewise for the id 30.
- Paging.Pcb.Alloc: requires an id inside the table and an area that stays on the 22-bit bus; beyond them the code writes outside its tables.
- Mixed runs (`Traffic`, `Backing`) after a failed mapping, or with accesses beyond `vm_end`: such an access enlists a page that the growing area enlists again, so the books of `Agreement` no longer hold; single accesses there are `SwapInExact`, `AccessConserves` and `AccessOwns`.
- Isolation of physical bytes between pages of one or two processes: false, with the exact condition in `AliasExact`.
- Unconditional termination of the CPUs: false, with the exact condition in `StopsExactly`; that the work ends is `WorkEnds`.
- `ready_queue`, `run_queue` and `queue_empty`: never used.
- `free_pcb_memph` with `MEMPHY_put_freefp`, which only it calls, `init_pte` and sequential devices: on no path of the simulator.
- More than one memory area or swap device: the code creates one area and uses one active device.
- `loader.c`, `read_config`, `main`, `mem.c`, `paging.c`, printing and dumping: file and console work, or obsolete.
- Wrap-around of the 64-bit time, of `time_left` and of the slot counters.
- `start_timer`, `attach_event` and the destruction in `stop_timer`: the barrier starts with its devices attached, and `Stop` is only the flag that ends the timer.
