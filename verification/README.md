# dominOS, verified

A model in Dafny of the hard parts of dominOS, a small x86 teaching kernel, with proofs of what they keep, what
they promise and, where they fail, exactly when.

`dafny verify dfyconfig.toml` checks the project. Each source component is one or more modules.

| component | modules |
|---|---|
| hash table, `kernel/hash.c` | `HashCycle` (the probe sequence), `TableSpec` (tables as values), `HashTable` (the class `Hash`) |
| page allocator, `kernel/page_allocator.c` | `BuddySpec`, `BuddyOps` (free lists as sequences), `Buddy` (the class `PageAllocator`, lists threaded through memory), `BuddyRuns` (runs, on lists and in memory), `BuddyExamples` (runs that end badly) |
| linked queues, `shared/queue.h` | `QueueSpec` (priority queues as sequences), `Queue` (the class `Links`, prev and next words) |
| scheduler, message queues, priorities, exit: `kernel/task.c`, `msg.c`, `prio.c`, `exit.c` | `KernelSpec` (the state machine), `KernelInv`, `KernelSteps`, `KernelMsg`, `KernelRuns` (its invariant and runs), `KernelLookup`, `KernelRotation`, `KernelMoves` (what each step does to every task), `KernelAges` (order of arrival), `KernelExamples` (runs that end badly), `Messages` (the class `Boxes`, the message lists in memory), `KernelCode` (the class `System`, the code on linked words) |
| heap, `shared/malloc.c` | `MallocSizes`, `MallocHeap` (chunks as a map), `MallocArena` (tags, bins and fastbins in memory), `Malloc` (the class `Allocator`), `MallocUser`, `MallocRuns` (what a program relies on) |
| paging, `kernel/paging.c`, `kernel/gdb_serial_support.c` | `PagingSpec`, `Paging` (the class `AddressSpace`), `GdbMemory` |
| 64-bit arithmetic, `shared/div64.c`, `user/tests/lib/math.c` | `Div64` |
| debugger packets, `kernel/gdb_serial.c` | `GdbPacket` |
| printing and reading numbers, `shared/doprnt.c`, `strtol.c`, `strtoul.c` | `Numerals`, `Doprnt`, `StrTo`, `NumberText` |
| substring search, `shared/string.c` | `Strings` |

`Arith`, `Lists` and `Options` hold what several of them share.

Memory that objects manage inside themselves (free lists, boundary tags, list links, messages) is a map from addresses to
words; the code reads and writes those words, and ghost sequences say what they thread. A method that changes
state is proved equal to a function of the old state, and the properties are proved of that function. The
kernel is not preempted inside a system call, so a run is a sequence of system calls, clock ticks and
resumptions; psend and preceive end, block or go on as separate steps.

## What the code does not do

Some promises fail on some inputs. The model follows the code; the members named state the exact condition, and
give a run or an input that meets it.

- The page allocator runs off `area.map` for a request at the top level while no arena is wholly free
  (`BuddyOps.AllocOutcome`, `BuddyExamples.SecondArenaRequest`), and overwrites the word behind it when the second and
  third arenas are both freed whole (`BuddyOps.OverrunIff`, `BuddyExamples.ThirdArenaOverruns`).
- `wait_clock` with a time already reached fails an assertion (`KernelSteps.WaitClockFailsIff`,
  `KernelExamples.WaitClockPanics`).
- A message of -1 is the sentinel of `kernel/msg.c`: psend returns 0 and drops it (`KernelMsg.PsendSound`,
  `KernelExamples.PsendDrops`).
- `psend`, `preceive`, `pcount`, `pdelete` and `preset` index the table of queues with the identifier of the caller
  untested (`kernel/msg.c:12-16`, `:101`, `:142`): the runs here take identifiers from 0 to 19 (`KernelRuns.Enabled`).
- `kill` calls no `schedule`: a parent it releases may outrank the running task (`KernelRuns.StepSettlesIff`,
  `KernelRuns.RunsStaySettledIff`, `KernelExamples.KillUnsettles`).
- Zombies are queued by a signed priority made from the clock at their death: one that died after the sign bit of the
  clock was set stands before those that died earlier (`KernelMoves.FirstDeadIff`).
- The overflow test of `hash_update` is never taken. A table of 2^27 slots that must double keeps its size instead:
  the byte count of the next size wraps to zero, a length that `mem_alloc` refuses (`shared/malloc.c:5604`), and
  `hash_update` returns -1 (`HashTable.ByteCountWrapsIff`, `HashTable.DoublingFits`, `HashTable.Hash.Update`).
- `is_user_addr` looks at the page table entry only, and the directory entry keeps the flags of the first page mapped
  in its 4 MB region: a user page mapped after a kernel page of the same region passes for one the user may touch
  (`PagingSpec.UserBitIff`, `Paging.UserAddrAfter`, `Paging.KernelPageFirst`). `ALIGN_UP` rounds down, against its
  comment: zones include the page of their last address.
- `do_div64` raises a divide error when the 32 leading bits of a divisor of more than 32 bits are all ones
  (`Div64.DoDiv64`, `Div64.DivideByAllOnes`).
- The run-length encoder sends `$` as a count for four zero bytes, and `#`, the terminator, for seven equal plain
  characters; section E.1 "Overview" of the Remote Serial Protocol appendix of the GDB manual excludes both
  (`GdbPacket.SpecialIff`, `GdbPacket.SpecialInside`).
- `strtol` does not skip a plus sign, so it does not read back `%+d` (`NumberText.SignedReadsBackIff`,
  `NumberText.PlusFive`); a zero flag or a precision makes `%u` octal for `strtoul` in base zero
  (`NumberText.DecimalReadsBackIff`, `NumberText.PaddedTen`). `%.0d` of zero prints a digit, and the flags `-` and
  `0` together pad with zeros, against section 7.19.6.1 of ISO C99.

## Model

| member | source | states |
|---|---|---|
| HashCycle.GeometricDivisibility | kernel/hash.c:75-79 | 2^k divides 1 + 5 + … + 5^(n-1) exactly when it divides n |
| HashCycle.OrbitReturns | kernel/hash.c:75-79 | n steps of i → 5i+1 lead back to the same slot of a table of 2^k exactly when 2^k divides n |
| HashCycle.OrbitInjective | kernel/hash.c:75-79 | 2^k consecutive steps meet no slot twice |
| HashCycle.OrbitVisitsAll | kernel/hash.c:63-80 | 2^k consecutive steps meet every slot: the full-cycle theorem |
| HashCycle.ProbeFollowsOrbit | kernel/hash.c:75-79 | once the 32-bit perturb is shifted out, after 7 probes, the masked index of the wrapping C arithmetic follows i → 5i+1 |
| HashCycle.ProbeVisitsAll | kernel/hash.c:54-81 | every slot of a table is examined within 7 + size probes, for every hash |
| TableSpec.LookupEndsIff | kernel/hash.c:63-80 | the `while (1)` of hash_lookup ends exactly when some slot is empty or holds the key, and then within 7 + size probes |
| TableSpec.EmptySlotExists | kernel/hash.c:116-118 | fewer than size non-empty slots leave an empty one |
| TableSpec.AbsentAtEmpty | kernel/hash.c:64-66 | an empty slot met on the probe path proves the key is nowhere in the table |
| TableSpec.PathsSurvive | kernel/hash.c:204-211 | filling or burying a slot breaks no probe path to another key |
| TableSpec.StoreKeepsTable | kernel/hash.c:204-211 | storing a pair in the slot found, a tombstone or an empty slot, keeps the table consistent and the other keys where they are |
| TableSpec.FindAfterWrite | kernel/hash.c:199-211 | what every key is mapped to after one slot is written: only the key concerned changes |
| HashTable.ByteCountWrapsIff | kernel/hash.c:32 | the 32-bit byte count of a table of 2^k slots is exact up to 2^27 slots, and wraps, to zero, at 2^28 |
| HashTable.DoublingFits | kernel/hash.c:117-120 | doubling the size of a table that could be allocated never overflows a long: the test for that is never taken |
| HashTable.Hash.constructor | kernel/hash.c:138-147 | an initialised table is valid, empty and below its load bound |
| HashTable.Hash.Lookup | kernel/hash.c:54-81 | the slot of the key when it is present, else the first slot of its probe path that may take it; it terminates |
| HashTable.Hash.Initialize | kernel/hash.c:29-47 | a fresh empty table, or -1 and no change, exactly when the byte count is zero or there is no memory |
| HashTable.Hash.Store | kernel/hash.c:199-211 | writing the slot found changes the map at that key only, and keeps count and fill exact |
| HashTable.Hash.Copy | kernel/hash.c:88-105 | re-inserting the active slots in another table loses and duplicates no key, and the new table has no tombstone |
| HashTable.Hash.CopySlot | kernel/hash.c:93-104 | one step of that |
| HashTable.Hash.Update | kernel/hash.c:110-135 | resizing leaves the map as it was; the size is doubled exactly when two thirds are used up, halved exactly when a quarter or less is in use and it is above its least size, and then no tombstone is left; 3 fill < 2 size holds afterwards; -1 exactly when it must change the size and there is no memory, or the size is 2^27 slots and must double |
| HashTable.Hash.IsSet | kernel/hash.c:163-171 | agrees with the finite map |
| HashTable.Hash.GetOr | kernel/hash.c:174-185 | the value of the finite map, or the default |
| HashTable.Hash.Set | kernel/hash.c:188-214 | the finite map is updated at every key equal to the given one and nowhere else, even when the resize fails |
| HashTable.Hash.Del | kernel/hash.c:217-236 | the key and its equals leave the finite map, nothing else; a sparse table is halved, any other keeps its size |
| HashTable.Hash.Run | kernel/hash.c:188-236 | any sequence of hash_set and hash_del behaves as the finite map; no call meets a full table |
| BuddySpec.Dyadic | kernel/page_allocator.c:105-107 | two blocks aligned to their sizes are disjoint or nested |
| BuddySpec.BuddyIs | kernel/page_allocator.c:105-107 | the address with one bit flipped is the other half of the block one level up |
| BuddySpec.OpenKeeps | kernel/page_allocator.c:44-59 | a new arena as one free block keeps the invariant |
| BuddySpec.HalveKeeps | kernel/page_allocator.c:98-110 | halving a block keeps the invariant, the upper half becoming free |
| BuddySpec.MergeKeeps | kernel/page_allocator.c:127-146 | absorbing the free buddy keeps the invariant |
| BuddyOps.AllocKeeps | kernel/page_allocator.c:86-115 | free and live blocks tile the opened arenas, aligned and disjoint, with no two free buddies below the top; an allocation keeps this and returns a block that was not live |
| BuddyOps.FreeKeeps | kernel/page_allocator.c:118-155 | so does freeing a live block |
| BuddyOps.FreeUndoesAlloc | kernel/page_allocator.c:86-155 | freeing right after an allocation that opened no arena restores every list exactly; otherwise the lists before plus the new arena as one block |
| BuddyOps.FreeRegionInOneBlock | kernel/page_allocator.c:118-155 | an aligned, wholly free region lies inside one free block |
| BuddyOps.FitsIffRegion | kernel/page_allocator.c:86-96 | the scan finds a block exactly when some aligned region of the level asked for is wholly free |
| BuddyOps.AllocOutcome | kernel/page_allocator.c:86-96 | an allocation succeeds, panics, or runs off area.map, each exactly when: panic only with three arenas open and no free region; off the map exactly for a top-level request while no arena is wholly free |
| BuddyOps.OverrunIff | kernel/page_allocator.c:135-138 | freeing writes past area.map exactly when the block completes its arena and the buddy arena is listed as one free block |
| BuddyOps.OverrunNeedsTwoArenas | kernel/page_allocator.c:135-138 | which only the second and third arenas can do |
| BuddyOps.AllocTakesSmallest | kernel/page_allocator.c:86-96 | the block lies at the start of a free block of the smallest size that holds the request; a new arena is opened only when there is none |
| BuddyRuns.Play | kernel/page_allocator.c:74-155 | over every run of allocations and releases the blocks tile the opened arenas, no two free buddies below the top are left, and no byte is lost |
| BuddyRuns.Do | kernel/page_allocator.c:74-155 | one call on the words in memory changes the lists as specified, or fails as specified |
| BuddyRuns.Replay | kernel/page_allocator.c:74-155 | every run on the words in memory ends with the lists and the live blocks of the run on lists, or with the same failure |
| BuddyExamples.SecondArenaRequest | kernel/page_allocator.c:86-96 | from power-on, two requests for a whole arena run off area.map |
| BuddyExamples.ThirdArenaOverruns | kernel/page_allocator.c:135-138 | a run from power-on that opens three arenas, ends with the second free as a whole, and overruns area.map when the third is completed |
| BuddyOps.AllocBalances | kernel/page_allocator.c:86-115 | free plus live bytes equal the number of arenas times 2^26 |
| BuddyOps.FreeBalances | kernel/page_allocator.c:118-155 | so they do after a free |
| Buddy.LevelIsLeast | kernel/page_allocator.c:61-72 | the level of a request is the least whose blocks hold it |
| Buddy.Puiss2 | kernel/page_allocator.c:61-72 | the exponent of the least power of two at or above size |
| Buddy.PageAllocator.constructor | kernel/page_allocator.c:26-32 | before the first allocation the invariant holds with no arena |
| Buddy.PageAllocator.UserStore | kernel/page_allocator.c:26-32 | a process that writes its own pages damages no free list, though these are threaded through free memory |
| Buddy.PageAllocator.AllocBlock | kernel/page_allocator.c:44-59 | opens the next arena on the top list, or panics after the third |
| Buddy.PageAllocator.InitAlloc | kernel/page_allocator.c:34-42 | opens the first arena once |
| Buddy.PageAllocator.Scan | kernel/page_allocator.c:86-96 | finds the first level with a block, opening an arena on arriving at the top from below |
| Buddy.PageAllocator.CutDown | kernel/page_allocator.c:98-110 | the words written while splitting thread exactly the upper halves |
| Buddy.PageAllocator.Split | kernel/page_allocator.c:98-115 | splitting and unlinking is the allocation on lists |
| Buddy.PageAllocator.AllocPhysicalPage | kernel/page_allocator.c:74-116 | the whole call on words in memory does what the allocation on lists does, in each of its three outcomes |
| Buddy.PageAllocator.Unlink | kernel/page_allocator.c:128-134 | relinking takes exactly the buddy off its list |
| Buddy.PageAllocator.Link | kernel/page_allocator.c:152-154 | puts the merged block at the head of its list |
| Buddy.PageAllocator.Coalesce | kernel/page_allocator.c:120-151 | the search and merge loop ends with no free buddy left, or reports that it would leave area.map |
| Buddy.PageAllocator.FreePhysicalPage | kernel/page_allocator.c:118-155 | the whole call does what the free on lists does, exactly when it does not leave area.map |
| QueueSpec.InsertKeepsOrder | shared/queue.h:81-95 | insertion keeps the queue sorted by priority |
| QueueSpec.InsertStable | shared/queue.h:81-95 | the newcomer is the youngest of its priority and no order of arrival is disturbed |
| QueueSpec.RemoveStable | shared/queue.h:163-171 | removal disturbs no order of arrival |
| QueueSpec.UpdateStable | shared/queue.h:188-192 | an element re-inserted with another priority is the youngest of that priority; all others keep their order |
| QueueSpec.OutIsOldestOfHighest | shared/queue.h:137-155 | the element taken out has maximal priority and is the oldest of that priority |
| Queue.RingAdd | shared/queue.h:91-94 | the four pointer writes of queue_add put an element between two neighbours of the ring |
| Queue.RingDel | shared/queue.h:167-170 | the writes of queue_del close the ring around an element |
| Queue.OtherRingKept | shared/queue.h:81-171 | a ring without a common link is untouched |
| Queue.Links.constructor | shared/queue.h:52-53 | list heads start as empty rings |
| Queue.Links.InitHead | shared/queue.h:54 | a head becomes an empty ring; every other link is left alone |
| Queue.Links.InitLink | shared/queue.h:63 | a link becomes null; every other link is left alone |
| Queue.Links.ResetLink | shared/queue.h:67 | a link already null stays so |
| Queue.Links.Empty | shared/queue.h:115-118 | tells whether the queue is empty |
| Queue.Links.Add | shared/queue.h:81-95 | on prev and next pointers, the queue becomes the sorted insertion; other rings keep their order |
| Queue.Links.Del | shared/queue.h:163-171 | the queue loses exactly the element, whose link becomes null |
| Queue.Links.Top | shared/queue.h:121-155 | the last element of the ring, or null |
| Queue.Links.Out | shared/queue.h:137-155 | removes and returns the last element, or null |
| Queue.Links.Update | shared/queue.h:188-192 | the queue becomes removal followed by insertion with the new priority |
| KernelInv.ScheduleKeeps | kernel/task.c:397-428 | schedule keeps every task in exactly the queue its state names, and ends with a running task that no ready task outranks and no sleeper past its wake time |
| KernelInv.WakeAllKeeps | kernel/task.c:127-138 | try_wakeup_tasks leaves the queues consistent and nobody asleep past its wake time |
| KernelInv.WakeAllWakes | kernel/task.c:127-138 | it makes ready exactly the sleepers whose time has come; every other task keeps its state, every other sleeper its wake time |
| KernelInv.TopOfReady | kernel/task.c:405-406 | queue_top yields a ready task of maximal priority |
| KernelInv.UnblockKeeps | kernel/task.c:101-108 | a task taken off a message queue and made ready leaves the links consistent |
| KernelInv.BlockKeeps | kernel/task.c:28-40 | a running task that blocks enters exactly the queue of its new state |
| KernelSteps.TickKeeps | kernel/clock.c:34-43 | a clock tick keeps the invariant |
| KernelSteps.WaitClockKeeps | kernel/task.c:455-460 | wait_clock with a future time keeps the invariant and leaves no ready task above the running one; how long the caller sleeps is KernelMoves.WaitClockSleeps |
| KernelSteps.WaitClockFailsIff | kernel/task.c:455-460 | with a time already reached an assertion of queue_add fails, and only then |
| KernelSteps.WaitChildKeeps | kernel/wait.c:24-25 | the blocking step of waitpid keeps the invariant |
| KernelSteps.StartKeeps | kernel/start.c:229-244 | a new task enters the ready queue and is scheduled; the invariant is kept |
| KernelSteps.ReinsertKeeps | kernel/prio.c:18-27 | queue_update after a change of priority leaves the task in the same queue |
| KernelSteps.ChprioKeeps | kernel/prio.c:29-73 | chprio keeps the invariant, in whatever state the task is, and leaves no ready task above the running one; what it changes is KernelMoves.ChprioSets |
| KernelSteps.DeadKeeps | kernel/exit.c:36-47 | a task that dies in any state ends in the zombie queue alone |
| KernelSteps.ExitTaskKeeps | kernel/exit.c:15-50 | __exit_task changes the states of the task and of a waiting parent only |
| KernelSteps.ExitKeeps | kernel/exit.c:52-57 | exit keeps the invariant |
| KernelSteps.KillKeeps | kernel/kill.c:5-25 | kill keeps the invariant; the running task stays unrivalled exactly when it does not release a waiting parent of higher priority, for which it calls no schedule |
| KernelExamples.WaitClockPanics | kernel/task.c:455-460 | so it does in a task that boot has just started, with time zero |
| KernelExamples.KillUnsettles | kernel/kill.c:5-25 | from boot, a task waits for a child, another child kills the first, and the task is left ready above the running one |
| KernelExamples.PsendDrops | kernel/msg.c:97-136 | from boot, an empty queue with room accepts every message but -1 |
| KernelMsg.WaitersSeeExtremes | kernel/msg.c:97-189 | 0 ≤ count ≤ size; a waiting sender implies a full queue, a waiting receiver an empty one |
| KernelMsg.SenderHoldsMessage | kernel/msg.c:166-183 | a waiting sender still has its message pending, so the branches for other woken senders are never taken |
| KernelMsg.PcountReports | kernel/msg.c:220-247 | pcount reports messages plus blocked senders minus blocked receivers |
| KernelMsg.HandOffConserves | kernel/msg.c:104-110 | direct hand-off: accepted and delivered through an empty queue |
| KernelMsg.AppendConserves | kernel/msg.c:133 | buffering puts the message behind all others |
| KernelMsg.PopConserves | kernel/msg.c:182 | delivery takes the oldest message |
| KernelMsg.RefillConserves | kernel/msg.c:170-173 | delivery from a full queue takes the oldest message and accepts that of the sender released |
| KernelMsg.PsendSound | kernel/msg.c:97-136 | psend keeps the invariant and conserves messages; it accepts its message at once exactly when it is not -1 and a receiver waits or there is room; -1 is dropped |
| KernelMsg.PreceiveSound | kernel/msg.c:138-189 | preceive keeps the invariant, conserves messages, and returns the oldest message when there is one; otherwise it blocks; the message it accepts is that of the sender it releases |
| KernelMsg.ResumedSenderEnds | kernel/msg.c:112-125 | a sender that runs again was refilled and only returns |
| KernelMsg.ResumedReceiverReturns | kernel/msg.c:146-163 | a receiver that runs again returns the message handed to it, and delivers nothing twice |
| KernelMsg.ResumeSound | kernel/msg.c:97-189 | going on after a context switch keeps the invariant and conserves messages |
| KernelMsg.PcreateKeeps | kernel/msg.c:56-67 | pcreate with a count from 1 to INT16_MAX opens an empty queue under the least unused identifier; otherwise nothing changes and it returns -3 for a larger count, -2 for a smaller one, -1 when no identifier is left |
| KernelRuns.StepKeeps | kernel/task.c:28-40 | every enabled system call, tick or resumption keeps the invariant, fails no assertion, and conserves the messages of every queue |
| KernelRuns.StepKeepsPids | kernel/task.c:434-449 | live tasks keep distinct pids |
| KernelRuns.RunsAreSafe | kernel/msg.c:97-189 | over every run, in every message queue, the messages accepted are those delivered, in the same order, then those still in it |
| KernelRuns.StepSettlesIff | kernel/task.c:397-428 | after a step no ready task outranks the running one and nobody oversleeps, exactly when the step is no kill that releases a waiting parent of higher priority |
| KernelRuns.RunsStaySettledIff | kernel/task.c:397-428 | so it is at every point of a run exactly when no kill of the run releases a waiting parent that outranks the running task |
| KernelRuns.WaitingIff | kernel/msg.c:97-189 | psend and preceive have no result yet exactly when the caller still stands inside the call |
| KernelRuns.MessageAnswers | kernel/msg.c:97-189 | psend returns -1 for an unused queue and 0 once its message is dropped, buffered or handed over; preceive returns -1, or the oldest message when there is one |
| KernelRuns.HandedAnswer | kernel/msg.c:156-163 | a receiver that was handed a message returns that message |
| KernelRuns.BootIsGood | kernel/start.c:246-259 | the state with only the idle task satisfies the invariant |
| KernelRuns.DeliveredInOrder | kernel/msg.c:97-189 | in everything reachable from boot, each message accepted is delivered at most once, in acceptance order |
| KernelLookup.SearchFindsLink | kernel/msg.c:271-295 | queue_from_msg finds by pid the waiting list a task is threaded into, or null when it is in none |
| KernelLookup.StateFindsLink | kernel/task.c:194-210 | queue_from_state finds the queue a live task is threaded into |
| KernelLookup.HandOffGives | kernel/msg.c:105-109 | a hand-off leaves the message with the receiver that waited longest at the highest priority |
| KernelLookup.HandedMessageStays | kernel/msg.c:105-109 | no step of another task takes it away |
| KernelLookup.HandedMessageArrives | kernel/msg.c:156-163 | over every run, it is what preceive returns when that receiver runs again |
| KernelRotation.Cycle | kernel/task.c:397-428 | the cycle of the running task and its equals starts with the running task |
| KernelRotation.CycleDistinct | kernel/task.c:397-428 | it holds no task twice |
| KernelRotation.CycleIsTop | kernel/task.c:408-419 | every task of the cycle has the priority of the running one |
| KernelRotation.TickRotates | kernel/task.c:408-420 | one tick moves the oldest task of the running priority to the processor and the running one to the young end |
| KernelRotation.TicksRotate | kernel/task.c:397-428 | n ticks rotate by n, while nobody wakes |
| KernelRotation.EachRunsOnce | kernel/task.c:397-428 | with k tasks at the top priority, k consecutive ticks run each of them exactly once, in rotation, and restore the cycle |
| KernelMoves.ScheduleMoves | kernel/task.c:397-428 | schedule wakes exactly the sleepers whose time has come; the running task keeps the processor exactly when it can run and is above every ready task; otherwise a ready task gets it; no other state, no priority and no wake time changes |
| KernelMoves.StepMoves | kernel/task.c:28-40 | after every step, whichever it is, the state, priority and wake time of every task, the clock and the parents; and the running task goes on exactly when it can and no task above it, or no equal where the processor goes round, is ready |
| KernelMoves.NobodyOversleeps | kernel/task.c:127-138 | at the end of every run from a good state nobody is asleep past its wake time, after a kill too |
| KernelMoves.StepSleeps | kernel/task.c:127-138 | a step of others leaves a sleeper asleep with its wake time exactly until the clock has reached that time, unless it kills the sleeper |
| KernelMoves.SleepsUntil | kernel/task.c:127-138 | so it is over every run while the clock does not wrap |
| KernelMoves.WaitClockSleeps | kernel/task.c:455-460 | over every run after wait_clock(c) the caller is asleep exactly while the clock is below c, unless it is killed |
| KernelMoves.TicksUntil | kernel/task.c:455-460 | while only the clock ticks the caller sleeps with wake time c for c - clock ticks, and then is ready or runs |
| KernelMoves.ChprioSets | kernel/prio.c:29-73 | chprio of a live task returns the old priority and sets the new one, and no other; it refuses the idle task and a priority out of bounds, and then nothing changes; the task has the processor afterwards exactly when it ran and no ready task is above its new priority, or was ready and is now above the running one |
| KernelMoves.ChprioRequeues | kernel/prio.c:18-56 | a task in a queue stays in it, as the youngest of its new priority, all others in their order; no other queue changes |
| KernelMoves.KillTells | kernel/kill.c:5-25 | kill returns 0 exactly when the task dies, as every live task but the idle one does |
| KernelMoves.FirstDeadIff | kernel/exit.c:24-36 | of two dead tasks the one that died first is nearer to the top of the zombie queue exactly when the sign bit of the clock was not set between their deaths |
| KernelAges.StepInTurn | shared/queue.h:81-95 | with dates of arrival: after every step each queue is in order of priority and, within one priority, of arrival; who enters a queue is younger than all that were in one, who stays keeps its date unless chprio named it; the task that gets the processor is, of the ready tasks of highest priority, the one that has waited longest |
| KernelAges.RunsInTurn | kernel/task.c:397-428 | so it is at every point of a run from a good state |
| KernelAges.BootInTurn | kernel/task.c:397-428 | and of every run from boot |
| KernelAges.NobodyOvertakes | shared/queue.h:81-95 | of two tasks that stay in a queue the one nearer to the top stays nearer to the top, unless chprio names one of them |
| KernelAges.NewcomersWait | shared/queue.h:81-95 | a task that enters a queue comes in behind all of its priority that stay in it, a task preempted and a task that starts included |
| Messages.ThreadsAppended | kernel/msg.c:75-81 | linking a node behind the tail threads the list with the message appended |
| Messages.ThreadsPopped | kernel/msg.c:91-93 | moving head to the next node threads the list without its first message |
| Messages.NewNode | kernel/msg.c:69-84 | the two branches of __add_msg on the head, tail and count words give the list with the message appended |
| Messages.OthersKept | kernel/msg.c:69-84 | the lists of other queues are untouched |
| Messages.Boxes.constructor | kernel/msg.c:5-16 | no queue is in use |
| Messages.Boxes.IsUsed | kernel/msg.c:12-16 | tells whether an identifier is in use |
| Messages.Boxes.IsEmpty | kernel/msg.c:12-16 | count is zero exactly when no message is threaded |
| Messages.Boxes.IsFull | kernel/msg.c:12-16 | count is size exactly when as many messages are threaded |
| Messages.Boxes.Count | kernel/msg.c:239-243 | count is the number of messages |
| Messages.Boxes.Open | kernel/msg.c:28-38 | a new queue with an undefined tail threads no message |
| Messages.Boxes.Add | kernel/msg.c:69-84 | on head, tail, next and count words: the message joins the end of its list, and no other list changes |
| Messages.Boxes.Pop | kernel/msg.c:86-95 | on the words: the first message leaves its list, and no other list changes |
| KernelCode.System.constructor | kernel/start.c:246-259 | boot: on the real prev and next words, every queue is an empty ring |
| KernelCode.System.QueueAdd | shared/queue.h:81-95 | on the words, with its assertion as precondition |
| KernelCode.System.QueueDel | shared/queue.h:163-171 | on the words, with its assertion as precondition |
| KernelCode.System.QueueTop | shared/queue.h:121-155 | the task at the top of a queue, or none |
| KernelCode.System.QueueOut | shared/queue.h:137-155 | removes it |
| KernelCode.System.SetTaskState | kernel/task.c:28-40 | __set_task_state is the change of state and queue the proofs speak of; the words and fields afterwards are those of the specified state, and no assertion fails |
| KernelCode.System.SetTaskRunning | kernel/task.c:74-83 | the task leaves its queue and holds the processor; the words and fields afterwards are those of the specified state, and no assertion fails |
| KernelCode.System.TryWakeup | kernel/task.c:133-136 | one turn of the wake-up loop; the words and fields afterwards are those of the specified state, and no assertion fails |
| KernelCode.System.TryWakeupTasks | kernel/task.c:127-138 | the safe iteration, which moves the current element to another list, visits each sleeper once |
| KernelCode.System.Schedule | kernel/task.c:397-428 | schedule on the words does what the specification says, and no assertion fails |
| KernelCode.System.SetTaskReadyOrRunning | kernel/task.c:101-108 | wakes a task taken off a message queue and runs it if it outranks the running one; the words and fields afterwards are those of the specified state, and no assertion fails |
| KernelCode.System.Tick | kernel/clock.c:34-43 | a clock tick; the words and fields afterwards are those of the specified state, and no assertion fails |
| KernelCode.System.WaitClock | kernel/task.c:455-460 | wait_clock: the caller sleeps with the wake time asked for, and the processor is scheduled; the words and fields afterwards are those of the specified state, and no assertion fails |
| KernelCode.System.WaitChild | kernel/wait.c:43-46 | the blocking step of waitpid; the words and fields afterwards are those of the specified state, and no assertion fails |
| KernelCode.System.HoldsPid | kernel/msg.c:277-291 | the search of one waiting list for a pid |
| KernelCode.System.Length | kernel/msg.c:231-243 | the counting loops of pcount |
| KernelCode.System.FindMsgQueue | kernel/msg.c:271-295 | queue_from_msg over all queues |
| KernelCode.System.FindQueue | kernel/task.c:194-210 | queue_from_state |
| KernelCode.System.InitTask | kernel/start.c:229-240 | the fields and the null link of a task just allocated |
| KernelCode.System.Start | kernel/start.c:229-244 | start, for a task just allocated, which returns its pid; the words and fields afterwards are those of the specified state, and no assertion fails |
| KernelCode.System.FirstUnused | kernel/msg.c:18-26 | the least unused identifier, or -1 |
| KernelCode.System.OpenQueue | kernel/msg.c:28-38 | an empty queue with two empty waiting lists |
| KernelCode.System.Pcreate | kernel/msg.c:56-67 | pcreate, with the search for an unused identifier; it returns the identifier, or -1; the words and fields afterwards are those of the specified state, and no assertion fails |
| KernelCode.System.Pcount | kernel/msg.c:220-247 | -1 for an unused queue; else 0 and, where a place for it is given, messages plus blocked senders minus blocked receivers |
| KernelCode.System.BlockOnMsg | kernel/msg.c:114-116 | the running task is queued on a message queue and gives up the processor; the words and fields afterwards are those of the specified state, and no assertion fails |
| KernelCode.System.SendLoop | kernel/msg.c:113-135 | psend from its loop on; the words and fields afterwards are those of the specified state, and no assertion fails |
| KernelCode.System.IsEmpty | shared/queue.h:115-118 | queue_empty |
| KernelCode.System.Wake | kernel/msg.c:106-108 | a waiter is taken off, given a value and made ready; the words and fields afterwards are those of the specified state, and no assertion fails |
| KernelCode.System.Psend | kernel/msg.c:97-136 | psend does and returns what the specification says, or has yet to return; the words and fields afterwards are those of the specified state, and no assertion fails |
| KernelCode.System.PopMsg | kernel/msg.c:86-95 | __pop_msg on the lists in memory is the removal of the first message that the specification speaks of |
| KernelCode.System.AddMsg | kernel/msg.c:69-84 | __add_msg on the lists in memory is the append that the specification speaks of |
| KernelCode.System.Refill | kernel/msg.c:170-173 | the oldest message goes out and that of the sender released goes in |
| KernelCode.System.ReceiveFromQueue | kernel/msg.c:165-188 | preceive with a message in the queue; two branches for a woken sender are dead |
| KernelCode.System.ReceiveLoop | kernel/msg.c:146-188 | preceive from its loop on; the words and fields afterwards are those of the specified state, and no assertion fails |
| KernelCode.System.Preceive | kernel/msg.c:138-189 | preceive does and returns what the specification says, or has yet to return; the words and fields afterwards are those of the specified state, and no assertion fails |
| KernelCode.System.Resume | kernel/msg.c:112-163 | the rest of psend or preceive after a context switch, with its result; the words and fields afterwards are those of the specified state, and no assertion fails |
| KernelCode.System.Bury | kernel/exit.c:36-47 | __exit_task up to the release of the parent; the words and fields afterwards are those of the specified state, and no assertion fails |
| KernelCode.System.ExitTask | kernel/exit.c:15-50 | __exit_task; the words and fields afterwards are those of the specified state, and no assertion fails |
| KernelCode.System.Exit | kernel/exit.c:52-57 | exit; the words and fields afterwards are those of the specified state, and no assertion fails |
| KernelCode.System.Kill | kernel/kill.c:5-25 | kill of the task found, with its result: EINVAL for the idle task, ESRCH for a zombie; the words and fields afterwards are those of the specified state, and no assertion fails |
| KernelCode.System.QueueUpdate | shared/queue.h:188-192 | queue_update; the words and fields afterwards are those of the specified state, and no assertion fails |
| KernelCode.System.Chprio | kernel/prio.c:29-73 | chprio, with both re-insertions of a task blocked on a message queue, and its result; the words and fields afterwards are those of the specified state, and no assertion fails |
| KernelCode.System.Perform | kernel/task.c:397-428 | one step of a run on the words is the step of the specification, and returns what it returns |
| KernelCode.System.Execute | kernel/msg.c:97-189 | over every run every assertion of queue.h holds, every call returns what the specification says, and the final words represent the final specified state |
| MallocSizes.PaddedSize | shared/malloc.c:1996-2008 | the padded size is the least legal chunk size for a request; padding again nb - 7 gives nb, as sYSMALLOc relies on |
| MallocSizes.HighBitIsHighest | shared/malloc.c:2207-2215 | the branch-free code, in 32-bit arithmetic with wrap-around, finds the highest set bit of every x below 2^16 |
| MallocSizes.BinIndexMonotone | shared/malloc.c:2187-2224 | a larger chunk never has a smaller index |
| MallocSizes.BinIndexBounds | shared/malloc.c:2187-2224 | indices lie in 0..95, from 2 on for legal chunk sizes, and from 32 on exactly for large ones |
| MallocSizes.HigherBinFits | shared/malloc.c:3654-3655 | every chunk in a higher bin than that of a request is large enough for it |
| MallocSizes.NoBitsAbove | shared/malloc.c:3623-3632 | bit > map says that no bit is set from there on |
| MallocSizes.BitAbove | shared/malloc.c:3634-3639 | otherwise the search for a set bit ends inside the word |
| MallocHeap.SplitShape | shared/malloc.c:3592-3600 | splitting a chunk leaves the chunks laid end to end |
| MallocHeap.JoinShape | shared/malloc.c:3787-3804 | so does joining two neighbours |
| MallocHeap.SplitCoalesced | shared/malloc.c:2640-2643 | a split leaves no two free chunks in touch |
| MallocHeap.JoinCoalesced | shared/malloc.c:2640-2643 | so does a join |
| MallocHeap.ChunksTile | shared/malloc.c:2567-2610 | in address order the chunks tile the heap from its base to the end of top, and their sizes add up to it |
| MallocArena.ReadTag | shared/malloc.c:2036-2071 | what chunksize, prev_inuse and inuse read from a header word |
| MallocArena.UnlinkKeeps | shared/malloc.c:2148-2153 | unlink takes exactly one chunk off one bin; tags, other lists, order and user words are kept |
| MallocArena.InsertKeeps | shared/malloc.c:3559-3563 | linking a chunk into a bin at a place that keeps its order keeps all the invariants |
| MallocArena.BackKeeps | shared/malloc.c:3787-3793 | backward consolidation |
| MallocArena.ForwardKeeps | shared/malloc.c:3795-3804 | forward consolidation |
| MallocArena.ReleaseKeeps | shared/malloc.c:3806-3823 | header, footer and the in-use bit of the next chunk say what is free once the chunk is on the unsorted list |
| MallocArena.TopKeeps | shared/malloc.c:3825-3835 | a chunk that borders top becomes part of it |
| MallocArena.FastPushKeeps | shared/malloc.c:3771-3775 | a chunk pushed on a fastbin stays marked in use |
| MallocArena.FastPopKeeps | shared/malloc.c:3428-3435 | taking the first chunk off a fastbin keeps all the invariants |
| MallocArena.ExactKeeps | shared/malloc.c:3449-3457 | an exact fit taken from its bin |
| MallocArena.SplitKeeps | shared/malloc.c:3591-3601 | a chunk taken, cut, and its remainder put on the unsorted list |
| MallocArena.TopTakeKeeps | shared/malloc.c:3706-3718 | a chunk cut off top |
| MallocArena.GrowKeeps | shared/malloc.c:2918-2935 | top grows with the memory sbrk adds |
| MallocArena.MoveKeeps | shared/malloc.c:3531-3563 | an unsorted chunk goes to the bin of its size, in order |
| MallocArena.StoreKeeps | shared/malloc.c:1901-1908 | a user who writes inside a chunk, the last word included, damages no tag and no list |
| MallocArena.LastIsBest | shared/malloc.c:3606-3613 | the last chunk of the first non-empty higher bin is the smallest free chunk that fits |
| MallocArena.ScannedIsBest | shared/malloc.c:3566-3573 | the scan of the bin of a large request stops at the smallest that fits |
| MallocArena.NothingFits | shared/malloc.c:3606-3628 | with all higher bins empty and none large enough in its own, no free chunk fits |
| Malloc.Allocator.constructor | shared/malloc.c:2491-2517 | an allocator with nothing allocated is valid |
| Malloc.Allocator.Unlink | shared/malloc.c:2148-2153 | unlink on the words |
| Malloc.Allocator.JoinBack | shared/malloc.c:3787-3793 | consolidate backward, on the words |
| Malloc.Allocator.JoinForward | shared/malloc.c:3795-3804 | consolidate forward, on the words |
| Malloc.Allocator.PushUnsorted | shared/malloc.c:3806-3823 | place the chunk in the unsorted list; the boundary-tag invariant holds afterwards and no word of the user has changed |
| Malloc.Allocator.MergeTop | shared/malloc.c:3825-3835 | consolidate into top; the boundary-tag invariant holds afterwards and no word of the user has changed |
| Malloc.Allocator.Coalesce | shared/malloc.c:3784-3835 | a chunk merges with its free neighbours into a free chunk, or into top, that holds all of it; the boundary-tag invariant is kept and no user word changes |
| Malloc.Allocator.ConsolidateBin | shared/malloc.c:3941-3987 | one fastbin is emptied into the unsorted list and top |
| Malloc.Allocator.Consolidate | shared/malloc.c:3899-3989 | afterwards all fastbins are empty, no two free chunks touch, the heap ends where it ended, and the user has lost nothing |
| Malloc.Allocator.PushFast | shared/malloc.c:3771-3775 | place the chunk on a fastbin |
| Malloc.Allocator.FreeLarge | shared/malloc.c:3778-3865 | a chunk too large for a fastbin is merged, and the fastbins are emptied exactly when there are chunks in them and the merged chunk has at least 131072 bytes |
| Malloc.Allocator.Free | shared/malloc.c:3731-3882 | fREe keeps the invariant, takes exactly the chunk given away from the user, and changes no word of the others; a small chunk becomes the newest of its fastbin, any other part of a free chunk or of top, and large ones empty the fastbins |
| Malloc.Allocator.UserStore | shared/malloc.c:1901-1908 | a store of the user keeps the invariant and changes that word only |
| Malloc.Allocator.Sbrk | kernel/mem.c:16-23 | memory in one piece that never shrinks, up to the end of the heap |
| Malloc.Allocator.InitState | shared/malloc.c:2491-2517 | self-linked bins and a dummy top |
| Malloc.Allocator.CutTop | shared/malloc.c:3280-3294 | split off the chunk at the end of memory: the chunk given begins where top began; the boundary-tag invariant holds afterwards and no word of the user has changed |
| Malloc.Allocator.PlaceTop | shared/malloc.c:3206-3218 | the first top lies at the aligned address and reaches to the end of memory |
| Malloc.Allocator.FirstTop | shared/malloc.c:3133-3206 | the first top is aligned, and has at least what was asked for, or the heap is at its end |
| Malloc.Allocator.GrowTop | shared/malloc.c:2918-2935 | extend top; the boundary-tag invariant holds afterwards and no word of the user has changed |
| Malloc.Allocator.ScanLarge | shared/malloc.c:3575-3604 | the smallest chunk of the bin that fits, which is the smallest of the heap |
| Malloc.Allocator.SkipBlocks | shared/malloc.c:3625-3628 | the next word of the bin map that is not zero |
| Malloc.Allocator.NextSetBit | shared/malloc.c:3634-3639 | the next bit set; the assertion there holds |
| Malloc.Allocator.ScanBins | shared/malloc.c:3615-3655 | the smallest chunk of the heap that fits, from the bins that the bin map does not exclude, clearing false alarms |
| Malloc.Allocator.MarkWhole | shared/malloc.c:3586-3590 | a chunk taken whole |
| Malloc.Allocator.SplitOff | shared/malloc.c:3591-3601 | a chunk cut in two |
| Malloc.Allocator.TakeWhole | shared/malloc.c:3523-3527 | a chunk off its list is given out whole |
| Malloc.Allocator.TakeCut | shared/malloc.c:3591-3601 | a chunk off its list is cut and its lower part given out; the rest is the only unsorted chunk |
| Malloc.Allocator.TakeOrSplit | shared/malloc.c:3582-3601 | whole if the rest is below MINSIZE, else cut; the boundary-tag invariant holds afterwards and no word of the user has changed |
| Malloc.Allocator.PopUnsorted | shared/malloc.c:3485-3519 | the last unsorted chunk is removed |
| Malloc.Allocator.WalkBin | shared/malloc.c:3550-3554 | the first chunk of a sorted bin that is not larger |
| Malloc.Allocator.FindPlace | shared/malloc.c:3536-3557 | the place in a large bin that keeps it sorted |
| Malloc.Allocator.LinkBetween | shared/malloc.c:3560-3563 | the four writes that link the chunk |
| Malloc.Allocator.PlaceInBin | shared/malloc.c:3529-3563 | small bins at the front, large bins in order, and the bin map marked |
| Malloc.Allocator.SplitAlone | shared/malloc.c:3501-3513 | the only unsorted chunk is cut, and its remainder takes its place |
| Malloc.Allocator.SplitRemainder | shared/malloc.c:3497-3515 | the last remainder, alone in the unsorted list, is cut, and what is left of it is the last remainder, alone there again; the boundary-tag invariant holds afterwards and no word of the user has changed |
| Malloc.Allocator.Sort | shared/malloc.c:3529-3563 | a chunk off the unsorted list goes to the bin of its size, and no other bin changes |
| Malloc.Allocator.UnsortedPass | shared/malloc.c:3485-3564 | ends with the unsorted list empty, every chunk in its bin and the same chunks free, or with an exact fit, or else with the last remainder where that is the newest unsorted chunk |
| Malloc.Allocator.CutExtended | shared/malloc.c:3280-3301 | top after its extension serves the request, or memory is exhausted |
| Malloc.Allocator.SysMalloc | shared/malloc.c:2881-3301 | more memory from sbrk, with which the chunk given begins where top began, or a second search after consolidation; null only when memory is exhausted |
| Malloc.Allocator.Extend | shared/malloc.c:2881-3301 | sYSMALLOc with the fastbins empty: the chunk given begins where top began, or memory is exhausted |
| Malloc.Allocator.UseTop | shared/malloc.c:3690-3723 | top if it is large enough, or the system, where no free chunk fits; the boundary-tag invariant holds afterwards and no word of the user has changed |
| Malloc.Allocator.TakeFast | shared/malloc.c:3424-3435 | an exact fit from a fastbin; the boundary-tag invariant holds afterwards and no word of the user has changed |
| Malloc.Allocator.TakeSmall | shared/malloc.c:3445-3458 | an exact fit from a small bin, the oldest chunk there, or the bin is empty; the boundary-tag invariant holds afterwards and no word of the user has changed |
| Malloc.Allocator.TakeBinned | shared/malloc.c:3566-3688 | after the unsorted pass, the chunk taken from the bins is the smallest that fits, and none is taken only if none fits |
| Malloc.Allocator.BeforeSearch | shared/malloc.c:3445-3470 | a small request gets an exact fit from its bin, or the bin is empty and nothing changed; before a large one the fastbins are emptied |
| Malloc.Allocator.SearchAll | shared/malloc.c:3485-3723 | from the unsorted pass on, the choice stated for MallocFromBins, with the last remainder afterwards |
| Malloc.Allocator.MallocFromBins | shared/malloc.c:3445-3723 | malloc past the fastbins, in the arena that its last search sees, for a large request the one with the fastbins emptied: an exact fit if there is one; else, for a small request, the last remainder if it is the newest unsorted chunk; else the smallest free chunk that fits; and top only when none does; the boundary-tag invariant holds afterwards and no word of the user has changed |
| Malloc.Allocator.Malloc | shared/malloc.c:3378-3724 | mALLOc: null for sizes that would wrap; else a chunk that was not live, 8-aligned, of at least the padded size and less than MINSIZE more, no other live chunk and no word of one changed; it is the newest of the fastbin of its size if that is not empty, and else the one MallocFromBins chooses; or null, and then no free chunk fits, the fastbins are empty, top is too small, and sbrk refuses the pages that would make it large enough |
| Malloc.ChosenFits | shared/malloc.c:3690-3699 | that choice is an exact fit if there is one, fits whenever a free chunk does, is the smallest that fits unless it is the last remainder, for a large request always, and is top only when no free chunk fits |
| Malloc.RemainderIsNext | shared/malloc.c:3487-3515 | what is left of a chunk cut for a small request serves the next small one that it can be cut for again, unless a free chunk is an exact fit |
| MallocUser.PayloadsDisjoint | shared/malloc.c:2567-2691 | no word belongs to two live chunks |
| MallocUser.RequestIsOwned | shared/malloc.c:2698-2715 | all the bytes asked for belong to the chunk given |
| MallocUser.ByteHasOwner | shared/malloc.c:2567-2610 | every byte of the heap belongs to exactly one chunk |
| MallocUser.MemoryIsConserved | shared/malloc.c:2755-2867 | the sizes of all chunks add up to the memory that sbrk gave |
| MallocUser.FreeChunksApart | shared/malloc.c:2617-2650 | no two free chunks touch, and none touches top |
| MallocRuns.AskKeeps | shared/malloc.c:3378-3724 | what a program holds and has written survives a call of malloc |
| MallocRuns.ReleaseKeeps | shared/malloc.c:3731-3882 | and a call of free for another block |
| MallocRuns.FreeThenAsk | shared/malloc.c:3424-3435 | a small block that is freed is the one that malloc gives next for its size |
| MallocRuns.AskTwice | shared/malloc.c:3487-3493 | two small requests in a row lie side by side: when a free chunk is cut for the first and enough of it is left, the second gets what comes next, unless a chunk of just its size is free or in a fastbin |
| MallocRuns.Step | shared/malloc.c:3378-3882 | one operation of a program that uses only what it holds |
| MallocRuns.Run | shared/malloc.c:3378-3882 | over every run of malloc, free and stores, the blocks held share no byte and read as they were last written |
| PagingSpec.WalkFinds | kernel/paging.c:188-200 | the two-level walk through memory finds the recorded entry of every page, and the recorded user and write flags of its region |
| PagingSpec.WalkTranslates | kernel/gdb_serial_support.c:90-121 | and so translates every address as recorded |
| PagingSpec.EntryFields | kernel/paging.c:91 | an entry maps the frame and is present, and its bits 1 to 6, write and user among them, are those of the flags |
| PagingSpec.AccessIff | kernel/paging.c:81-91 | the processor lets the user read, or lets a page be written, exactly when the entry of the page and the first mapping of its region both have the flag |
| PagingSpec.SetEntryKeeps | kernel/paging.c:91 | writing one entry changes the translation of one page |
| PagingSpec.NewTableKeeps | kernel/paging.c:81-86 | a zeroed page put in the directory changes no translation |
| PagingSpec.UserBitIff | kernel/paging.c:188-200 | is_user_addr agrees with the processor exactly when the page is not mapped, was mapped without the user flag, or lies in a 4 MB region whose first mapping had it |
| PagingSpec.KernelTranslates | kernel/paging.c:133-152 | writes that spare the kernel's entries and tables leave every translation below 256 MB |
| PagingSpec.KernelCopied | kernel/paging.c:141-149 | a directory with the early directory's first 64 entries translates everything below 256 MB as it does |
| PagingSpec.MappedTranslates | kernel/paging.c:94-111 | page j of the zone translates to page j of the physical zone, and every other address as before |
| PagingSpec.MappedAccess | kernel/paging.c:94-111 | a page of the zone may be written, or is for the user, exactly when the flags given and those of the first mapping of its region say so; every other page allows what it allowed |
| PagingSpec.UnmappedTranslates | kernel/paging.c:113-131 | no address of the zone translates, and every other one as before |
| PagingSpec.UnmapUndoesMap | kernel/paging.c:94-131 | unmapping a zone that was free before it was mapped restores every mapping |
| Paging.AddressSpace.constructor | kernel/paging.c:133-152 | a new address space translates every address below 256 MB as the early directory does, maps nothing above, and took one page |
| Paging.AddressSpace.AllocZeroed | kernel/paging.c:83-84 | a page of zeros that no table used |
| Paging.AddressSpace.NewTable | kernel/paging.c:81-86 | the next free page becomes the page table of a region, with the flags given |
| Paging.AddressSpace.SetEntry | kernel/paging.c:88-91 | one entry of a page table changes the mapping of one page, and nothing below 256 MB |
| Paging.AddressSpace.MapPage | kernel/paging.c:72-92 | maps one page, with the frame and the flags given, and no other; the region gets a page table, taken from the free pages, with these flags exactly when it had none; panics exactly when it needs one and there is none |
| Paging.AddressSpace.MapPages | kernel/paging.c:107-110 | the loop of map_zone |
| Paging.AddressSpace.MapZone | kernel/paging.c:94-111 | maps exactly the zone, or panics when the sizes differ or pages run out; regions without a page table get one with these flags; in memory afterwards a page of the zone may be written, or is for the user, exactly when the flags and the first mapping of its region say so; no translation below 256 MB changes |
| Paging.AddressSpace.UnmapZone | kernel/paging.c:113-131 | unmaps exactly the zone; page tables and their flags stay; no translation below 256 MB changes |
| Paging.AddressSpace.IsUserAddr | kernel/paging.c:188-200 | the user bit of the recorded entry; it agrees with the processor exactly when the page is not mapped, was mapped without the user flag, or its region was first mapped with it |
| Paging.AddressSpace.Destroy | kernel/paging.c:154-167 | frees exactly the pages the address space took from the allocator, each once |
| Paging.MadeByOneMore | kernel/paging.c:94-131 | one more call of map_zone or unmap_zone: the entry of a page is that of the last call that covers it, the flags of a page table those of the first call that mapped something in its region |
| Paging.Run | kernel/paging.c:94-131 | so it is after every run, up to the first panic |
| Paging.UserAddrAfter | kernel/paging.c:188-200 | after every run, is_user_addr agrees with the processor exactly when the last call that covers the page unmapped it or did not give the user flag, or the first that mapped something in its region gave it |
| Paging.AccessAfter | kernel/paging.c:94-131 | after every run a page may be written, or is for the user, exactly when the last call that covers it mapped it with that flag and the first that mapped something in its region gave it too |
| Paging.KernelPageFirst | kernel/paging.c:188-200 | a kernel page and then a user page in the same region: is_user_addr accepts the second, which the processor denies to the user |
| GdbMemory.PhysAddrLookup | kernel/gdb_serial_support.c:90-121 | the second walker agrees with the first, with and without paging, for 4 KB and 4 MB pages, and says how far the page goes |
| GdbMemory.InjectiveWithoutPaging | kernel/gdb_serial_support.c:96-101 | without paging no two addresses of a range share a physical one |
| GdbMemory.Memcpy | kernel/gdb_serial_support.c:155 | exactly the bytes of the range, which may wrap at 2^32, become those given |
| GdbMemory.CopyIn | kernel/gdb_serial_support.c:142-162 | with and without paging, over ranges that wrap at 2^32: succeeds exactly when every address is mapped, and yields the bytes the client would read, up to the first that is not |
| GdbMemory.CopyOut | kernel/gdb_serial_support.c:164-184 | likewise: the client reads the new bytes, up to the first address that is not mapped, and no other byte changes |
| Div64.Bsr | shared/div64.c:8-16 | the position of the highest bit set |
| Div64.Divl | shared/div64.c:25-26 | the 64-by-32 divide and exactly when it fails |
| Div64.ShrdIs | shared/div64.c:18-22 | the double shift yields the two words of the shifted number |
| Div64.LeadingBounds | shared/div64.c:36-37 | the shift leaves the 32 leading bits of the divisor |
| Div64.EstimateIsClose | shared/div64.c:39-42 | the estimate is never too large and at most two too small |
| Div64.Correct | shared/div64.c:41-48 | the correction loop runs at most twice and ends with quotient and remainder |
| Div64.ShiftAll | shared/div64.c:36-38 | both shifts on registers, by 32 included |
| Div64.NoOverflow | shared/div64.c:39 | the first divide does not overflow |
| Div64.DoDiv64 | shared/div64.c:28-64 | x = q·y + r with r < y for every y but zero; a divide error exactly when y has more than 32 bits and its 32 leading bits are all ones |
| Div64.DivideByWord | shared/div64.c:49-63 | a divisor of one word: quotient and remainder, or zero and x when it is zero |
| Div64.DivideByAllOnes | shared/div64.c:28-64 | a divide error for every x divided by 2^64 - 1 |
| Div64.ShiftSubtract | user/tests/lib/math.c:109-139 | the shift-subtract division meets the same specification, for every divisor |
| Div64.Mul64 | user/tests/lib/math.c:145-177 | the product modulo 2^64 |
| Div64.ProductOfDigits | user/tests/lib/math.c:147-175 | the terms that mul64 leaves out are multiples of 2^64 |
| GdbPacket.UpToZero | kernel/gdb_serial.c:151-152 | a fragment of length zero reaches to its first zero byte |
| GdbPacket.Hex | kernel/gdb_serial.c:47-53 | the value of a hexadecimal digit, -1 for anything else |
| GdbPacket.Hex2Bin | kernel/gdb_serial.c:55-66 | succeeds exactly on hexadecimal digits, and then writes the bytes they stand for and nothing else |
| GdbPacket.HexRoundTrip | kernel/gdb_serial.c:55-66 | hex2bin of hexified bytes gives them back |
| GdbPacket.ScanRun | kernel/gdb_serial.c:173-185 | the length of a run, up to 98 characters, without reading past the fragment |
| GdbPacket.NextChars | kernel/gdb_serial.c:151-204 | one turn of the loop sends what the encoding starts with |
| GdbPacket.PutFragment | kernel/gdb_serial.c:148-206 | one fragment is sent as its encoding, and the checksum is the sum modulo 256 |
| GdbPacket.PutFrags | kernel/gdb_serial.c:133-216 | a packet is the encodings between '$' and '#' and two digits of checksum |
| GdbPacket.ExpandEncode | kernel/gdb_serial.c:173-198 | expanding the run-length encoding gives the text back, for every text without an asterisk of its own |
| GdbPacket.ExpandBody | kernel/gdb_serial.c:148-206 | so it does for all the fragments of a packet together |
| GdbPacket.HexifiedComesBack | kernel/gdb_serial.c:55-206 | expanding a hexified fragment and applying hex2bin gives back its bytes |
| GdbPacket.EncodedChars | kernel/gdb_serial.c:186-192 | a hexified fragment is sent as digits, asterisks and even counts from 32 to 126 |
| GdbPacket.SpecialIff | kernel/gdb_serial.c:186-192 | '#' or '$' appear inside an encoding exactly when the plain text holds them or a maximal run leaves a piece of one length: seven or eight plain characters modulo 98; for hexified bytes only '$', after four equal bytes of two equal digits modulo 49 |
| GdbPacket.SpecialInside | kernel/gdb_serial.c:186-192 | four zero bytes are sent as `0*$`; seven equal plain characters as c, an asterisk and the terminator |
| GdbPacket.PacketIsReadable | kernel/gdb_serial.c:142-216 | the receiver finds the end of the packet at its first '#', and its text and checksum |
| GdbPacket.HexifiedPacket | kernel/gdb_serial.c:133-216 | hexified fragments never hold the terminator |
| Numerals.ValueOfDigits | shared/doprnt.c:550-554 | the digits printed stand for the number |
| Numerals.LeadingDigit | shared/doprnt.c:550-554 | they start with zero only for zero |
| Numerals.SpanIs | shared/strtol.c:26-27 | the longest stretch of one kind is determined |
| Doprnt.LayoutLength | shared/doprnt.c:556-597 | the length printed is max(width, sign + prefix + max(digits, precision)) |
| Doprnt.LayoutAligned | shared/doprnt.c:556-597 | the padding is zeros behind sign and prefix with the zero flag, blanks on the right with the flag -, and blanks on the left otherwise |
| Doprnt.DigitsFit | shared/doprnt.c:144 | 32 digits are enough for every number of 32 bits in every base from 2 on |
| Doprnt.PutDigits | shared/doprnt.c:550-554 | the loop fills the end of the buffer with the digits and stays inside it |
| Doprnt.Put | shared/doprnt.c:566-567 | a loop that counts down puts that many characters |
| Doprnt.Arrange | shared/doprnt.c:556-597 | the parts are put in the order blanks, sign, prefix, zeros, digits, blanks |
| Doprnt.PrintNum | shared/doprnt.c:534-599 | a number is printed in the layout that flags, width and precision ask for |
| Doprnt.ReadFlags | shared/doprnt.c:212-232 | the flags in any order; a plus sign wins over a space |
| Doprnt.ReadNumber | shared/doprnt.c:239-242 | a width or a precision |
| Doprnt.ReadSpec | shared/doprnt.c:204-266 | flags, zero, width, precision, with asterisks and a negative width that turns the alignment over |
| Doprnt.PrintArgument | shared/doprnt.c:518-599 | a signed argument with its sign, an unsigned one without |
| Doprnt.Convert | shared/doprnt.c:204-599 | one integer conversion, from behind its percent sign to behind its letter, prints what NumberText.LettersReadBack reads back |
| StrTo.SignedDigits | shared/strtol.c:45-57 | the value of the digits, wrapped to a long; exact exactly when it fits one |
| StrTo.Strtol | shared/strtol.c:21-62 | the number between the position after blanks and sign and the first character that is no digit; no character past the terminator is read |
| StrTo.ChooseBase | shared/strtol.c:32-44 | the base and the prefix that is skipped |
| StrTo.Strtoul | shared/strtoul.c:21-56 | the same without a sign, modulo 2^32 |
| NumberText.SignedReadsBackIff | shared/strtol.c:28-31 | strtol reads a printed long back, for every base from 2 to 16, width, precision and flag, exactly when no '+' was printed before it or it is not positive |
| NumberText.UnsignedReadsBack | shared/strtoul.c:21-56 | strtoul in the base of the text reads a printed unsigned long back, for every base from 2 to 16, width, precision and flag |
| NumberText.LettersReadBack | shared/doprnt.c:380-517 | letter by letter, what the directive prints is read back as its argument: %d, %i by strtol in base 10, %z in base 16, %r in the radix given, unless a + stands before it; %u by strtoul in base 10, %o in base 8, %x in base 16, %n in the radix given |
| NumberText.TextLength | shared/doprnt.c:534-599 | the length printed is the width, or sign, prefix and digits or precision if that is longer |
| NumberText.LowerText | shared/doprnt.c:538-549 | no conversion prints a capital letter, %X included |
| NumberText.NumeralIsRead | shared/strtol.c:21-62 | strtol and strtoul skip white space, and strtol a minus sign, take all digits of the base, in letters of either case, and stop behind them |
| NumberText.DigitsOfAlphabet | shared/strtol.c:46-52 | letters of either case count from ten on |
| NumberText.PlusFive | shared/strtol.c:28-31 | 5 printed with %+d is read as 0 |
| NumberText.SignedReadExactIff | shared/strtol.c:45-59 | in doing so it stays inside the range of long exactly for every number but LONG_MIN |
| NumberText.AltReadsBack | shared/strtoul.c:27-39 | strtoul in base zero reads back %#x and %#o, for every width, precision and alignment |
| NumberText.DecimalReadsBackIff | shared/strtoul.c:33-39 | it reads %u back exactly when no zero was put before the digits or the number is below 8 |
| NumberText.PaddedTen | shared/strtoul.c:33-39 | 10 printed with %03u is read as 8 |
| NumberText.DirectiveIsRead | shared/doprnt.c:204-266 | a directive written out, flags in any order, zero, width, precision and letter, is read as it was meant |
| NumberText.StarsAreRead | shared/doprnt.c:234-266 | with asterisks, width and precision are the next two arguments, and a negative width turns the alignment over |
| Strings.Memcmp | shared/string.c:83-95 | zero exactly when the bytes agree, else the difference of the first two that do not |
| Strings.SkipOnMismatch | shared/string.c:250-251 | after a mismatch of the second byte, a needle that starts with two equal bytes cannot start at the next position either |
| Strings.SkipAfterMatch | shared/string.c:252-257 | after a match of it, one that starts with two different bytes cannot |
| Strings.Memmem | shared/string.c:228-266 | the leftmost occurrence of a needle, or null exactly when there is none; nothing outside the buffers is read |

## Left out

- Hash table: `hash_destroy`, null map arguments and the predefined hash functions; allocation is a parameter that may fail; `cmp` is an equivalence that agrees with `hfunc`.
- HashTable.Hash.constructor: has memory for the first table, because a constructor returns no -1; the failure itself is that of HashTable.Hash.Initialize.
- HashTable.Hash.Lookup: requires a table with an empty slot, which every initialised table of the runs has, because otherwise the source loops forever for an absent key.
- Page allocator: 64 MB arenas are integers of addresses; a block is freed with the number of pages it was obtained with.
- Buddy.PageAllocator.FreePhysicalPage: states nothing of the memory after the write behind area.map, because what lies there is not modelled.
- Scheduler: context switches, first entry into user mode, and interrupt plumbing are step boundaries; the memory of tasks is never freed.
- KernelInv.ScheduleKeeps: leaves out reap_zombies, which schedule calls after the wake-ups, because the lifetime of the memory of tasks is not modelled: zombies stay in their queue.
- KernelCode.System.Schedule: leaves out reap_zombies, for the same reason.
- KernelCode.System.WaitClock: requires a time in the future, because with any other the assertion of queue_add panics, as KernelSteps.WaitClockFailsIff says.
- KernelCode.System.Start: takes the task and the pid that the allocators return, because these are plain searches; the pid is new.
- KernelCode.System.Kill: takes the task found for the pid, because the search is a walk over all tasks; ESRCH for a pid that no task has is left out.
- KernelCode.System.Chprio: takes the task found for the pid, for the same reason.
- `waitpid`, reaping and freeing of tasks: a child may outlive its parent, whose pointer it keeps.
- `kill` and `chprio` take the task that their search by pid finds; pids of live tasks are proved distinct.
- `pdelete` and `preset`: preset rebuilds a queue with its message count as capacity, and woken waiters read the queue before the validity test; the counter of resets is shared by all queues.
- Messages.Boxes.Add: has an allocation that always succeeds, because the source does not test its result, and blocks that are never reused, because __pop_msg frees none.
- `mem_alloc` in message queues always succeeds; a null result pointer of `preceive`, which only discards the message, is not modelled.
- KernelLookup.HandedMessageArrives: is about a receiver that runs again, because a task of low priority may never run.
- malloc: realloc, memalign, the independent variants, mmap, trimming, fenceposts of non-contiguous memory and statistics; `sbrk` is contiguous and refuses to shrink.
- malloc: the heap starts at a multiple of 4 and ends below 0xF0000000; the index uses the branch-free search for the highest bit, not the i386 instruction, which this build does not select.
- Malloc.Allocator.SysMalloc: leaves out mmap, memory that others took from sbrk and the fenceposts it calls for, because sbrk here is contiguous and nobody else calls it.
- malloc: the coalescing code that free and malloc_consolidate each hold is one method.
- Paging: the part below 256 MB is shared by all address spaces and stays as the early directory has it; the page allocator is a list of frames that are free; caches of translations are not modelled.
- Paging.AddressSpace.MapPage: takes addresses from 256 MB up, because the tables below are shared with all address spaces, and flags below 0x80, because 0x80 makes a directory entry map 4 MB.
- Paging.AddressSpace.MapPages: takes such addresses and flags only, for the same reasons.
- Paging.AddressSpace.MapZone: takes such addresses and flags only, for the same reasons.
- Paging.AddressSpace.UnmapZone: takes addresses from 256 MB up, for the same reason.
- Paging.AddressSpace.IsUserAddr: takes addresses from 256 MB up, because the tables of those below are not part of an address space here.
- GdbMemory.CopyIn: has a destination buffer of its own, outside the memory it reads.
- GdbMemory.CopyOut: requires that no two addresses of the range share a physical one, as is so for all ranges without paging, and leaves out bytes of page tables, which the model keeps apart as words.
- GdbPacket.PutFrags: is one transmission of the loop that repeats until the debugger accepts, because the answer is input and repetitions are equal.
- Packets: `getpacket`, the retransmission until the debugger accepts a packet, and the commands.
- GdbPacket.ExpandBody: is about plain fragments without asterisks, because putfrags does not escape them.
- Printing: `%b`, `%c`, `%s`, `%p`, literal text and output buffering; conversions with floating point are not compiled; the truncation flag is constantly false; widths and precisions are unbounded integers.
- Doprnt.ReadNumber: does not wrap a number at 32 bits, because digits beyond that are an overflow, which the C language leaves undefined.
- Doprnt.ReadSpec: has widths and precisions of any size, for the same reason.
- Doprnt.Convert: takes the radix of `%r` and `%n` from 2 to 16, because the table of digits has 16 entries.
- StrTo.Strtol: wraps a long on overflow, which the C language leaves undefined, and says when that happens.
- `user/tests/lib/math.c` but for the two functions above, and the assembly variant of its division.
- CGA console, keyboard, shell, clock chip, serial port, GDT and IDT, real mode, FAT32, pid allocator and system call stubs: hardware plumbing or little logic.
