# SimOS in Dafny

A model of the `SimOS` simulator, class `SimOS` in SimOS.c / SimOS.h. It
covers four parts that share one state:

- a worst-fit memory allocator over an ordered list of blocks that tile
  `[0, totalRAM)`;
- a priority-preemptive CPU scheduler over an insertion-ordered ready list;
- a process registry keyed by pid, with parent/child links, zombies and
  cascading termination;
- one FIFO read queue per disk, plus one slot for the request in service.

Every public call (`NewProcess`, `SimFork`, `SimExit`, `SimWait`,
`DiskReadRequest`, `DiskJobCompleted` and the getters) is a pure function
from one immutable `State` to the next. The state invariant `Valid` holds
after the constructor, and every public call keeps it. `Valid` states:

- the blocks tile the address space;
- no two neighbouring blocks are free, and free blocks carry `NO_PROCESS`;
- the OS process (pid 1) stays registered, and its block stays first, at
  address 0;
- the ready list has no duplicates and never holds the CPU occupant;
- whoever runs or is ready is a live user process;
- children are younger than their parent and point back to it;
- an idle disk has an empty queue, and a process waits on at most one disk
  while neither running nor ready;
- the CPU is busy whenever something is ready, and nothing ready outranks
  it.

Modules, following the source's structure:

| file | module | covers |
|---|---|---|
| types.dfy | `SimTypes` | the records and state fields of SimOS.h, `NO_PROCESS` |
| memory.dfy | `Memory` | `allocateMemory`, `deallocateMemory`, the memory report |
| memory_proofs.dfy | `MemoryProofs` | tiling, coalescing and accounting proofs |
| scheduler.dfy | `Scheduler` | `addToReadyQueue`, `removeFromReadyQueue`, `scheduleCPU` |
| disks.dfy | `Disks` | one disk's active slot and FIFO queue |
| simos.dfy | `SimOS` | constructor, public operations, `terminateProcessAndDescendants`, getters |
| invariants.dfy | `Invariants` | the state invariant and the scheduling rule |
| preservation.dfy | `Preservation` | every operation except `SimExit` keeps the invariant |
| terminate_proofs.dfy | `TerminateProofs` | cascading termination and `SimExit` |
| properties.dfy | `Properties` | observable behaviour, and the main.cpp scenario |

The model states two behaviours of the source as they are written. It
records them; it does not change them:

- **SimWait never reaps.** `terminateProcessAndDescendants` detaches a
  process from its parent's child list before it flags it a zombie
  (SimOS.c:289-299). So no child list ever holds a zombie, and the reap
  branch of `SimWait` (SimOS.c:95-98) cannot fire.
  `Preservation.WaitNeverReaps` proves this on every valid state: a
  waiting process always leaves the CPU.
- **Zombie memory is never reclaimed.** A process whose parent still exists
  becomes a zombie and keeps its block. No later operation frees that
  block: `SimWait` cannot reap it, and it would not deallocate it anyway.
  `TerminateProofs.ExitOutcome` states that, with an existing parent,
  `SimExit` changes no block at all.

`terminateProcessAndDescendants` is modelled as a walk over a snapshot of
the child list, taken on entry. The source's range-for instead runs over a
vector that the recursion erases from (see "Left out").

## Model

| member | source | states |
|---|---|---|
| Memory.WorstFitScan | SimOS.c:223-228 | the scan returns the first fitting free block of maximal size, or none exactly when no free block is large enough (against the reference predicate `IsWorstFit`) |
| Memory.WorstFit | SimOS.c:219-232 | no block is chosen if and only if no free block fits; a chosen block is the first fitting free block of maximal size |
| Memory.WorstFitUnique | SimOS.c:223-228 | at most one block meets the worst-fit definition, so the choice is determined |
| Memory.Allocate | SimOS.c:218-253 | allocation fails exactly when nothing fits; on success the chosen block keeps its start, is owned by the pid with exactly the requested size, and the list grows by one only when a remainder is split off |
| MemoryProofs.AllocateShape | SimOS.c:234-251 | blocks before the chosen one are untouched; the remainder becomes a free block right after it; the blocks after it follow unchanged |
| MemoryProofs.AllocateWellFormed | SimOS.c:234-251 | a successful allocation keeps the tiling of `[0, totalRAM)`, keeps free neighbours apart, and keeps free blocks tagged `NO_PROCESS` |
| MemoryProofs.AllocateAccounting | SimOS.c:234-251 | free space drops by exactly the requested size; the report gains exactly the new entry, at its address position |
| MemoryProofs.AllocateKeepsFirst | SimOS.c:224 | only free blocks are taken, so an occupied first block (the OS block) stays as it is |
| Memory.FindOwned | SimOS.c:256-257 | finds the first occupied block owned by the pid, or reports that none exists |
| Memory.Deallocate | SimOS.c:255-276 | a pid that owns no block leaves the block list unchanged; deallocation never adds blocks |
| MemoryProofs.MarkFreeFacts | SimOS.c:257-259 | freeing a block keeps the tiling, adds its size to free space, and drops exactly its entry from the report |
| MemoryProofs.MergeBackwardKeeps | SimOS.c:262-266 | backward merging keeps the tiling, the free space and the report |
| MemoryProofs.MergeBackwardCoalesces | SimOS.c:262-266 | after backward merging the freed block has no free predecessor |
| MemoryProofs.MergeForwardFacts | SimOS.c:268-271 | after forward merging no two neighbours are free, and tiling, free space and report are kept |
| MemoryProofs.MergeBackwardKeepsFirst | SimOS.c:262-266 | backward merging never reaches an occupied first block |
| MemoryProofs.MergeForwardKeepsFirst | SimOS.c:268-271 | forward merging from a later block never changes the first block |
| MemoryProofs.DeallocateWellFormed | SimOS.c:255-276 | deallocation keeps the tiling of `[0, totalRAM)`, keeps free neighbours apart, and keeps free blocks tagged |
| MemoryProofs.DeallocateAccounting | SimOS.c:255-276 | the owned block's size returns to free space, and exactly its entry leaves the report |
| MemoryProofs.DeallocateKeepsFirst | SimOS.c:255-276 | releasing another pid's memory leaves an occupied first block as it is |
| MemoryProofs.TilesSizeSum | SimOS.c:12-30 | blocks that tile `[lo, hi)` have sizes summing to `hi - lo` |
| MemoryProofs.ReportOrdered | SimOS.c:162-170 | the memory report of contiguous blocks is in non-decreasing address order, each entry ending at or before the next one starts (zero-size blocks can share an address) |
| MemoryProofs.ReportExact | SimOS.c:162-170 | an item is in the report if and only if some occupied block has that start, size and owner |
| Scheduler.AddToReady | SimOS.c:314-318 | the result holds exactly the old entries plus the pid; an absent pid is appended at the back; no duplicates are introduced |
| Scheduler.RemoveFromReady | SimOS.c:320-322 | the result holds exactly the old entries other than the pid; no duplicates are introduced |
| Scheduler.RemoveAbsent | SimOS.c:320-322 | removing an absent pid changes nothing |
| Scheduler.RemoveSplit | SimOS.c:320-322 | removing a pid found once keeps the other entries in order |
| Scheduler.HighestFrom | SimOS.c:199-202 | the max_element loop yields the earliest ready index of highest priority |
| Scheduler.Highest | SimOS.c:199-204 | the candidate is the earliest ready pid of highest priority (reference predicate `IsHighest`) |
| Scheduler.HighestUnique | SimOS.c:199-204 | the reference predicate picks exactly one index |
| Scheduler.Schedule | SimOS.c:192-216 | only the CPU and the ready list change; an empty ready list idles the CPU |
| Invariants.ScheduleRule | SimOS.c:192-216 | the full rule: the candidate takes the CPU exactly when it is idle or strictly outranked, leaving its place in the list, and a preempted occupant goes to the back; otherwise nothing changes |
| Invariants.ScheduleFacts | SimOS.c:192-216 | the ready list stays duplicate-free and never holds the occupant; nobody is added, and nobody is lost while something was ready |
| Invariants.ScheduleSettles | SimOS.c:192-216 | after scheduling, the CPU is busy if anything is ready, and no ready pid outranks it |
| Invariants.ScheduleStable | SimOS.c:192-216 | rescheduling changes nothing when the first scheduling left something ready or the CPU idle; a busy CPU with nothing ready is excluded (see `Properties.RescheduleIdlesLoneOccupant`) |
| Invariants.ScheduleValid | SimOS.c:192-216 | scheduling restores the full invariant after any step that left something ready or the CPU idle |
| Disks.Submit | SimOS.c:116-122 | a request to an idle disk is served at once; otherwise it waits at the back; pending requests gain exactly this one, last |
| Disks.Advance | SimOS.c:139-145 | completion drops exactly the front of the pending requests and promotes the next one |
| Disks.ServedInOrder | SimOS.c:116-145 | completing every pending job serves the requests in exactly their submission order |
| Disks.DiskPidsSubmit | SimOS.c:112-122 | the requester joins the disk's waiting pids at the back |
| Disks.DiskPidsAdvance | SimOS.c:138-145 | the completed pid is the first waiting pid, and it leaves the front |
| SimOS.Init | SimOS.c:7-31 | only the OS is registered; its block of `sizeOfOS` at address 0 is the whole report; the blocks tile the RAM with `amountOfRAM - sizeOfOS` free; every disk is idle |
| SimOS.NewProcess | SimOS.c:33-49 | a pid is consumed either way; success exactly when some free block fits; on failure nothing else changes; on success the process is registered with the given priority and size, with no parent |
| SimOS.Fork | SimOS.c:51-73 | refused without change when the CPU is idle or held by the OS; otherwise the pid is consumed, success exactly when the parent's size fits, and a failure changes nothing else |
| SimOS.RemoveFirst | SimOS.c:291-294 | an absent pid changes nothing; a present one shortens the list by one; every other entry stays; a duplicate-free list loses the pid entirely |
| SimOS.RemoveFirstSplit | SimOS.c:291-294 | find-and-erase drops exactly the first occurrence: the entries before it and after it stay, in order |
| SimOS.FinishTerminate | SimOS.c:288-311 | the process leaves the CPU or the ready list, and the registry either keeps every key or loses exactly this pid |
| SimOS.Terminate | SimOS.c:278-312 | pids older than the terminated process stay registered; the pid counter and the disks are untouched |
| SimOS.TerminateEach | SimOS.c:281-286 | processes not younger than the parent stay registered |
| SimOS.Exit | SimOS.c:75-82 | ignored when the CPU is idle or held by the OS |
| SimOS.FirstZombie | SimOS.c:92-93 | finds the first child that is a registered zombie, or reports that none is |
| SimOS.Wait | SimOS.c:84-104 | ignored when the CPU is idle or held by the OS; never changes memory, the disks or the pid counter |
| SimOS.DiskReadRequest | SimOS.c:106-127 | ignored for an invalid disk or an idle/OS CPU; otherwise the caller's request joins that disk's pending requests last, and nothing else changes on the disks, in the registry or in memory |
| SimOS.DiskJobCompleted | SimOS.c:129-152 | ignored for an invalid or idle disk; otherwise exactly the front pending request is removed, and no other disk, process or block changes |
| SimOS.GetDisk | SimOS.c:172-181 | the empty request for an invalid or idle disk; otherwise the front of the pending requests |
| SimOS.GetDiskQueue | SimOS.c:183-188 | empty for an invalid disk; otherwise exactly the pending requests after the one in service, or all of them (none, on a consistent disk) when the disk is idle |
| Preservation.InitValid | SimOS.c:7-31 | the constructor establishes the invariant when the OS fits in RAM |
| Preservation.FreshPid | SimOS.c:35 | under the invariant, the next pid is in use nowhere: not registered, not running, not ready, not listed, not waiting on a disk |
| Preservation.AdmitCore | SimOS.c:45-46 | registering a fresh process and making it ready keeps the core invariant |
| Preservation.AdoptCore | SimOS.c:69 | listing a registered child under its parent keeps the core invariant |
| Preservation.NewProcessValid | SimOS.c:33-49 | NewProcess keeps the invariant, whether or not memory is found |
| Preservation.NewProcessSomeValid | SimOS.c:41-48 | a successful NewProcess keeps the invariant |
| Preservation.VacateCore | SimOS.c:101 | taking the occupant off the CPU keeps the core invariant |
| Preservation.SubmitCore | SimOS.c:112-125 | moving the occupant from the CPU onto a disk's pending list keeps the core invariant |
| Preservation.ForkAdmitCore | SimOS.c:56-70 | registering and listing the forked child keeps the core invariant |
| Preservation.ForkSomeValid | SimOS.c:56-72 | a successful fork keeps the invariant |
| Preservation.ForkValid | SimOS.c:51-73 | SimFork keeps the invariant, and its registry lookup always finds the occupant |
| Preservation.WaitNeverReaps | SimOS.c:84-104 | on a valid state with a user process running, SimWait behaves as "vacate the CPU and reschedule"; the caller is afterwards neither running nor ready |
| Preservation.WaitValid | SimOS.c:84-104 | SimWait keeps the invariant |
| Preservation.DiskReadValid | SimOS.c:106-127 | DiskReadRequest keeps the invariant |
| Preservation.AdvanceCore | SimOS.c:138-145 | a completed requester is a user pid that is neither running nor ready, and is on no disk afterwards |
| Preservation.WakeCore | SimOS.c:148-149 | a live, blocked user process may rejoin the ready list without breaking the invariant |
| Preservation.DiskCompletedValid | SimOS.c:129-152 | DiskJobCompleted keeps the invariant |
| TerminateProofs.FinishTerminateOutcome | SimOS.c:288-311 | the process is detached from an existing parent and flagged a zombie, keeping memory; otherwise its memory is freed and its record erased; either way it is gone, and no other record changes |
| TerminateProofs.FinishTerminateCore | SimOS.c:288-311 | finishing one termination keeps the core invariant and only takes things away |
| TerminateProofs.FinishedCore | SimOS.c:288-311 | any outcome of that shape keeps the core invariant |
| TerminateProofs.FinishedRegistry | SimOS.c:289-304 | the parent/child links stay consistent after detaching or erasing one process |
| TerminateProofs.ShrinksTrans | SimOS.c:278-312 | termination steps compose: a sequence of them still only takes things away |
| TerminateProofs.ShrinksKeepsGone | SimOS.c:278-312 | a process that is gone stays gone through later termination steps |
| TerminateProofs.ListedOnlyByParent | SimOS.c:69 | under the invariant, only a process's own parent lists it as a child |
| TerminateProofs.UnregisteredGone | SimOS.c:303 | an erased pid is neither running nor ready |
| TerminateProofs.TerminateFacts | SimOS.c:278-312 | cascading termination keeps the invariant; the process and every child on its list are gone; the CPU keeps its occupant or goes idle, an occupant older than the process keeps it, and the process itself loses it; with an existing parent no block changes and the process stays as a zombie; otherwise exactly its own block is freed and its record erased |
| TerminateProofs.TerminateEachFacts | SimOS.c:281-286 | terminating the registered children in turn keeps the invariant, frees no memory, and leaves each of them gone and the parent registered |
| TerminateProofs.ScheduleKeepsGone | SimOS.c:81 | rescheduling never revives a terminated process |
| TerminateProofs.ExitValid | SimOS.c:75-82 | SimExit keeps the invariant, and its registry lookup always finds the occupant |
| TerminateProofs.ExitOutcome | SimOS.c:75-82 | after SimExit the caller and its children are gone; with an existing parent, no block changes, the caller is a zombie and is off its parent's list; without one, only the caller's block is freed and its record erased |
| Properties.LastIsHighest | SimOS.c:199-204 | a pid that strictly outranks everything before it at the back of the list is the candidate |
| Properties.ScheduleNewcomer | SimOS.c:192-216 | a pid that joined the back of a settled ready list takes the CPU exactly when it is idle or strictly outranked; otherwise nothing moves |
| Properties.NewcomerReady | SimOS.c:45-46 | admitting a process onto a valid state appends it to the back of the ready list |
| Properties.NewProcessPreemption | SimOS.c:33-49 | a new process takes the CPU exactly when it is idle or the newcomer's priority is strictly higher, and a preempted occupant goes to the back; otherwise the newcomer waits at the back |
| Properties.ForkKeepsParent | SimOS.c:51-73 | a successful fork leaves the parent on the CPU; the child waits at the back of the ready list, is last on the parent's child list, and copies the parent's priority and size |
| Properties.DiskReadBlocks | SimOS.c:106-127 | the caller leaves the CPU, is not ready, and is the last requester on that disk |
| Properties.DiskCompletedWakes | SimOS.c:129-152 | the finished requester runs or is ready exactly when it is still live; otherwise CPU and ready list are unchanged; it leaves the front of that disk's requesters |
| Properties.GetDiskSentinel | SimOS.c:172-181 | on a valid state GetDisk returns the empty request if and only if the disk is invalid or idle, since no requester has pid 0 |
| Properties.GetMemoryReport | SimOS.c:162-170 | GetMemory lists exactly the occupied blocks, as (start, size, pid), in non-decreasing address order without overlap |
| Properties.RamAccounted | SimOS.c:12-30 | on a valid state the block sizes add up to the RAM size given to the constructor |
| Properties.ZeroSizeSharesAddress | SimOS.c:223-251 | a zero-size request is granted, so a valid state's memory report can hold entries at the same address |
| Properties.RescheduleIdlesLoneOccupant | SimOS.c:192-196 | on the valid state main.cpp reaches (pid 2 running, nothing ready), rescheduling idles the CPU and pid 2 is neither running nor ready |
| Properties.DiskReadObserved | SimOS.c:112-125 | after a read request, an idle disk shows the request in service and an empty queue; a busy disk keeps its job and shows the request at the back of its queue; an idle CPU or the OS process changes neither |
| Properties.DiskCompletedObserved | SimOS.c:139-145 | after a completion, the front of the queue is in service and the rest still waits, or the disk shows the empty request and an empty queue |
| Properties.MainScenario | main.cpp:8-11 | with 2 disks, 10000 RAM and a 1000-byte OS, NewProcess(2000, 3) succeeds, pid 2 runs, nothing is ready, and memory holds [0,1000) for the OS and [1000,3000) for pid 2 |

## Left out

- `allocateMemory` inserts the remainder block (SimOS.c:243) and then writes through `worstFitIt`, which that insertion invalidated (SimOS.c:247-251). The model uses the evident index semantics: the chosen block is updated and the remainder follows it.
- `deallocateMemory`'s backward merge erases the freed block (SimOS.c:264) and then computes the new position from the erased iterator (SimOS.c:265). The model uses the evident index semantics: the freed block is absorbed into its predecessor, which becomes the current block.
- `terminateProcessAndDescendants` runs a range-for over `process.children` (SimOS.c:282) while the recursion erases from that same vector (SimOS.c:293). With three or more children this skips siblings. The model walks a snapshot of the list taken on entry, and does not claim the source reaches the whole subtree.
- SimOS.Terminate: the walk only descends into children whose pid lies between the parent's pid and `nextPid`. Under the invariant every registered child qualifies; the bound is what makes the recursion terminate.
- TerminateProofs.TerminateFacts: it states that the process and its direct children are gone afterwards, not every transitive descendant. For the CPU it states only that the occupant stays or the CPU goes idle, that an occupant older than the process stays, and that the process itself leaves; it does not state that a younger occupant outside the subtree stays.
- SimOS.Fork: `processes_[cpuPid_]` default-inserts a record for an unknown pid (SimOS.c:56). The model requires the occupant to be registered (`CpuKnown`), which the invariant guarantees (`Preservation.ForkValid`).
- SimOS.Exit: the same `processes_[pid]` lookup (SimOS.c:279) is guarded by `CpuKnown`, which the invariant guarantees (`TerminateProofs.ExitValid`).
- SimOS.Wait: the same lookup (SimOS.c:89) is guarded by `CpuKnown`, which the invariant guarantees (`Preservation.WaitValid`). The zombie search's `processes_[pid]` (SimOS.c:93) would default-insert a record for an unregistered child; the model inserts nothing and treats such a child as not a zombie. Under the invariant every listed child is registered (`ChildrenOk`), so the insertion never happens.
- `scheduleCPU` looks priorities up with `processes_.at` (SimOS.c:201), which throws for an unregistered pid, and with `processes_[...]` (SimOS.c:207), which would default-insert one. `PriorityOf` instead returns 0 for an unregistered pid. Under the invariant every pid compared there is registered, so neither the throw nor the insertion happens.
- The comment at SimOS.h:68 calls the ready queue "ordered by priority". It is not: it is insertion-ordered, and the model follows the code.
- The getters are declared non-const in SimOS.h:38-42 but defined `const`. This is a build issue with no behaviour to model.
- main.cpp's console output is not modelled; its scenario is `Properties.MainScenario`.
- `unsigned long long` sizes and addresses are `nat`, and `nextPid_` is an unbounded `int`. Overflow and wrap-around are not modelled.
- `numberOfDisks` is a `nat`; a negative count, which `std::vector::resize` would reject, is not modelled.
- Preservation.InitValid requires `sizeOfOS <= amountOfRAM`. With a larger OS the source builds a block list that overruns the RAM, and the invariant cannot hold.
- `fileName` is an opaque `string`; nothing reads it.
- Scheduler.Schedule: its own contract does not state the preemption rule; that is `Invariants.ScheduleRule`. An empty ready list with a running process would idle the CPU without re-queueing the occupant (SimOS.c:193-195). No public operation reaches that case on a valid state: every caller either adds a ready pid or vacates the CPU first.
- Invariants.ScheduleStable: rescheduling is stable only when the first scheduling left something ready or the CPU idle. With a busy CPU and nothing ready, `scheduleCPU` idles the CPU without re-queueing the occupant (SimOS.c:193-196). So scheduling is not stable under repeated rescheduling in general; `Properties.RescheduleIdlesLoneOccupant` shows such a valid state.
- SimOS.GetCPU, SimOS.GetReadyQueue and SimOS.GetMemory return state fields directly and carry no contract of their own. `Properties.GetMemoryReport` states what GetMemory returns.
- Memory.MergeBackward, Memory.MergeForward and Memory.MarkFree state only sizes in their own contracts. Their behaviour is stated in `MemoryProofs.MergeBackwardKeeps`, `MemoryProofs.MergeBackwardCoalesces`, `MemoryProofs.MergeForwardFacts` and `MemoryProofs.MarkFreeFacts`.
- Memory.Deallocate: its own contract states only the no-op case. The merge result is stated in `MemoryProofs.DeallocateWellFormed` and `MemoryProofs.DeallocateAccounting`.
- Memory ownership is not tracked as an invariant: the model does not state that each live process owns exactly one block.
- The `memory` field of a process record is set but never read by the source. The model sets it and states nothing about it.
- Locking and concurrency: the source has none, and neither does the model.
