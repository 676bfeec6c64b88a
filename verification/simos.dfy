/** The public operations of class SimOS as pure transitions on `State`. */
module SimOS {
  import opened SimTypes
  import opened Memory
  import opened Scheduler
  import opened Disks

  /** The constructor: the OS process (pid 1) owns [0, sizeOfOS), the rest of
      the address space is one free block, no process runs yet. */
  function Init(numberOfDisks: nat, amountOfRAM: nat, sizeOfOS: nat): (st: State)
    ensures st.nextPid == FIRST_USER_PID && st.cpuPid == NO_PROCESS && st.ready == []
    ensures st.procs.Keys == {OS_PID} && st.procs[OS_PID].parentPid == NO_PROCESS
    ensures |st.disks| == numberOfDisks
    ensures forall d :: 0 <= d < numberOfDisks ==> Pending(st.disks[d]) == []
    ensures Report(st.blocks) == [MemoryItem(0, sizeOfOS, OS_PID)]
    ensures sizeOfOS <= amountOfRAM ==>
      WellFormed(st.blocks, amountOfRAM) && FreeSpace(st.blocks) == amountOfRAM - sizeOfOS
  {
    var osBlock := MemoryBlock(0, sizeOfOS, false, OS_PID);
    var blocks := [osBlock] + (if sizeOfOS < amountOfRAM then [MemoryBlock(sizeOfOS, amountOfRAM - sizeOfOS, true, NO_PROCESS)] else []);
    var os := Process(OS_PID, 0, sizeOfOS, NO_PROCESS, [], false, MemoryItem(0, sizeOfOS, OS_PID));
    var tail := blocks[1..];
    assert Report(blocks) == [ItemOf(osBlock)] + Report(tail);
    assert FreeSpace(blocks) == FreeSpace(tail);
    assert |tail| == 1 ==> FreeSpace(tail) == tail[0].size && Report(tail) == [];
    assert |tail| == 0 ==> FreeSpace(tail) == 0 && Report(tail) == [];
    State(FIRST_USER_PID, NO_PROCESS, amountOfRAM, blocks, map[OS_PID := os], [],
          seq(numberOfDisks, _ => Disk(None, [])))
  }

  /** Register `p` under the next pid, with its memory already carved out
      of `blocks`, and make it ready: the steps NewProcess and SimFork share
      before scheduling. */
  function Admit(st: State, p: Process, blocks: seq<MemoryBlock>): State {
    st.(nextPid := st.nextPid + 1, blocks := blocks, procs := st.procs[st.nextPid := p],
        ready := AddToReady(st.ready, st.nextPid))
  }

  /** List the registered process `c` as a child of `parent`. */
  function Adopt(st: State, parent: int, c: int): State
    requires parent in st.procs
  {
    st.(procs := st.procs[parent := st.procs[parent].(children := st.procs[parent].children + [c])])
  }

  /** The child SimFork registers: the occupant's priority and size, under
      the next pid, with the occupant as parent. */
  function ForkChild(st: State, a: Allocation): Process
    requires st.cpuPid in st.procs
  {
    var parent := st.procs[st.cpuPid];
    Process(st.nextPid, parent.priority, parent.memorySize, st.cpuPid, [], false, a.item)
  }

  /** SimOS::NewProcess. The pid is consumed even when allocation fails. */
  function NewProcess(st: State, size: nat, priority: int): (r: (State, bool))
    ensures r.0.nextPid == st.nextPid + 1
    ensures r.1 <==> !NoFit(st.blocks, size)
    ensures !r.1 ==> r.0 == st.(nextPid := st.nextPid + 1)
    ensures r.1 ==>
      && st.nextPid in r.0.procs
      && r.0.procs[st.nextPid].priority == priority
      && r.0.procs[st.nextPid].memorySize == size
      && r.0.procs[st.nextPid].parentPid == NO_PROCESS
      && !r.0.procs[st.nextPid].isZombie
      && r.0.disks == st.disks
  {
    var pid := st.nextPid;
    var st1 := st.(nextPid := pid + 1);
    match Allocate(st.blocks, size, pid)
    case None => (st1, false)
    case Some(a) =>
      (Schedule(Admit(st, Process(pid, priority, size, NO_PROCESS, [], false, a.item), a.blocks)), true)
  }

  /** The CPU is idle, held by the OS, or held by a registered process: the
      lookups `processes_[cpuPid_]` then find an existing record. */
  predicate CpuKnown(st: State) {
    st.cpuPid == NO_PROCESS || st.cpuPid == OS_PID || st.cpuPid in st.procs
  }

  /** SimOS::SimFork. Refused when no user process holds the CPU; the child
      copies the parent's priority and size and joins its child list. */
  function Fork(st: State): (r: (State, bool))
    requires CpuKnown(st)
    ensures st.cpuPid == NO_PROCESS || st.cpuPid == OS_PID ==> r == (st, false)
    ensures st.cpuPid != NO_PROCESS && st.cpuPid != OS_PID ==>
      && r.0.nextPid == st.nextPid + 1
      && (r.1 <==> !NoFit(st.blocks, st.procs[st.cpuPid].memorySize))
      && (!r.1 ==> r.0 == st.(nextPid := st.nextPid + 1))
  {
    if st.cpuPid == NO_PROCESS || st.cpuPid == OS_PID then (st, false)
    else
      match Allocate(st.blocks, st.procs[st.cpuPid].memorySize, st.nextPid)
      case None => (st.(nextPid := st.nextPid + 1), false)
      case Some(a) => (Schedule(Adopt(Admit(st, ForkChild(st, a), a.blocks), st.cpuPid, st.nextPid)), true)
  }

  /** `std::find` followed by `erase`: drop the first occurrence of `x`. */
  function RemoveFirst(cs: seq<int>, x: int): (r: seq<int>)
    ensures x !in cs ==> r == cs
    ensures x in cs ==> |r| == |cs| - 1
    ensures forall y :: y in r ==> y in cs
    ensures forall y :: y in cs && y != x ==> y in r
    ensures NoDup(cs) ==> NoDup(r) && x !in r
  {
    if |cs| == 0 then []
    else if cs[0] == x then
      assert NoDup(cs) ==> x !in cs[1..] && NoDup(cs[1..]) by {
        if NoDup(cs) {
          forall j | 0 <= j < |cs| - 1 ensures cs[1..][j] != x {
            assert cs[1..][j] == cs[j + 1];
          }
        }
      }
      cs[1..]
    else
      var rest := RemoveFirst(cs[1..], x);
      assert NoDup(cs) ==> cs[0] !in cs[1..] && NoDup(cs[1..]) by {
        if NoDup(cs) {
          forall j | 0 <= j < |cs| - 1 ensures cs[1..][j] != cs[0] {
            assert cs[1..][j] == cs[j + 1];
          }
        }
      }
      [cs[0]] + rest
  }

  /** Only the first occurrence goes: the entries before it and after it
      stay, in order. */
  lemma {:induction false} RemoveFirstSplit(cs: seq<int>, x: int, i: nat)
    requires i < |cs| && cs[i] == x && x !in cs[..i]
    ensures RemoveFirst(cs, x) == cs[..i] + cs[i + 1..]
    decreases i
  {
    if i == 0 {
      assert cs[..0] + cs[1..] == cs[1..];
    } else {
      assert cs[0] != x by { assert cs[0] in cs[..i]; }
      var tl := cs[1..];
      assert tl[..i - 1] == cs[1..i];
      assert x !in tl[..i - 1] by {
        assert tl[..i - 1] == cs[..i][1..];
      }
      RemoveFirstSplit(tl, x, i - 1);
      assert cs[..i] + cs[i + 1..] == [cs[0]] + (tl[..i - 1] + tl[i..]);
    }
  }

  /** The part of terminateProcessAndDescendants after the children are done
      (SimOS.c:288-311): detach `pid` from an existing parent and flag it a
      zombie, or, without an existing parent, free its memory and erase it;
      then take it off the CPU or out of the ready list. */
  function FinishTerminate(st: State, pid: int): (r: State)
    requires pid in st.procs
    ensures r.nextPid == st.nextPid && r.disks == st.disks && r.totalRam == st.totalRam
    ensures r.procs.Keys == st.procs.Keys || r.procs.Keys == st.procs.Keys - {pid}
    ensures st.cpuPid == pid ==> r.cpuPid == NO_PROCESS && r.ready == st.ready
    ensures st.cpuPid != pid ==> r.cpuPid == st.cpuPid && pid !in r.ready
  {
    var par := st.procs[pid].parentPid;
    var hasParent := par != NO_PROCESS && par in st.procs;
    var s2 := if hasParent
      then st.(procs := st.procs[par := st.procs[par].(children := RemoveFirst(st.procs[par].children, pid))])
      else st;
    var s3 := if hasParent
      then s2.(procs := s2.procs[pid := s2.procs[pid].(isZombie := true)])
      else s2.(blocks := Deallocate(s2.blocks, pid), procs := s2.procs - {pid});
    if s3.cpuPid == pid then s3.(cpuPid := NO_PROCESS) else s3.(ready := RemoveFromReady(s3.ready, pid))
  }

  /** SimOS::terminateProcessAndDescendants: children first, depth first.

      The source walks `process.children` with a range-for while the
      recursive calls erase entries from that very vector (SimOS.c:282 and
      293), which skips siblings once a list holds three or more children.
      This model walks a snapshot of the child list taken on entry, which is
      the evident intent; it does not claim the source reaches the whole
      subtree in every case.

      The walk descends only into children whose pid lies between the
      parent's pid and `nextPid`. Every child is created after its parent, so
      under the state invariant this admits every registered child; the
      bound is what makes the recursion terminate. */
  function Terminate(st: State, pid: int): (r: State)
    requires pid in st.procs
    ensures r.nextPid == st.nextPid && r.disks == st.disks && r.totalRam == st.totalRam
    ensures forall k :: k in st.procs && k < pid ==> k in r.procs
    decreases st.nextPid - pid, 1, 0
  {
    var s1 := TerminateEach(st, st.procs[pid].children, pid);
    FinishTerminate(s1, pid)
  }

  /** Terminate every registered pid of the snapshot `kids`, in order. */
  function TerminateEach(st: State, kids: seq<int>, parent: int): (r: State)
    ensures r.nextPid == st.nextPid && r.disks == st.disks && r.totalRam == st.totalRam
    ensures forall k :: k in st.procs && k <= parent ==> k in r.procs
    decreases st.nextPid - parent, 0, |kids|
  {
    if |kids| == 0 then st
    else
      var c := kids[0];
      var s1 := if c in st.procs && parent < c < st.nextPid then Terminate(st, c) else st;
      TerminateEach(s1, kids[1..], parent)
  }

  /** SimOS::SimExit. */
  function Exit(st: State): (r: State)
    requires CpuKnown(st)
    ensures st.cpuPid == NO_PROCESS || st.cpuPid == OS_PID ==> r == st
    ensures st.cpuPid != NO_PROCESS && st.cpuPid != OS_PID ==> r.nextPid == st.nextPid && r.disks == st.disks
  {
    if st.cpuPid == NO_PROCESS || st.cpuPid == OS_PID then st
    else Schedule(Terminate(st, st.cpuPid))
  }

  /** Index of the first child, from `i` on, that is a registered zombie.
      The source's `processes_[pid]` would insert a default record, whose
      zombie flag is false, for an unregistered child; that reads the same. */
  function FirstZombie(procs: map<int, Process>, cs: seq<int>, i: nat): (r: Option<nat>)
    requires i <= |cs|
    ensures r.None? ==> forall j :: i <= j < |cs| ==> !(cs[j] in procs && procs[cs[j]].isZombie)
    ensures r.Some? ==> i <= r.value < |cs| && cs[r.value] in procs && procs[cs[r.value]].isZombie
    decreases |cs| - i
  {
    if i == |cs| then None
    else if cs[i] in procs && procs[cs[i]].isZombie then Some(i)
    else FirstZombie(procs, cs, i + 1)
  }

  /** SimOS::SimWait. Reaping a zombie child erases its record and removes it
      from the child list, but frees no memory; with no zombie child the
      caller leaves the CPU without returning to the ready list. */
  function Wait(st: State): (r: State)
    requires CpuKnown(st)
    ensures st.cpuPid == NO_PROCESS || st.cpuPid == OS_PID ==> r == st
    ensures r.blocks == st.blocks && r.disks == st.disks && r.nextPid == st.nextPid
  {
    if st.cpuPid == NO_PROCESS || st.cpuPid == OS_PID then st
    else
      var proc := st.procs[st.cpuPid];
      match FirstZombie(st.procs, proc.children, 0)
      case Some(i) =>
        var z := proc.children[i];
        st.(procs := (st.procs - {z})[st.cpuPid := proc.(children := proc.children[..i] + proc.children[i + 1..])])
      case None =>
        Schedule(st.(cpuPid := NO_PROCESS))
  }

  predicate ValidDisk(st: State, diskNumber: int) {
    0 <= diskNumber < |st.disks|
  }

  /** SimOS::DiskReadRequest. Ignored for an invalid disk or when no user
      process holds the CPU; otherwise the caller's request is served or
      queued and the caller is blocked (off the CPU, not ready). */
  function DiskReadRequest(st: State, diskNumber: int, fileName: string): (r: State)
    ensures st.cpuPid == NO_PROCESS || st.cpuPid == OS_PID || !ValidDisk(st, diskNumber) ==> r == st
    ensures st.cpuPid != NO_PROCESS && st.cpuPid != OS_PID && ValidDisk(st, diskNumber) ==>
      && |r.disks| == |st.disks|
      && (IdleEmpty(st.disks[diskNumber]) ==>
            Pending(r.disks[diskNumber]) == Pending(st.disks[diskNumber]) + [FileReadRequest(st.cpuPid, fileName)])
      && (forall e :: 0 <= e < |st.disks| && e != diskNumber ==> r.disks[e] == st.disks[e])
      && r.procs == st.procs && r.blocks == st.blocks
  {
    if st.cpuPid == NO_PROCESS || st.cpuPid == OS_PID || !ValidDisk(st, diskNumber) then st
    else
      var req := FileReadRequest(st.cpuPid, fileName);
      Schedule(st.(disks := st.disks[diskNumber := Submit(st.disks[diskNumber], req)], cpuPid := NO_PROCESS))
  }

  /** SimOS::DiskJobCompleted. Ignored for an invalid or idle disk;
      otherwise the queue front is promoted, and the finished requester is
      made ready again (and the CPU rescheduled) only if it is still
      registered and not a zombie. */
  function DiskJobCompleted(st: State, diskNumber: int): (r: State)
    ensures !ValidDisk(st, diskNumber) || st.disks[diskNumber].active.None? ==> r == st
    ensures ValidDisk(st, diskNumber) && st.disks[diskNumber].active.Some? ==>
      && |r.disks| == |st.disks|
      && Pending(r.disks[diskNumber]) == Pending(st.disks[diskNumber])[1..]
      && (forall e :: 0 <= e < |st.disks| && e != diskNumber ==> r.disks[e] == st.disks[e])
      && r.procs == st.procs && r.blocks == st.blocks
  {
    if !ValidDisk(st, diskNumber) || st.disks[diskNumber].active.None? then st
    else
      var done := st.disks[diskNumber].active.value.PID;
      var st1 := st.(disks := st.disks[diskNumber := Advance(st.disks[diskNumber])]);
      if done in st.procs && !st.procs[done].isZombie then
        Schedule(st1.(ready := AddToReady(st1.ready, done)))
      else st1
  }

  // ---------------------------------------------------------------------
  // Queries

  function GetCPU(st: State): int {
    st.cpuPid
  }

  function GetReadyQueue(st: State): seq<int> {
    st.ready
  }

  /** SimOS::GetMemory: the occupied blocks in address order. */
  function GetMemory(st: State): MemoryUse {
    Report(st.blocks)
  }

  /** SimOS::GetDisk: the request in service, or the empty sentinel for an
      idle or invalid disk. */
  function GetDisk(st: State, diskNumber: int): (r: FileReadRequest)
    ensures !ValidDisk(st, diskNumber) || st.disks[diskNumber].active.None? ==> r == EMPTY_REQUEST
    ensures ValidDisk(st, diskNumber) && st.disks[diskNumber].active.Some? ==> Pending(st.disks[diskNumber]) == [r] + st.disks[diskNumber].queue
  {
    if !ValidDisk(st, diskNumber) then EMPTY_REQUEST
    else if st.disks[diskNumber].active.Some? then st.disks[diskNumber].active.value
    else EMPTY_REQUEST
  }

  /** SimOS::GetDiskQueue: the waiting requests, or none for an invalid disk. */
  function GetDiskQueue(st: State, diskNumber: int): (r: seq<FileReadRequest>)
    ensures !ValidDisk(st, diskNumber) ==> r == []
    ensures ValidDisk(st, diskNumber) ==>
      Pending(st.disks[diskNumber]) == (if st.disks[diskNumber].active.Some? then [GetDisk(st, diskNumber)] else []) + r
  {
    if !ValidDisk(st, diskNumber) then [] else st.disks[diskNumber].queue
  }
}
