/** Observable behaviour of the public operations on a valid state. */
module Properties {
  import opened SimTypes
  import opened Memory
  import opened MemoryProofs
  import opened Scheduler
  import opened Disks
  import opened SimOS
  import opened Invariants
  import opened Preservation

  /** A pid whose priority exceeds every other entry is the candidate when it
      is last in the ready list. */
  lemma LastIsHighest(procs: map<int, Process>, ready: seq<int>)
    requires |ready| > 0
    requires forall j :: 0 <= j < |ready| - 1 ==> PriorityOf(procs, ready[j]) < PriorityOf(procs, ready[|ready| - 1])
    ensures Highest(procs, ready) == |ready| - 1
  {
    assert IsHighest(procs, ready, |ready| - 1);
    HighestUnique(procs, ready, Highest(procs, ready), |ready| - 1);
  }

  /** Scheduling right after `x` joined the back of a settled ready list:
      `x` takes the CPU exactly when the CPU is idle or `x` strictly
      outranks the occupant, and otherwise nothing moves. */
  lemma ScheduleNewcomer(st: State, x: int)
    requires ReadyOk(st) && |st.ready| > 0 && st.ready[|st.ready| - 1] == x
    requires st.cpuPid == NO_PROCESS ==> |st.ready| == 1
    requires forall j :: 0 <= j < |st.ready| - 1 ==> PriorityOf(st.procs, st.ready[j]) <= PriorityOf(st.procs, st.cpuPid)
    ensures var before := st.ready[..|st.ready| - 1];
      if st.cpuPid == NO_PROCESS || PriorityOf(st.procs, x) > PriorityOf(st.procs, st.cpuPid) then
        && Schedule(st).cpuPid == x
        && Schedule(st).ready == before + (if st.cpuPid == NO_PROCESS then [] else [st.cpuPid])
      else Schedule(st) == st
  {
    var last := |st.ready| - 1;
    ScheduleRule(st);
    if st.cpuPid == NO_PROCESS || PriorityOf(st.procs, x) > PriorityOf(st.procs, st.cpuPid) {
      LastIsHighest(st.procs, st.ready);
      assert st.ready[..last] + st.ready[last + 1..] == st.ready[..last];
    } else {
      var k := Highest(st.procs, st.ready);
      assert PriorityOf(st.procs, st.ready[k]) <= PriorityOf(st.procs, st.cpuPid);
    }
  }

  /** Admitting a process onto a valid state leaves a ready list fit for
      ScheduleNewcomer. */
  lemma NewcomerReady(st: State, p: Process, blocks: seq<MemoryBlock>)
    requires Valid(st)
    ensures var mid := Admit(st, p, blocks);
      && ReadyOk(mid) && mid.ready == st.ready + [st.nextPid]
      && mid.ready[..|mid.ready| - 1] == st.ready
      && (mid.cpuPid == NO_PROCESS ==> |mid.ready| == 1)
      && (forall j :: 0 <= j < |mid.ready| - 1 ==> PriorityOf(mid.procs, mid.ready[j]) <= PriorityOf(mid.procs, mid.cpuPid))
  {
    var mid := Admit(st, p, blocks);
    FreshPid(st);
    assert mid.ready == st.ready + [st.nextPid];
    assert mid.ready[..|mid.ready| - 1] == st.ready;
    forall j | 0 <= j < |mid.ready| - 1 ensures PriorityOf(mid.procs, mid.ready[j]) <= PriorityOf(mid.procs, mid.cpuPid) {
      assert mid.ready[j] == st.ready[j] && st.ready[j] in st.ready;
    }
  }

  /** A successful NewProcess admits the process and schedules. */
  lemma NewProcessAdmits(st: State, size: nat, priority: int)
    requires Allocate(st.blocks, size, st.nextPid).Some?
    ensures var a := Allocate(st.blocks, size, st.nextPid).value;
      var p := Process(st.nextPid, priority, size, NO_PROCESS, [], false, a.item);
      NewProcess(st, size, priority).0 == Schedule(Admit(st, p, a.blocks))
  {
  }

  /** Preemption on creation: a new process takes the CPU exactly when the CPU
      is idle or its priority is strictly higher than the occupant's; a
      preempted occupant goes to the back of the ready list. Otherwise the
      newcomer waits at the back. */
  lemma NewProcessPreemption(st: State, size: nat, priority: int)
    requires Valid(st) && !NoFit(st.blocks, size)
    ensures var r := NewProcess(st, size, priority).0;
      var pid := st.nextPid;
      if st.cpuPid == NO_PROCESS || priority > PriorityOf(st.procs, st.cpuPid) then
        && r.cpuPid == pid
        && r.ready == st.ready + (if st.cpuPid == NO_PROCESS then [] else [st.cpuPid])
      else
        r.cpuPid == st.cpuPid && r.ready == st.ready + [pid]
  {
    var pid := st.nextPid;
    var a := Allocate(st.blocks, size, pid).value;
    var p := Process(pid, priority, size, NO_PROCESS, [], false, a.item);
    var mid := Admit(st, p, a.blocks);
    NewProcessAdmits(st, size, priority);
    NewcomerReady(st, p, a.blocks);
    assert PriorityOf(mid.procs, pid) == priority;
    assert PriorityOf(mid.procs, st.cpuPid) == PriorityOf(st.procs, st.cpuPid);
    ScheduleNewcomer(mid, pid);
  }

  /** A forked child shares its parent's priority, so it never preempts the
      parent: the parent keeps the CPU, the child waits at the back of the
      ready list, is listed last among the parent's children, and copies the
      parent's priority and memory size. */
  lemma ForkKeepsParent(st: State)
    requires Valid(st) && st.cpuPid != NO_PROCESS && st.cpuPid != OS_PID
    requires !NoFit(st.blocks, st.procs[st.cpuPid].memorySize)
    ensures var r := Fork(st);
      var cpu := st.cpuPid;
      var pid := st.nextPid;
      && r.1
      && r.0.cpuPid == cpu
      && r.0.ready == st.ready + [pid]
      && r.0.procs[cpu].children == st.procs[cpu].children + [pid]
      && pid in r.0.procs
      && r.0.procs[pid].parentPid == cpu
      && r.0.procs[pid].priority == st.procs[cpu].priority
      && r.0.procs[pid].memorySize == st.procs[cpu].memorySize
  {
    var cpu := st.cpuPid;
    var parent := st.procs[cpu];
    var pid := st.nextPid;
    var a := Allocate(st.blocks, parent.memorySize, pid).value;
    var child := Process(pid, parent.priority, parent.memorySize, cpu, [], false, a.item);
    var s1 := Admit(st, child, a.blocks);
    var mid := Adopt(s1, cpu, pid);
    FreshPid(st);
    assert Fork(st).0 == Schedule(mid);
    assert mid.ready == st.ready + [pid];
    assert mid.ready[..|mid.ready| - 1] == st.ready;
    forall j | 0 <= j < |mid.ready| - 1 ensures PriorityOf(mid.procs, mid.ready[j]) <= PriorityOf(mid.procs, cpu) {
      assert mid.ready[j] == st.ready[j] && st.ready[j] in st.ready;
    }
    assert PriorityOf(mid.procs, pid) == PriorityOf(mid.procs, cpu);
    ScheduleNewcomer(mid, pid);
  }

  /** A disk read blocks the caller: it leaves the CPU, is not ready, and is
      the last requester on that disk. */
  lemma DiskReadBlocks(st: State, diskNumber: int, fileName: string)
    requires Valid(st) && st.cpuPid != NO_PROCESS && st.cpuPid != OS_PID && ValidDisk(st, diskNumber)
    ensures var r := DiskReadRequest(st, diskNumber, fileName);
      && r.cpuPid != st.cpuPid && st.cpuPid !in r.ready
      && DiskPids(r.disks[diskNumber]) == DiskPids(st.disks[diskNumber]) + [st.cpuPid]
  {
    var req := FileReadRequest(st.cpuPid, fileName);
    var mid := st.(disks := st.disks[diskNumber := Submit(st.disks[diskNumber], req)], cpuPid := NO_PROCESS);
    DiskPidsSubmit(st.disks[diskNumber], req);
    ScheduleFacts(mid);
  }

  /** A completed job re-readies its requester exactly when the requester is
      still a live process; otherwise the requester neither runs nor is
      ready, and neither the CPU nor the ready list changes. */
  lemma DiskCompletedWakes(st: State, diskNumber: int)
    requires Valid(st) && ValidDisk(st, diskNumber) && st.disks[diskNumber].active.Some?
    ensures var done := st.disks[diskNumber].active.value.PID;
      var r := DiskJobCompleted(st, diskNumber);
      && (Live(st, done) ==> done == r.cpuPid || done in r.ready)
      && (!Live(st, done) ==> r.cpuPid == st.cpuPid && r.ready == st.ready && done != r.cpuPid && done !in r.ready)
      && DiskPids(r.disks[diskNumber]) == DiskPids(st.disks[diskNumber])[1..]
  {
    var done := st.disks[diskNumber].active.value.PID;
    var st1 := st.(disks := st.disks[diskNumber := Advance(st.disks[diskNumber])]);
    DiskPidsAdvance(st.disks[diskNumber]);
    AdvanceCore(st, diskNumber);
    if Live(st, done) {
      ScheduleFacts(st1.(ready := AddToReady(st1.ready, done)));
    }
  }

  /** GetDisk's empty sentinel is unambiguous: on a valid state it is
      returned exactly for an invalid or idle disk, since no requester has
      pid 0. */
  lemma GetDiskSentinel(st: State, diskNumber: int)
    requires Valid(st)
    ensures GetDisk(st, diskNumber) == EMPTY_REQUEST <==>
      !ValidDisk(st, diskNumber) || st.disks[diskNumber].active.None?
  {
    if ValidDisk(st, diskNumber) && st.disks[diskNumber].active.Some? {
      DiskPidsAdvance(st.disks[diskNumber]);
      assert Blocked(st, DiskPids(st.disks[diskNumber]));
      assert GetDisk(st, diskNumber).PID in DiskPids(st.disks[diskNumber]);
    }
  }

  /** GetMemory on a valid state: exactly the occupied blocks, as
      (start, size, pid), in non-decreasing address order without overlap.
      Zero-size blocks make equal addresses possible. */
  lemma GetMemoryReport(st: State, item: MemoryItem)
    requires Valid(st)
    ensures AddressOrdered(GetMemory(st))
    ensures item in GetMemory(st) <==> exists j :: 0 <= j < |st.blocks| && !st.blocks[j].isFree && ItemOf(st.blocks[j]) == item
  {
    ReportOrdered(st.blocks);
    ReportExact(st.blocks, item);
  }

  /** The block sizes of a valid state add up to the RAM size. */
  lemma RamAccounted(st: State)
    requires Valid(st)
    ensures SizeSum(st.blocks) == st.totalRam
  {
    TilesSizeSum(st.blocks, 0, st.totalRam);
  }

  /** A zero-size request is granted, so on a valid state two report
      entries can share an address: two empty processes after the OS block
      of main.cpp's setup. */
  lemma ZeroSizeSharesAddress()
    ensures var st := NewProcess(NewProcess(Init(1, 10000, 1000), 0, 1).0, 0, 1).0;
      && Valid(st)
      && GetMemory(st) == [MemoryItem(0, 1000, OS_PID), MemoryItem(1000, 0, 2), MemoryItem(1000, 0, 3)]
  {
    var s0 := Init(1, 10000, 1000);
    var b0 := [MemoryBlock(0, 1000, false, OS_PID), MemoryBlock(1000, 9000, true, NO_PROCESS)];
    var b1 := [MemoryBlock(0, 1000, false, OS_PID), MemoryBlock(1000, 0, false, 2), MemoryBlock(1000, 9000, true, NO_PROCESS)];
    var b2 := [MemoryBlock(0, 1000, false, OS_PID), MemoryBlock(1000, 0, false, 2), MemoryBlock(1000, 0, false, 3), MemoryBlock(1000, 9000, true, NO_PROCESS)];
    assert Valid(s0) && s0.blocks == b0 && s0.nextPid == 2 by {
      InitValid(1, 10000, 1000);
    }
    ZeroFirst();
    var s1 := NewProcess(s0, 0, 1).0;
    NewProcessStep(s0, 0, 1);
    ZeroSecond();
    NewProcessStep(s1, 0, 1);
    ZeroReport();
  }

  /** One successful NewProcess from a valid state, by its block list. */
  lemma NewProcessStep(st: State, size: nat, priority: int)
    requires Valid(st) && Allocate(st.blocks, size, st.nextPid).Some?
    ensures var r := NewProcess(st, size, priority).0;
      && Valid(r) && r.nextPid == st.nextPid + 1
      && r.blocks == Allocate(st.blocks, size, st.nextPid).value.blocks
  {
    NewProcessValid(st, size, priority);
    NewProcessAdmits(st, size, priority);
  }

  lemma ZeroFirst()
    ensures var bs := [MemoryBlock(0, 1000, false, OS_PID), MemoryBlock(1000, 9000, true, NO_PROCESS)];
      Allocate(bs, 0, 2).Some? &&
      Allocate(bs, 0, 2).value.blocks == [MemoryBlock(0, 1000, false, OS_PID), MemoryBlock(1000, 0, false, 2), MemoryBlock(1000, 9000, true, NO_PROCESS)]
  {
    var bs := [MemoryBlock(0, 1000, false, OS_PID), MemoryBlock(1000, 9000, true, NO_PROCESS)];
    assert Fits(bs[1], 0) && IsWorstFit(bs, 0, 1);
    WorstFitUnique(bs, 0, WorstFit(bs, 0).value, 1);
  }

  lemma ZeroSecond()
    ensures var bs := [MemoryBlock(0, 1000, false, OS_PID), MemoryBlock(1000, 0, false, 2), MemoryBlock(1000, 9000, true, NO_PROCESS)];
      Allocate(bs, 0, 3).Some? &&
      Allocate(bs, 0, 3).value.blocks == [MemoryBlock(0, 1000, false, OS_PID), MemoryBlock(1000, 0, false, 2), MemoryBlock(1000, 0, false, 3), MemoryBlock(1000, 9000, true, NO_PROCESS)]
  {
    var bs := [MemoryBlock(0, 1000, false, OS_PID), MemoryBlock(1000, 0, false, 2), MemoryBlock(1000, 9000, true, NO_PROCESS)];
    assert Fits(bs[2], 0) && IsWorstFit(bs, 0, 2);
    WorstFitUnique(bs, 0, WorstFit(bs, 0).value, 2);
  }

  lemma ZeroReport()
    ensures Report([MemoryBlock(0, 1000, false, OS_PID), MemoryBlock(1000, 0, false, 2), MemoryBlock(1000, 0, false, 3), MemoryBlock(1000, 9000, true, NO_PROCESS)])
      == [MemoryItem(0, 1000, OS_PID), MemoryItem(1000, 0, 2), MemoryItem(1000, 0, 3)]
  {
    var bs := [MemoryBlock(0, 1000, false, OS_PID), MemoryBlock(1000, 0, false, 2), MemoryBlock(1000, 0, false, 3), MemoryBlock(1000, 9000, true, NO_PROCESS)];
    assert Report(bs[3..]) == [];
    assert Report(bs[2..]) == [MemoryItem(1000, 0, 3)] + Report(bs[3..]);
    assert Report(bs[1..]) == [MemoryItem(1000, 0, 2)] + Report(bs[2..]);
  }

  /** Scheduling is not stable in general: on the valid state main.cpp
      reaches, with pid 2 running and nothing ready, rescheduling idles the
      CPU and pid 2 is neither running nor ready. */
  lemma RescheduleIdlesLoneOccupant()
    ensures var r := NewProcess(Init(2, 10000, 1000), 2000, 3).0;
      && Valid(r) && r.cpuPid == 2 && r.ready == []
      && Schedule(r).cpuPid == NO_PROCESS && Schedule(r).ready == []
  {
    var st := Init(2, 10000, 1000);
    InitValid(2, 10000, 1000);
    NewProcessValid(st, 2000, 3);
    MainScenario();
  }

  /** What GetDisk and GetDiskQueue show after a read request: an idle disk
      serves it at once with an empty queue; a busy disk keeps its job in
      service and queues the request at the back. An idle CPU or the OS
      process leaves both unchanged. */
  lemma DiskReadObserved(st: State, diskNumber: int, fileName: string)
    requires ValidDisk(st, diskNumber) && IdleEmpty(st.disks[diskNumber])
    ensures var r := DiskReadRequest(st, diskNumber, fileName);
      var req := FileReadRequest(st.cpuPid, fileName);
      if st.cpuPid == NO_PROCESS || st.cpuPid == OS_PID then
        GetDisk(r, diskNumber) == GetDisk(st, diskNumber) && GetDiskQueue(r, diskNumber) == GetDiskQueue(st, diskNumber)
      else if st.disks[diskNumber].active.None? then
        GetDisk(r, diskNumber) == req && GetDiskQueue(r, diskNumber) == []
      else
        GetDisk(r, diskNumber) == GetDisk(st, diskNumber) && GetDiskQueue(r, diskNumber) == GetDiskQueue(st, diskNumber) + [req]
  {
    if st.cpuPid != NO_PROCESS && st.cpuPid != OS_PID {
      var req := FileReadRequest(st.cpuPid, fileName);
      var d := Submit(st.disks[diskNumber], req);
      assert DiskReadRequest(st, diskNumber, fileName).disks[diskNumber] == d;
    }
  }

  /** What GetDisk and GetDiskQueue show after a completion: the front of
      the queue moves into service, or the disk goes idle when nothing
      waits. */
  lemma DiskCompletedObserved(st: State, diskNumber: int)
    requires ValidDisk(st, diskNumber) && st.disks[diskNumber].active.Some?
    ensures var r := DiskJobCompleted(st, diskNumber);
      var q := GetDiskQueue(st, diskNumber);
      if |q| > 0 then GetDisk(r, diskNumber) == q[0] && GetDiskQueue(r, diskNumber) == q[1..]
      else GetDisk(r, diskNumber) == EMPTY_REQUEST && GetDiskQueue(r, diskNumber) == []
  {
    var d := Advance(st.disks[diskNumber]);
    assert DiskJobCompleted(st, diskNumber).disks[diskNumber] == d;
  }

  /** The demonstration in main.cpp: two disks, 10000 bytes of RAM of which
      the OS takes 1000; a process of size 2000 and priority 3 is created and
      runs at once, holding [1000, 3000). */
  lemma MainScenario()
    ensures var st := Init(2, 10000, 1000);
      var r := NewProcess(st, 2000, 3);
      && r.1
      && GetCPU(r.0) == 2
      && GetReadyQueue(r.0) == []
      && GetMemory(r.0) == [MemoryItem(0, 1000, OS_PID), MemoryItem(1000, 2000, 2)]
  {
    var st := Init(2, 10000, 1000);
    assert st.blocks == [MemoryBlock(0, 1000, false, OS_PID), MemoryBlock(1000, 9000, true, NO_PROCESS)];
    assert WorstFit(st.blocks, 2000) == Some(1);
    var a := Allocate(st.blocks, 2000, 2).value;
    assert a.blocks == [MemoryBlock(0, 1000, false, OS_PID), MemoryBlock(1000, 2000, false, 2), MemoryBlock(3000, 7000, true, NO_PROCESS)];
    var r := NewProcess(st, 2000, 3);
    assert r.0.blocks == a.blocks;
    assert r.0.ready == RemoveFromReady([2], 2);
    assert Report(a.blocks) == [MemoryItem(0, 1000, OS_PID)] + Report(a.blocks[1..]);
    assert Report(a.blocks[1..]) == [MemoryItem(1000, 2000, 2)] + Report(a.blocks[2..]);
  }
}
