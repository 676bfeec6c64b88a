/** Every public operation except SimExit keeps the state invariant
    (SimExit is in TerminateProofs). */
module Preservation {
  import opened SimTypes
  import opened Memory
  import opened MemoryProofs
  import opened Scheduler
  import opened Disks
  import opened SimOS
  import opened Invariants

  /** The constructor establishes the invariant whenever the OS fits in RAM. */
  lemma InitValid(numberOfDisks: nat, amountOfRAM: nat, sizeOfOS: nat)
    requires sizeOfOS <= amountOfRAM
    ensures Valid(Init(numberOfDisks, amountOfRAM, sizeOfOS))
  {
    var st := Init(numberOfDisks, amountOfRAM, sizeOfOS);
    forall d | 0 <= d < |st.disks| ensures IdleEmpty(st.disks[d]) && DiskPids(st.disks[d]) == [] {
      assert Pending(st.disks[d]) == [];
    }
  }

  /** Bumping `nextPid` alone keeps the invariant. */
  lemma BumpValid(st: State)
    requires Valid(st)
    ensures Valid(st.(nextPid := st.nextPid + 1))
  {
  }

  /** A fresh pid is in use nowhere. */
  lemma FreshPid(st: State)
    requires Core(st)
    ensures st.nextPid !in st.procs && st.nextPid != st.cpuPid && st.nextPid !in st.ready
    ensures forall p :: p in st.procs ==> st.nextPid !in st.procs[p].children
    ensures forall d :: 0 <= d < |st.disks| ==> st.nextPid !in DiskPids(st.disks[d])
  {
  }

  lemma AdmitCore(st: State, p: Process, blocks: seq<MemoryBlock>)
    requires Core(st) && WellFormed(blocks, st.totalRam) && |blocks| > 0 && blocks[0] == st.blocks[0]
    requires p.parentPid < st.nextPid && p.children == [] && !p.isZombie
    ensures Core(Admit(st, p, blocks))
  {
    var r := Admit(st, p, blocks);
    FreshPid(st);
    assert ReadyOk(r);
    assert RunnableLive(r);
    assert RegistryOk(r);
    forall d | 0 <= d < |r.disks| ensures Blocked(r, DiskPids(r.disks[d])) {
      assert Blocked(st, DiskPids(st.disks[d]));
    }
  }

  lemma AdoptCore(st: State, parent: int, c: int)
    requires Core(st) && parent in st.procs && c in st.procs
    requires parent < c && st.procs[c].parentPid == parent && !st.procs[c].isZombie
    requires c !in st.procs[parent].children
    ensures Core(Adopt(st, parent, c))
  {
    var r := Adopt(st, parent, c);
    assert forall p :: p in r.procs <==> p in st.procs;
    assert forall p :: p in r.procs ==> r.procs[p].parentPid == st.procs[p].parentPid && r.procs[p].isZombie == st.procs[p].isZombie;
    assert RunnableLive(r);
    assert RegistryOk(r) by {
      AdoptRegistry(st, parent, c);
    }
    forall d | 0 <= d < |r.disks| ensures Blocked(r, DiskPids(r.disks[d])) {
      assert Blocked(st, DiskPids(st.disks[d]));
    }
  }

  lemma AdoptRegistry(st: State, parent: int, c: int)
    requires RegistryOk(st) && parent in st.procs && c in st.procs
    requires parent < c && st.procs[c].parentPid == parent && !st.procs[c].isZombie
    requires c !in st.procs[parent].children
    ensures RegistryOk(Adopt(st, parent, c))
  {
    var r := Adopt(st, parent, c);
    var cs := st.procs[parent].children;
    assert NoDup(cs + [c]);
    forall q | q in r.procs
      ensures NoDup(r.procs[q].children) && ChildrenOk(r, q, r.procs[q].children)
    {
      assert NoDup(st.procs[q].children) && ChildrenOk(st, q, st.procs[q].children);
      forall x | x in r.procs[q].children
        ensures q < x && x in r.procs && r.procs[x].parentPid == q && !r.procs[x].isZombie
      {
        if q == parent {
          assert x in cs || x == c;
        } else {
          assert r.procs[q] == st.procs[q];
        }
        assert r.procs[x].parentPid == st.procs[x].parentPid && r.procs[x].isZombie == st.procs[x].isZombie;
      }
    }
  }

  /** SimOS::NewProcess keeps the invariant, whether or not memory is found. */
  lemma NewProcessValid(st: State, size: nat, priority: int)
    requires Valid(st)
    ensures Valid(NewProcess(st, size, priority).0)
  {
    if NoFit(st.blocks, size) {
      assert NewProcess(st, size, priority).0 == st.(nextPid := st.nextPid + 1);
      BumpValid(st);
    } else {
      NewProcessSomeValid(st, size, priority, Allocate(st.blocks, size, st.nextPid).value);
    }
  }

  /** A successful NewProcess is a scheduling step after the process is
      admitted. */
  lemma NewProcessSomeValid(st: State, size: nat, priority: int, a: Allocation)
    requires Valid(st) && Allocate(st.blocks, size, st.nextPid) == Some(a)
    ensures Valid(NewProcess(st, size, priority).0)
  {
    var pid := st.nextPid;
    AllocateWellFormed(st.blocks, st.totalRam, size, pid);
    AllocateKeepsFirst(st.blocks, size, pid);
    var p := Process(pid, priority, size, NO_PROCESS, [], false, a.item);
    AdmitCore(st, p, a.blocks);
    assert NewProcess(st, size, priority).0 == Schedule(Admit(st, p, a.blocks));
    ScheduleValid(Admit(st, p, a.blocks));
  }

  /** Registering and listing the forked child keeps the core invariant. */
  lemma ForkAdmitCore(st: State, a: Allocation)
    requires Valid(st) && st.cpuPid != NO_PROCESS && st.cpuPid != OS_PID
    requires Allocate(st.blocks, st.procs[st.cpuPid].memorySize, st.nextPid) == Some(a)
    ensures st.cpuPid in Admit(st, ForkChild(st, a), a.blocks).procs
    ensures Core(Adopt(Admit(st, ForkChild(st, a), a.blocks), st.cpuPid, st.nextPid))
  {
    var cpu := st.cpuPid;
    var pid := st.nextPid;
    var size := st.procs[cpu].memorySize;
    FreshPid(st);
    AllocateWellFormed(st.blocks, st.totalRam, size, pid);
    AllocateKeepsFirst(st.blocks, size, pid);
    var s1 := Admit(st, ForkChild(st, a), a.blocks);
    AdmitCore(st, ForkChild(st, a), a.blocks);
    AdoptCore(s1, cpu, pid);
  }

  /** A successful SimFork is a scheduling step after the child is admitted
      and listed. */
  lemma ForkSomeValid(st: State, a: Allocation)
    requires Valid(st) && st.cpuPid != NO_PROCESS && st.cpuPid != OS_PID
    requires Allocate(st.blocks, st.procs[st.cpuPid].memorySize, st.nextPid) == Some(a)
    ensures Valid(Fork(st).0)
  {
    ForkAdmitCore(st, a);
    var mid := Adopt(Admit(st, ForkChild(st, a), a.blocks), st.cpuPid, st.nextPid);
    assert Fork(st).0 == Schedule(mid);
    ScheduleValid(mid);
  }

  /** SimOS::SimFork keeps the invariant: the child is registered, listed
      under its parent, and made ready. */
  lemma ForkValid(st: State)
    requires Valid(st)
    ensures CpuKnown(st) && Valid(Fork(st).0)
  {
    if st.cpuPid != NO_PROCESS && st.cpuPid != OS_PID {
      var size := st.procs[st.cpuPid].memorySize;
      if NoFit(st.blocks, size) {
        assert Fork(st).0 == st.(nextPid := st.nextPid + 1);
        BumpValid(st);
      } else {
        ForkSomeValid(st, Allocate(st.blocks, size, st.nextPid).value);
      }
    }
  }

  /** Under the invariant no child is ever a zombie, so SimWait's reaping
      branch is dead: a waiting process always leaves the CPU, does not
      return to the ready list, and the CPU is rescheduled. */
  lemma WaitNeverReaps(st: State)
    requires Valid(st)
    requires st.cpuPid != NO_PROCESS && st.cpuPid != OS_PID
    ensures CpuKnown(st)
    ensures Wait(st) == Schedule(st.(cpuPid := NO_PROCESS))
    ensures Wait(st).cpuPid != st.cpuPid && st.cpuPid !in Wait(st).ready
  {
    var proc := st.procs[st.cpuPid];
    var z := FirstZombie(st.procs, proc.children, 0);
    assert ChildrenOk(st, st.cpuPid, proc.children);
    forall j | 0 <= j < |proc.children|
      ensures proc.children[j] in st.procs && !st.procs[proc.children[j]].isZombie
    {
      assert proc.children[j] in proc.children;
    }
    if z.Some? {
      assert false;
    }
    ScheduleFacts(st.(cpuPid := NO_PROCESS));
  }

  /** SimOS::SimWait keeps the invariant. */
  lemma WaitValid(st: State)
    requires Valid(st)
    ensures CpuKnown(st) && Valid(Wait(st))
  {
    if st.cpuPid != NO_PROCESS && st.cpuPid != OS_PID {
      WaitNeverReaps(st);
      VacateCore(st);
      ScheduleValid(st.(cpuPid := NO_PROCESS));
    }
  }

  /** SimOS::DiskReadRequest keeps the invariant: the caller moves from the
      CPU to the disk's pending list. */
  lemma DiskReadValid(st: State, diskNumber: int, fileName: string)
    requires Valid(st)
    ensures Valid(DiskReadRequest(st, diskNumber, fileName))
  {
    if st.cpuPid != NO_PROCESS && st.cpuPid != OS_PID && ValidDisk(st, diskNumber) {
      var req := FileReadRequest(st.cpuPid, fileName);
      var mid := st.(disks := st.disks[diskNumber := Submit(st.disks[diskNumber], req)], cpuPid := NO_PROCESS);
      SubmitCore(st, diskNumber, fileName);
      ScheduleValid(mid);
    }
  }

  /** Vacating the CPU keeps the core invariant. */
  lemma VacateCore(st: State)
    requires Core(st)
    ensures Core(st.(cpuPid := NO_PROCESS))
  {
    var r := st.(cpuPid := NO_PROCESS);
    RegistrySameProcs(st, r);
    forall d | 0 <= d < |r.disks| ensures Blocked(r, DiskPids(r.disks[d])) {
      assert Blocked(st, DiskPids(st.disks[d]));
    }
  }

  /** Moving the occupant from the CPU onto a disk keeps the core invariant. */
  lemma SubmitCore(st: State, diskNumber: int, fileName: string)
    requires Core(st) && st.cpuPid != NO_PROCESS && st.cpuPid != OS_PID && ValidDisk(st, diskNumber)
    ensures Core(st.(disks := st.disks[diskNumber := Submit(st.disks[diskNumber], FileReadRequest(st.cpuPid, fileName))],
                     cpuPid := NO_PROCESS))
  {
    var cpu := st.cpuPid;
    var req := FileReadRequest(cpu, fileName);
    var s1 := st.(cpuPid := NO_PROCESS);
    VacateCore(st);
    var disks := st.disks[diskNumber := Submit(st.disks[diskNumber], req)];
    var mid := s1.(disks := disks);
    assert mid == st.(disks := disks, cpuPid := NO_PROCESS);
    RegistrySameProcs(s1, mid);
    assert forall d :: 0 <= d < |st.disks| ==> cpu !in DiskPids(st.disks[d]) by {
      forall d | 0 <= d < |st.disks| ensures cpu !in DiskPids(st.disks[d]) {
        assert Blocked(st, DiskPids(st.disks[d]));
      }
    }
    SubmitDisks(s1, diskNumber, req);
  }

  /** Putting a blocked, unlisted user pid on a disk keeps the disk invariant. */
  lemma SubmitDisks(st: State, diskNumber: int, req: FileReadRequest)
    requires DisksOk(st) && ValidDisk(st, diskNumber)
    requires FIRST_USER_PID <= req.PID < st.nextPid && req.PID != st.cpuPid && req.PID !in st.ready
    requires forall d :: 0 <= d < |st.disks| ==> req.PID !in DiskPids(st.disks[d])
    ensures DisksOk(st.(disks := st.disks[diskNumber := Submit(st.disks[diskNumber], req)]))
  {
    var disks := st.disks[diskNumber := Submit(st.disks[diskNumber], req)];
    var mid := st.(disks := disks);
    DiskPidsSubmit(st.disks[diskNumber], req);
    assert DiskPids(disks[diskNumber]) == DiskPids(st.disks[diskNumber]) + [req.PID];
    forall d, p | 0 <= d < |disks| && p in DiskPids(disks[d])
      ensures (p in DiskPids(st.disks[d]) && d != diskNumber) || (d == diskNumber && (p in DiskPids(st.disks[d]) || p == req.PID))
    {
    }
    forall d | 0 <= d < |disks| ensures Blocked(mid, DiskPids(disks[d])) {
      assert Blocked(st, DiskPids(st.disks[d]));
    }
  }

  /** The disk job in service on `diskNumber` finishes. */
  lemma AdvanceCore(st: State, diskNumber: int)
    requires Core(st) && ValidDisk(st, diskNumber) && st.disks[diskNumber].active.Some?
    ensures var done := st.disks[diskNumber].active.value.PID;
      var r := st.(disks := st.disks[diskNumber := Advance(st.disks[diskNumber])]);
      && Core(r)
      && FIRST_USER_PID <= done && done != st.cpuPid && done !in st.ready
      && forall d :: 0 <= d < |r.disks| ==> done !in DiskPids(r.disks[d])
  {
    var old_ := st.disks[diskNumber];
    var done := old_.active.value.PID;
    var disks := st.disks[diskNumber := Advance(old_)];
    var r := st.(disks := disks);
    DiskPidsAdvance(old_);
    var pids := DiskPids(old_);
    assert done in pids;
    assert Blocked(st, pids);
    SeqTailFacts(pids);
    forall d | 0 <= d < |disks|
      ensures IdleEmpty(disks[d]) && NoDup(DiskPids(disks[d])) && Blocked(r, DiskPids(disks[d]))
      ensures forall p :: p in DiskPids(disks[d]) ==> p in DiskPids(st.disks[d]) && p != done
    {
      assert Blocked(st, DiskPids(st.disks[d]));
    }
  }

  /** Dropping the head of a duplicate-free list drops that value entirely. */
  lemma SeqTailFacts(s: seq<int>)
    requires NoDup(s) && |s| > 0
    ensures s[0] !in s[1..] && NoDup(s[1..])
    ensures forall x :: x in s[1..] ==> x in s
  {
    forall j | 0 <= j < |s| - 1 ensures s[1..][j] != s[0] {
      assert s[1..][j] == s[j + 1];
    }
    forall i, j | 0 <= i < j < |s| - 1 ensures s[1..][i] != s[1..][j] {
      assert s[1..][i] == s[i + 1] && s[1..][j] == s[j + 1];
    }
  }

  /** A live user process that is on no disk, not on the CPU and not ready
      may join the ready list. */
  lemma WakeCore(st: State, p: int)
    requires Core(st) && Live(st, p) && FIRST_USER_PID <= p && p != st.cpuPid
    requires forall d :: 0 <= d < |st.disks| ==> p !in DiskPids(st.disks[d])
    ensures Core(st.(ready := AddToReady(st.ready, p)))
  {
    var r := st.(ready := AddToReady(st.ready, p));
    forall d | 0 <= d < |r.disks| ensures Blocked(r, DiskPids(r.disks[d])) {
      assert Blocked(st, DiskPids(st.disks[d]));
    }
  }

  /** SimOS::DiskJobCompleted keeps the invariant: the finished requester
      leaves the disk and, if still live, becomes ready. */
  lemma DiskCompletedValid(st: State, diskNumber: int)
    requires Valid(st)
    ensures Valid(DiskJobCompleted(st, diskNumber))
  {
    if ValidDisk(st, diskNumber) && st.disks[diskNumber].active.Some? {
      var done := st.disks[diskNumber].active.value.PID;
      var st1 := st.(disks := st.disks[diskNumber := Advance(st.disks[diskNumber])]);
      AdvanceCore(st, diskNumber);
      if done in st.procs && !st.procs[done].isZombie {
        WakeCore(st1, done);
        ScheduleValid(st1.(ready := AddToReady(st1.ready, done)));
      }
    }
  }
}
