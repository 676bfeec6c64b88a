/** terminateProcessAndDescendants and SimExit: the state invariant is kept,
    and what happens to each terminated process. */
module TerminateProofs {
  import opened SimTypes
  import opened Memory
  import opened MemoryProofs
  import opened Scheduler
  import opened Disks
  import opened SimOS
  import opened Invariants

  /** `p` no longer runs: it is erased or a zombie, holds no CPU, and is not
      ready. */
  ghost predicate Gone(st: State, p: int) {
    !Live(st, p) && p != st.cpuPid && p !in st.ready
  }

  /** Termination only ever takes away: no pid is registered anew, parents
      and priorities stay, zombies stay zombies, the CPU keeps its occupant
      or goes idle, and the ready list only loses entries. */
  ghost predicate Shrinks(st: State, r: State) {
    && r.nextPid == st.nextPid && r.disks == st.disks && r.totalRam == st.totalRam
    && (forall p :: p in r.procs ==> p in st.procs && Kept(st.procs[p], r.procs[p]))
    && (r.cpuPid == st.cpuPid || r.cpuPid == NO_PROCESS)
    && (forall p :: p in r.ready ==> p in st.ready)
  }

  ghost predicate Kept(before: Process, after: Process) {
    && after.parentPid == before.parentPid
    && after.priority == before.priority
    && (before.isZombie ==> after.isZombie)
  }

  lemma ShrinksTrans(a: State, b: State, c: State)
    requires Shrinks(a, b) && Shrinks(b, c)
    ensures Shrinks(a, c)
  {
  }

  /** A process that is gone stays gone. */
  lemma ShrinksKeepsGone(st: State, r: State, p: int)
    requires Shrinks(st, r) && Gone(st, p) && p != NO_PROCESS
    ensures Gone(r, p)
  {
  }

  /** Under the invariant only a process's own parent lists it. */
  lemma ListedOnlyByParent(st: State, q: int, c: int)
    requires Core(st) && q in st.procs && c in st.procs[q].children
    ensures c in st.procs && st.procs[c].parentPid == q
  {
    assert ChildrenOk(st, q, st.procs[q].children);
  }

  /** What happens to one terminated process (SimOS.c:288-311): with an
      existing parent it leaves that parent's child list, is flagged a zombie
      and keeps its memory; otherwise its memory is released and its record
      erased. Either way it ends off the CPU and out of the ready list, and
      no other record changes. */
  ghost predicate FinishedOne(st: State, r: State, pid: int)
    requires pid in st.procs
  {
    var par := st.procs[pid].parentPid;
    && r.nextPid == st.nextPid && r.disks == st.disks && r.totalRam == st.totalRam
    && r.cpuPid == (if st.cpuPid == pid then NO_PROCESS else st.cpuPid)
    && (forall p :: p in r.ready <==> p in st.ready && p != pid)
    && (NoDup(st.ready) ==> NoDup(r.ready))
    && (par != NO_PROCESS && par in st.procs ==>
          && r.blocks == st.blocks
          && r.procs.Keys == st.procs.Keys
          && r.procs[pid] == st.procs[pid].(isZombie := true)
          && r.procs[par] == st.procs[par].(children := RemoveFirst(st.procs[par].children, pid)))
    && (!(par != NO_PROCESS && par in st.procs) ==>
          && r.blocks == Deallocate(st.blocks, pid)
          && r.procs == st.procs - {pid})
    && (forall q :: q in st.procs && q != pid && q != par ==> q in r.procs && r.procs[q] == st.procs[q])
  }

  lemma FinishTerminateOutcome(st: State, pid: int)
    requires Core(st) && pid in st.procs
    ensures FinishedOne(st, FinishTerminate(st, pid), pid)
    ensures Gone(FinishTerminate(st, pid), pid)
  {
  }

  /** Finishing one termination keeps the core invariant and only takes
      away. */
  lemma FinishTerminateCore(st: State, pid: int)
    requires Core(st) && pid in st.procs && pid != OS_PID
    ensures Core(FinishTerminate(st, pid)) && Shrinks(st, FinishTerminate(st, pid))
  {
    FinishTerminateOutcome(st, pid);
    FinishedCore(st, FinishTerminate(st, pid), pid);
  }

  lemma FinishedCore(st: State, r: State, pid: int)
    requires Core(st) && pid in st.procs && pid != OS_PID && FinishedOne(st, r, pid)
    ensures Core(r) && Shrinks(st, r)
  {
    var par := st.procs[pid].parentPid;
    var hasParent := par != NO_PROCESS && par in st.procs;
    assert MemoryOk(r) && OsOk(r) by {
      if !hasParent {
        DeallocateWellFormed(st.blocks, st.totalRam, pid);
        DeallocateKeepsFirst(st.blocks, pid);
      }
    }
    assert Shrinks(st, r) by {
      if hasParent {
        assert forall p :: p in r.procs ==> p in st.procs && Kept(st.procs[p], r.procs[p]);
      }
    }
    assert ReadyOk(r) && RunnableLive(r);
    FinishedRegistry(st, r, pid);
    assert DisksOk(r) by {
      forall d | 0 <= d < |r.disks| ensures Blocked(r, DiskPids(r.disks[d])) {
        assert Blocked(st, DiskPids(st.disks[d]));
      }
    }
  }

  lemma FinishedRegistry(st: State, r: State, pid: int)
    requires Core(st) && pid in st.procs && pid != OS_PID && FinishedOne(st, r, pid)
    ensures RegistryOk(r)
  {
    var par := st.procs[pid].parentPid;
    var hasParent := par != NO_PROCESS && par in st.procs;
    forall q | q in r.procs
      ensures NoDup(r.procs[q].children) && ChildrenOk(r, q, r.procs[q].children)
    {
      assert NoDup(st.procs[q].children) && ChildrenOk(st, q, st.procs[q].children);
      forall c | c in r.procs[q].children
        ensures q < c && c in r.procs && r.procs[c].parentPid == q && !r.procs[c].isZombie
      {
        assert c in st.procs[q].children;
        assert c != pid by {
          if c == pid {
            ListedOnlyByParent(st, q, c);
          }
        }
      }
    }
  }

  /** An unregistered pid is gone under the invariant. */
  lemma UnregisteredGone(st: State, p: int)
    requires Core(st) && p !in st.procs && p != NO_PROCESS
    ensures Gone(st, p)
  {
  }

  /** terminateProcessAndDescendants keeps the core invariant. The process
      and every child on its list end up gone; the CPU keeps its occupant or
      goes idle, an occupant older than the process keeps it, and the
      process itself loses it. With an existing parent the process stays
      registered as a zombie and no memory is released anywhere in its
      subtree; without one, exactly its own block is released and its record
      erased. */
  lemma {:induction false} TerminateFacts(st: State, pid: int)
    requires Core(st) && pid in st.procs && pid != OS_PID
    ensures var r := Terminate(st, pid);
      var par := st.procs[pid].parentPid;
      && Core(r) && Shrinks(st, r) && Gone(r, pid)
      && (forall c :: c in st.procs[pid].children ==> Gone(r, c))
      && (st.cpuPid < pid ==> r.cpuPid == st.cpuPid)
      && (st.cpuPid == pid ==> r.cpuPid == NO_PROCESS)
      && (par != NO_PROCESS && par in st.procs ==>
            r.blocks == st.blocks && pid in r.procs && r.procs[pid].isZombie)
      && (!(par != NO_PROCESS && par in st.procs) ==>
            r.blocks == Deallocate(st.blocks, pid) && pid !in r.procs)
    decreases st.nextPid - pid, 1, 0
  {
    var kids := st.procs[pid].children;
    var par := st.procs[pid].parentPid;
    assert ChildrenOk(st, pid, kids);
    TerminateEachFacts(st, kids, pid);
    var s1 := TerminateEach(st, kids, pid);
    var r := FinishTerminate(s1, pid);
    assert s1.procs[pid].parentPid == par;
    assert par in s1.procs <==> par in st.procs;
    FinishTerminateOutcome(s1, pid);
    FinishTerminateCore(s1, pid);
    ShrinksTrans(st, s1, r);
    forall c | c in kids ensures Gone(r, c) {
      ShrinksKeepsGone(s1, r, c);
    }
  }

  /** Terminating, in turn, the registered members of a snapshot of
      `parent`'s child list keeps the core invariant and releases no memory
      (each of them still has `parent`); each of them ends up gone and the
      parent stays registered. */
  lemma {:induction false} TerminateEachFacts(st: State, kids: seq<int>, parent: int)
    requires Core(st) && parent in st.procs
    requires forall c :: c in kids && c in st.procs ==> st.procs[c].parentPid == parent
    ensures var r := TerminateEach(st, kids, parent);
      && Core(r) && Shrinks(st, r) && r.blocks == st.blocks && parent in r.procs
      && (forall c :: c in kids && c in st.procs ==> Gone(r, c))
      && (st.cpuPid <= parent ==> r.cpuPid == st.cpuPid)
    decreases st.nextPid - parent, 0, |kids|
  {
    if |kids| > 0 {
      var c := kids[0];
      var s1 := if c in st.procs && parent < c < st.nextPid then Terminate(st, c) else st;
      assert Core(s1) && Shrinks(st, s1) && parent in s1.procs && s1.blocks == st.blocks
        && (st.cpuPid <= parent ==> s1.cpuPid == st.cpuPid)
        && (c in st.procs ==> Gone(s1, c)) by {
        if c in st.procs && parent < c < st.nextPid {
          TerminateFacts(st, c);
        }
      }
      assert forall x :: x in kids[1..] && x in s1.procs ==> s1.procs[x].parentPid == parent by {
        forall x | x in kids[1..] && x in s1.procs ensures s1.procs[x].parentPid == parent {
          assert x in kids;
        }
      }
      TerminateEachFacts(s1, kids[1..], parent);
      var r := TerminateEach(s1, kids[1..], parent);
      ShrinksTrans(st, s1, r);
      forall x | x in kids && x in st.procs ensures Gone(r, x) {
        if x != c && x in s1.procs {
          assert x in kids[1..];
        } else if x in s1.procs {
          ShrinksKeepsGone(s1, r, x);
        } else {
          UnregisteredGone(s1, x);
          ShrinksKeepsGone(s1, r, x);
        }
      }
    }
  }

  /** Rescheduling never revives a process that is gone. */
  lemma ScheduleKeepsGone(st: State, p: int)
    requires Core(st) && Gone(st, p) && p != NO_PROCESS
    ensures Gone(Schedule(st), p)
  {
    ScheduleFacts(st);
  }

  /** SimOS::SimExit keeps the invariant. */
  lemma ExitValid(st: State)
    requires Valid(st)
    ensures CpuKnown(st) && Valid(Exit(st))
  {
    if st.cpuPid != NO_PROCESS && st.cpuPid != OS_PID {
      TerminateFacts(st, st.cpuPid);
      ScheduleValid(Terminate(st, st.cpuPid));
    }
  }

  /** What SimExit does to the caller and its memory: the caller and each of
      its children are gone afterwards. With an existing parent the caller
      stays registered as a zombie, is no longer on that parent's child
      list, and no block changes hands: the memory of the zombie and its
      whole subtree stays allocated. Without one, only the caller's own
      block is released. */
  lemma ExitOutcome(st: State)
    requires Valid(st) && st.cpuPid != NO_PROCESS && st.cpuPid != OS_PID
    ensures var pid := st.cpuPid;
      var r := Exit(st);
      var par := st.procs[pid].parentPid;
      && Gone(r, pid)
      && (forall c :: c in st.procs[pid].children ==> Gone(r, c))
      && (par != NO_PROCESS && par in st.procs ==>
            && r.blocks == st.blocks
            && pid in r.procs && r.procs[pid].isZombie
            && par in r.procs && pid !in r.procs[par].children)
      && (!(par != NO_PROCESS && par in st.procs) ==>
            r.blocks == Deallocate(st.blocks, pid) && pid !in r.procs)
  {
    var pid := st.cpuPid;
    var t := Terminate(st, pid);
    var par := st.procs[pid].parentPid;
    TerminateFacts(st, pid);
    ScheduleKeepsGone(t, pid);
    forall c | c in st.procs[pid].children ensures Gone(Exit(st), c) {
      assert ChildrenOk(st, pid, st.procs[pid].children);
      ScheduleKeepsGone(t, c);
    }
    if par != NO_PROCESS && par in st.procs {
      assert par in t.procs;
      assert ChildrenOk(t, par, t.procs[par].children);
    }
  }
}
