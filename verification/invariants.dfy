/** The simulator's state invariant and the scheduler facts every operation
    relies on. */
module Invariants {
  import opened SimTypes
  import opened Memory
  import opened MemoryProofs
  import opened Scheduler
  import opened Disks
  import opened SimOS

  /** The blocks tile [0, totalRam), no two neighbours are free, and free
      blocks carry NO_PROCESS. */
  ghost predicate MemoryOk(st: State) {
    WellFormed(st.blocks, st.totalRam)
  }

  /** The ready list has no duplicates and holds neither the occupant nor
      the NO_PROCESS marker. */
  ghost predicate ReadyOk(st: State) {
    NoDup(st.ready) && st.cpuPid !in st.ready && NO_PROCESS !in st.ready
  }

  ghost predicate Live(st: State, p: int) {
    p in st.procs && !st.procs[p].isZombie
  }

  /** Whoever holds the CPU or waits in the ready list is a registered,
      non-zombie user process (the OS process never runs). */
  ghost predicate RunnableLive(st: State) {
    && (st.cpuPid != NO_PROCESS ==> FIRST_USER_PID <= st.cpuPid && Live(st, st.cpuPid))
    && (forall p :: p in st.ready ==> FIRST_USER_PID <= p && Live(st, p))
  }

  /** Registry shape: pids are positive and below `nextPid`, a parent is
      older than its child, and every listed child is a registered,
      non-zombie process that names the list's owner as its parent. */
  ghost predicate RegistryOk(st: State) {
    && st.nextPid >= FIRST_USER_PID
    && (forall p :: p in st.procs ==> OS_PID <= p < st.nextPid)
    && (forall p :: p in st.procs ==> st.procs[p].parentPid < p)
    && (forall p :: p in st.procs ==> NoDup(st.procs[p].children) && ChildrenOk(st, p, st.procs[p].children))
  }

  /** Each of `cs` is a registered, non-zombie process younger than `p` that
      names `p` as its parent. */
  ghost predicate ChildrenOk(st: State, p: int, cs: seq<int>) {
    forall c :: c in cs ==> p < c && c in st.procs && st.procs[c].parentPid == p && !st.procs[c].isZombie
  }

  /** Disks: an idle disk has an empty queue; a pid waits on at most one
      disk, at most once; a waiting pid is a user pid already handed out and
      is neither on the CPU nor ready. */
  ghost predicate DisksOk(st: State) {
    && (forall d :: 0 <= d < |st.disks| ==> IdleEmpty(st.disks[d]) && NoDup(DiskPids(st.disks[d])))
    && (forall d, e, p :: 0 <= d < |st.disks| && 0 <= e < |st.disks| && d != e && p in DiskPids(st.disks[d]) ==>
          p !in DiskPids(st.disks[e]))
    && (forall d :: 0 <= d < |st.disks| ==> Blocked(st, DiskPids(st.disks[d])))
  }

  /** Each of `pids` is a user pid already handed out that is neither on
      the CPU nor ready. */
  ghost predicate Blocked(st: State, pids: seq<int>) {
    forall p :: p in pids ==> FIRST_USER_PID <= p < st.nextPid && p != st.cpuPid && p !in st.ready
  }

  /** The OS process is never terminated and its block, first in memory at
      address 0, is never released. */
  ghost predicate OsOk(st: State) {
    && OS_PID in st.procs
    && |st.blocks| > 0 && st.blocks[0].start == 0 && !st.blocks[0].isFree && st.blocks[0].pid == OS_PID
  }

  ghost predicate Core(st: State) {
    MemoryOk(st) && ReadyOk(st) && RunnableLive(st) && RegistryOk(st) && DisksOk(st) && OsOk(st)
  }

  /** After every public operation the CPU is busy whenever something is
      ready, and nothing ready outranks the occupant. */
  ghost predicate Settled(st: State) {
    && (st.cpuPid == NO_PROCESS ==> st.ready == [])
    && (forall p :: p in st.ready ==> PriorityOf(st.procs, p) <= PriorityOf(st.procs, st.cpuPid))
  }

  ghost predicate Valid(st: State) {
    Core(st) && Settled(st)
  }

  // ---------------------------------------------------------------------
  // scheduleCPU

  /** Scheduling keeps the ready-list invariant, takes the new occupant from
      the old occupant or the ready list, and loses nobody unless the ready
      list was empty. */
  lemma ScheduleFacts(st: State)
    requires ReadyOk(st)
    ensures var r := Schedule(st);
      && ReadyOk(r)
      && (r.cpuPid != NO_PROCESS ==> r.cpuPid == st.cpuPid || r.cpuPid in st.ready)
      && (forall p :: p in r.ready ==> p in st.ready || p == st.cpuPid)
      && (|st.ready| > 0 ==> forall p :: (p in st.ready || p == st.cpuPid) && p != NO_PROCESS ==> p in r.ready || p == r.cpuPid)
  {
    if |st.ready| > 0 {
      var h := st.ready[Highest(st.procs, st.ready)];
      if st.cpuPid == NO_PROCESS || PriorityOf(st.procs, h) > PriorityOf(st.procs, st.cpuPid) {
        var withOld := if st.cpuPid != NO_PROCESS then AddToReady(st.ready, st.cpuPid) else st.ready;
        assert NoDup(withOld) && NO_PROCESS !in withOld;
        assert Schedule(st).ready == RemoveFromReady(withOld, h);
      }
    }
  }

  /** The scheduling rule: an empty ready list idles the CPU; otherwise the
      earliest highest-priority ready pid takes the CPU if it is idle or
      strictly outranked, leaving its place in the list, and a preempted
      occupant goes to the back; otherwise nothing changes. */
  lemma ScheduleRule(st: State)
    requires ReadyOk(st)
    ensures |st.ready| == 0 ==> Schedule(st) == st.(cpuPid := NO_PROCESS)
    ensures |st.ready| > 0 ==>
      var k := Highest(st.procs, st.ready);
      var h := st.ready[k];
      if st.cpuPid == NO_PROCESS || PriorityOf(st.procs, h) > PriorityOf(st.procs, st.cpuPid) then
        && Schedule(st).cpuPid == h
        && Schedule(st).ready == st.ready[..k] + st.ready[k + 1..] + (if st.cpuPid == NO_PROCESS then [] else [st.cpuPid])
      else Schedule(st) == st
  {
    if |st.ready| > 0 {
      var k := Highest(st.procs, st.ready);
      var h := st.ready[k];
      if st.cpuPid == NO_PROCESS || PriorityOf(st.procs, h) > PriorityOf(st.procs, st.cpuPid) {
        var tail := if st.cpuPid == NO_PROCESS then [] else [st.cpuPid];
        var withOld := if st.cpuPid != NO_PROCESS then AddToReady(st.ready, st.cpuPid) else st.ready;
        assert withOld == st.ready + tail;
        RemoveOnce(st.ready, k, tail);
      }
    }
  }

  /** Removing the element at `k` of a duplicate-free list, with a tail that
      does not contain it appended, leaves everything else in order. */
  lemma RemoveOnce(ready: seq<int>, k: nat, tail: seq<int>)
    requires NoDup(ready) && k < |ready| && ready[k] !in tail
    ensures RemoveFromReady(ready + tail, ready[k]) == ready[..k] + ready[k + 1..] + tail
  {
    var h := ready[k];
    assert ready + tail == ready[..k] + [h] + (ready[k + 1..] + tail);
    assert h !in ready[..k] && h !in ready[k + 1..] by {
      forall j | 0 <= j < |ready| && j != k ensures ready[j] != h { }
    }
    RemoveSplit(ready[..k], h, ready[k + 1..] + tail);
  }

  /** Scheduling from a consistent ready list, with something ready or the
      CPU idle, leaves the CPU settled. */
  lemma ScheduleSettles(st: State)
    requires ReadyOk(st)
    requires |st.ready| > 0 || st.cpuPid == NO_PROCESS
    ensures Settled(Schedule(st))
  {
    var r := Schedule(st);
    ScheduleFacts(st);
    if |st.ready| > 0 {
      var h := st.ready[Highest(st.procs, st.ready)];
      if st.cpuPid == NO_PROCESS || PriorityOf(st.procs, h) > PriorityOf(st.procs, st.cpuPid) {
        assert r.cpuPid == h;
        forall p | p in r.ready ensures PriorityOf(r.procs, p) <= PriorityOf(r.procs, r.cpuPid) {
          if p != st.cpuPid {
            var j :| 0 <= j < |st.ready| && st.ready[j] == p;
          }
        }
      } else {
        forall p | p in r.ready ensures PriorityOf(r.procs, p) <= PriorityOf(r.procs, r.cpuPid) {
          var j :| 0 <= j < |st.ready| && st.ready[j] == p;
        }
      }
    }
  }

  /** Rescheduling a settled result changes nothing. */
  lemma ScheduleStable(st: State)
    requires ReadyOk(st)
    requires Schedule(st).cpuPid == NO_PROCESS || |Schedule(st).ready| > 0
    ensures Schedule(Schedule(st)) == Schedule(st)
  {
    var r := Schedule(st);
    if |st.ready| > 0 {
      ScheduleSettles(st);
      ScheduleFacts(st);
      if |r.ready| > 0 {
        var h := r.ready[Highest(r.procs, r.ready)];
        assert PriorityOf(r.procs, h) <= PriorityOf(r.procs, r.cpuPid);
      }
    }
  }

  /** Scheduling keeps the core invariant. */
  lemma ScheduleCore(st: State)
    requires Core(st)
    ensures Core(Schedule(st))
  {
    var r := Schedule(st);
    ScheduleFacts(st);
    assert RunnableLive(r);
    RegistrySameProcs(st, r);
    forall d | 0 <= d < |r.disks| ensures Blocked(r, DiskPids(r.disks[d])) {
      assert Blocked(st, DiskPids(st.disks[d]));
    }
  }

  /** The registry invariant depends only on the records and the pid counter. */
  lemma RegistrySameProcs(st: State, r: State)
    requires RegistryOk(st) && r.procs == st.procs && r.nextPid == st.nextPid
    ensures RegistryOk(r)
  {
    forall p | p in r.procs ensures ChildrenOk(r, p, r.procs[p].children) {
      assert ChildrenOk(st, p, st.procs[p].children);
    }
  }

  /** Scheduling after an operation that left something ready or the CPU
      idle re-establishes the full invariant. */
  lemma ScheduleValid(st: State)
    requires Core(st)
    requires |st.ready| > 0 || st.cpuPid == NO_PROCESS
    ensures Valid(Schedule(st))
  {
    ScheduleCore(st);
    ScheduleSettles(st);
  }
}
