/** The ready list and the priority-preemptive CPU assignment
    (SimOS::addToReadyQueue, SimOS::removeFromReadyQueue, SimOS::scheduleCPU). */
module Scheduler {
  import opened SimTypes

  /** Priority of a registered process. The source reads it through
      `processes_.at` and `processes_[...]`; every pid on the CPU or in the
      ready list is registered, so the fallback 0 (the priority a
      default-inserted record would have) is never observed. */
  function PriorityOf(procs: map<int, Process>, pid: int): int {
    if pid in procs then procs[pid].priority else 0
  }

  /** SimOS::addToReadyQueue: append unless already present. */
  function AddToReady(ready: seq<int>, pid: int): (r: seq<int>)
    ensures forall x :: x in r <==> x in ready || x == pid
    ensures |ready| <= |r| <= |ready| + 1 && r[..|ready|] == ready
    ensures pid !in ready ==> r[|r| - 1] == pid
    ensures NoDup(ready) ==> NoDup(r)
  {
    if pid in ready then ready else ready + [pid]
  }

  /** SimOS::removeFromReadyQueue: `std::list::remove` drops every copy. */
  function RemoveFromReady(ready: seq<int>, pid: int): (r: seq<int>)
    ensures forall x :: x in r <==> x in ready && x != pid
    ensures |r| <= |ready|
    ensures NoDup(ready) ==> NoDup(r)
  {
    if |ready| == 0 then []
    else if ready[0] == pid then RemoveFromReady(ready[1..], pid)
    else
      var rest := RemoveFromReady(ready[1..], pid);
      assert NoDup(ready) ==> ready[0] !in ready[1..] && NoDup(ready[1..]) by {
        if NoDup(ready) {
          forall j | 0 <= j < |ready[1..]| ensures ready[1..][j] != ready[0] {
            assert ready[1..][j] == ready[j + 1];
          }
        }
      }
      [ready[0]] + rest
  }

  /** Removing an absent pid changes nothing. */
  lemma {:induction false} RemoveAbsent(ready: seq<int>, pid: int)
    requires pid !in ready
    ensures RemoveFromReady(ready, pid) == ready
  {
    if |ready| > 0 {
      RemoveAbsent(ready[1..], pid);
    }
  }

  /** Removing a pid that occurs once keeps the order of everything else. */
  lemma {:induction false} RemoveSplit(a: seq<int>, pid: int, b: seq<int>)
    requires pid !in a && pid !in b
    ensures RemoveFromReady(a + [pid] + b, pid) == a + b
  {
    if |a| == 0 {
      assert a + [pid] + b == [pid] + b;
      assert ([pid] + b)[1..] == b;
      RemoveAbsent(b, pid);
    } else {
      assert (a + [pid] + b)[1..] == a[1..] + [pid] + b;
      RemoveSplit(a[1..], pid, b);
      assert a == [a[0]] + a[1..];
    }
  }

  /** Reference definition of the candidate: the earliest ready pid of
      highest priority. */
  ghost predicate IsHighest(procs: map<int, Process>, ready: seq<int>, k: nat) {
    && k < |ready|
    && (forall j :: 0 <= j < |ready| ==> PriorityOf(procs, ready[j]) <= PriorityOf(procs, ready[k]))
    && (forall j :: 0 <= j < k ==> PriorityOf(procs, ready[j]) < PriorityOf(procs, ready[k]))
  }

  /** `std::max_element` with a less-than comparator: it keeps the current
      best unless a later element is strictly greater. */
  function HighestFrom(procs: map<int, Process>, ready: seq<int>, i: nat, best: nat): (k: nat)
    requires best < i <= |ready|
    requires forall j :: 0 <= j < i ==> PriorityOf(procs, ready[j]) <= PriorityOf(procs, ready[best])
    requires forall j :: 0 <= j < best ==> PriorityOf(procs, ready[j]) < PriorityOf(procs, ready[best])
    ensures IsHighest(procs, ready, k)
    decreases |ready| - i
  {
    if i == |ready| then best
    else if PriorityOf(procs, ready[best]) < PriorityOf(procs, ready[i]) then
      HighestFrom(procs, ready, i + 1, i)
    else
      HighestFrom(procs, ready, i + 1, best)
  }

  function Highest(procs: map<int, Process>, ready: seq<int>): (k: nat)
    requires |ready| > 0
    ensures IsHighest(procs, ready, k)
  {
    HighestFrom(procs, ready, 1, 0)
  }

  /** The reference definition picks one index only. */
  lemma HighestUnique(procs: map<int, Process>, ready: seq<int>, k1: nat, k2: nat)
    requires IsHighest(procs, ready, k1) && IsHighest(procs, ready, k2)
    ensures k1 == k2
  {
    assert PriorityOf(procs, ready[k1]) == PriorityOf(procs, ready[k2]);
  }

  /** SimOS::scheduleCPU. With an empty ready list the CPU becomes idle.
      Otherwise the candidate takes the CPU when it is idle or when the
      candidate's priority is strictly higher; a preempted occupant goes to
      the back of the ready list. */
  function Schedule(st: State): (r: State)
    ensures r.procs == st.procs && r.blocks == st.blocks && r.disks == st.disks
    ensures r.nextPid == st.nextPid && r.totalRam == st.totalRam
    ensures |st.ready| == 0 ==> r.cpuPid == NO_PROCESS
    ensures |st.ready| > 0 ==> r.cpuPid != NO_PROCESS || st.ready[Highest(st.procs, st.ready)] == NO_PROCESS
  {
    if |st.ready| == 0 then st.(cpuPid := NO_PROCESS)
    else
      var h := st.ready[Highest(st.procs, st.ready)];
      if st.cpuPid == NO_PROCESS || PriorityOf(st.procs, h) > PriorityOf(st.procs, st.cpuPid) then
        var withOld := if st.cpuPid != NO_PROCESS then AddToReady(st.ready, st.cpuPid) else st.ready;
        st.(cpuPid := h, ready := RemoveFromReady(withOld, h))
      else st
  }
}
