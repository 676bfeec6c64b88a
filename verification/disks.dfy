/** One disk: a slot for the request in service and a FIFO of waiting
    requests (the per-disk parts of SimOS::DiskReadRequest and
    SimOS::DiskJobCompleted). */
module Disks {
  import opened SimTypes

  /** An idle disk has nothing waiting: a request is promoted the moment
      the slot frees up. */
  predicate IdleEmpty(d: Disk) {
    d.active.None? ==> |d.queue| == 0
  }

  /** The requests still to be served, in service order. */
  function Pending(d: Disk): seq<FileReadRequest> {
    (if d.active.Some? then [d.active.value] else []) + d.queue
  }

  /** A new request is served at once on an idle disk, and otherwise waits
      at the back of the queue (SimOS.c:116-122). */
  function Submit(d: Disk, req: FileReadRequest): (r: Disk)
    ensures r.active.Some? && IdleEmpty(r)
    ensures IdleEmpty(d) ==> Pending(r) == Pending(d) + [req]
  {
    if d.active.None? then Disk(Some(req), d.queue) else Disk(d.active, d.queue + [req])
  }

  /** The job in service finishes and the front of the queue, if any, takes
      its place (SimOS.c:139-145). */
  function Advance(d: Disk): (r: Disk)
    requires d.active.Some?
    ensures IdleEmpty(r)
    ensures Pending(r) == Pending(d)[1..]
  {
    if |d.queue| > 0 then Disk(Some(d.queue[0]), d.queue[1..]) else Disk(None, d.queue)
  }

  /** The requests served by `n` successive completions. */
  function Served(d: Disk, n: nat): seq<FileReadRequest>
    decreases n
  {
    if n == 0 || d.active.None? then [] else [d.active.value] + Served(Advance(d), n - 1)
  }

  /** FIFO per disk: completing every pending job serves the requests in
      exactly the order they were submitted. */
  lemma {:induction false} ServedInOrder(d: Disk)
    requires IdleEmpty(d)
    ensures Served(d, |Pending(d)|) == Pending(d)
    decreases |Pending(d)|
  {
    if d.active.Some? {
      ServedInOrder(Advance(d));
    }
  }

  /** The pids waiting on or served by a disk. */
  function DiskPids(d: Disk): seq<int> {
    var p := Pending(d);
    seq(|p|, i requires 0 <= i < |p| => p[i].PID)
  }

  /** A submission to a consistent disk adds the requester at the back. */
  lemma DiskPidsSubmit(d: Disk, req: FileReadRequest)
    requires IdleEmpty(d)
    ensures DiskPids(Submit(d, req)) == DiskPids(d) + [req.PID]
  {
    assert Pending(Submit(d, req)) == Pending(d) + [req];
  }

  /** A completion removes the requester in service from the front. */
  lemma DiskPidsAdvance(d: Disk)
    requires d.active.Some?
    ensures |DiskPids(d)| > 0 && DiskPids(d)[0] == d.active.value.PID
    ensures DiskPids(Advance(d)) == DiskPids(d)[1..]
  {
    assert Pending(d)[0] == d.active.value;
    assert Pending(Advance(d)) == Pending(d)[1..];
  }
}
