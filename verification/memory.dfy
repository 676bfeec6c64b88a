/** The worst-fit allocator over an address-ordered block list
    (SimOS::allocateMemory, SimOS::deallocateMemory, SimOS::GetMemory). */
module Memory {
  import opened SimTypes

  // ---------------------------------------------------------------------
  // Shape of the block list

  /** Every block starts where its predecessor ends. */
  ghost predicate Contiguous(bs: seq<MemoryBlock>) {
    forall i :: 0 < i < |bs| ==> bs[i].start == End(bs[i - 1])
  }

  /** The blocks tile the range [lo, hi) in order, without gap or overlap. */
  ghost predicate TilesFrom(bs: seq<MemoryBlock>, lo: nat, hi: nat) {
    && |bs| > 0
    && bs[0].start == lo
    && Contiguous(bs)
    && End(bs[|bs| - 1]) == hi
  }

  ghost predicate Tiles(bs: seq<MemoryBlock>, total: nat) {
    TilesFrom(bs, 0, total)
  }

  /** Coalescing leaves no two neighbouring free blocks. */
  ghost predicate NoAdjacentFree(bs: seq<MemoryBlock>) {
    forall i :: 0 < i < |bs| ==> !(bs[i - 1].isFree && bs[i].isFree)
  }

  /** A free block carries NO_PROCESS as its owner. */
  ghost predicate FreeTagged(bs: seq<MemoryBlock>) {
    forall i :: 0 <= i < |bs| ==> bs[i].isFree ==> bs[i].pid == NO_PROCESS
  }

  /** The allocator's invariant over the whole address space. */
  ghost predicate WellFormed(bs: seq<MemoryBlock>, total: nat) {
    Tiles(bs, total) && NoAdjacentFree(bs) && FreeTagged(bs)
  }

  /** Total size of the free blocks. */
  function FreeSpace(bs: seq<MemoryBlock>): nat {
    if |bs| == 0 then 0
    else (if bs[0].isFree then bs[0].size else 0) + FreeSpace(bs[1..])
  }

  /** Total size of all blocks. */
  function SizeSum(bs: seq<MemoryBlock>): nat {
    if |bs| == 0 then 0 else bs[0].size + SizeSum(bs[1..])
  }

  /** The occupied blocks, in block order, as report entries (GetMemory). */
  function Report(bs: seq<MemoryBlock>): MemoryUse {
    if |bs| == 0 then []
    else (if bs[0].isFree then [] else [ItemOf(bs[0])]) + Report(bs[1..])
  }

  // ---------------------------------------------------------------------
  // Worst-fit choice

  /** The scan at SimOS.c:223-228 accepts a block that is free, large enough
      and strictly larger than the best size seen so far, which starts at 0;
      so a free block of size 0 is never chosen. */
  predicate Fits(b: MemoryBlock, size: nat) {
    b.isFree && b.size >= size && b.size > 0
  }

  ghost predicate NoFit(bs: seq<MemoryBlock>, size: nat) {
    forall j :: 0 <= j < |bs| ==> !Fits(bs[j], size)
  }

  /** Reference definition: `k` is the first fitting block of maximal size. */
  ghost predicate IsWorstFit(bs: seq<MemoryBlock>, size: nat, k: nat) {
    && k < |bs|
    && Fits(bs[k], size)
    && (forall j :: 0 <= j < |bs| && Fits(bs[j], size) ==> bs[j].size <= bs[k].size)
    && (forall j :: 0 <= j < k && Fits(bs[j], size) ==> bs[j].size < bs[k].size)
  }

  /** What the scan knows after looking at the first `i` blocks. */
  ghost predicate ScanInvariant(bs: seq<MemoryBlock>, size: nat, i: nat, best: Option<nat>, maxSize: nat) {
    && i <= |bs|
    && (best.None? ==> maxSize == 0 && forall j :: 0 <= j < i ==> !Fits(bs[j], size))
    && (best.Some? ==>
          && best.value < i
          && Fits(bs[best.value], size)
          && maxSize == bs[best.value].size
          && (forall j :: 0 <= j < i && Fits(bs[j], size) ==> bs[j].size <= maxSize)
          && (forall j :: 0 <= j < best.value && Fits(bs[j], size) ==> bs[j].size < maxSize))
  }

  /** The loop at SimOS.c:223-228, from block `i` on. */
  function WorstFitScan(bs: seq<MemoryBlock>, size: nat, i: nat, best: Option<nat>, maxSize: nat): (r: Option<nat>)
    requires ScanInvariant(bs, size, i, best, maxSize)
    ensures r.None? ==> NoFit(bs, size)
    ensures r.Some? ==> IsWorstFit(bs, size, r.value)
    decreases |bs| - i
  {
    if i == |bs| then best
    else if bs[i].isFree && bs[i].size >= size && bs[i].size > maxSize then
      WorstFitScan(bs, size, i + 1, Some(i), bs[i].size)
    else
      WorstFitScan(bs, size, i + 1, best, maxSize)
  }

  function WorstFit(bs: seq<MemoryBlock>, size: nat): (r: Option<nat>)
    ensures r.None? <==> NoFit(bs, size)
    ensures r.Some? ==> IsWorstFit(bs, size, r.value)
  {
    WorstFitScan(bs, size, 0, None, 0)
  }

  /** The reference definition leaves no choice: at most one block is the worst fit. */
  lemma WorstFitUnique(bs: seq<MemoryBlock>, size: nat, k1: nat, k2: nat)
    requires IsWorstFit(bs, size, k1) && IsWorstFit(bs, size, k2)
    ensures k1 == k2
  {
  }

  // ---------------------------------------------------------------------
  // Allocation

  datatype Allocation = Allocation(blocks: seq<MemoryBlock>, item: MemoryItem)

  /** SimOS::allocateMemory. The chosen block keeps its start and becomes
      owned by `pid` with exactly `size`; a remainder becomes a free block
      right after it. The source updates an iterator that the insertion
      invalidated; this models the intended index semantics. */
  function Allocate(bs: seq<MemoryBlock>, size: nat, pid: int): (r: Option<Allocation>)
    ensures r.None? <==> NoFit(bs, size)
    ensures r.Some? ==> WorstFit(bs, size).Some?
    ensures r.Some? ==>
      var k := WorstFit(bs, size).value;
      && r.value.item == MemoryItem(bs[k].start, size, pid)
      && |r.value.blocks| == |bs| + (if bs[k].size > size then 1 else 0)
      && r.value.blocks[k] == MemoryBlock(bs[k].start, size, false, pid)
  {
    match WorstFit(bs, size)
    case None => None
    case Some(k) =>
      var b := bs[k];
      var taken := MemoryBlock(b.start, size, false, pid);
      var rest := if b.size > size then [MemoryBlock(b.start + size, b.size - size, true, NO_PROCESS)] else [];
      Some(Allocation(bs[..k] + [taken] + rest + bs[k + 1..], MemoryItem(b.start, size, pid)))
  }

  // ---------------------------------------------------------------------
  // Deallocation

  /** Index of the first occupied block owned by `pid`, scanning from `i`. */
  function FindOwned(bs: seq<MemoryBlock>, pid: int, i: nat): (r: Option<nat>)
    requires i <= |bs|
    ensures r.None? ==> forall j :: i <= j < |bs| ==> bs[j].isFree || bs[j].pid != pid
    ensures r.Some? ==> i <= r.value < |bs| && !bs[r.value].isFree && bs[r.value].pid == pid
    ensures r.Some? ==> forall j :: i <= j < r.value ==> bs[j].isFree || bs[j].pid != pid
    decreases |bs| - i
  {
    if i == |bs| then None
    else if !bs[i].isFree && bs[i].pid == pid then Some(i)
    else FindOwned(bs, pid, i + 1)
  }

  /** The first coalescing loop (SimOS.c:262-266): while the predecessor of
      block `i` is free, grow the predecessor by block `i` and drop block `i`. */
  function MergeBackward(bs: seq<MemoryBlock>, i: nat): (r: (seq<MemoryBlock>, nat))
    requires i < |bs|
    ensures r.1 <= i && r.1 < |r.0| && |r.0| == |bs| - (i - r.1)
    decreases i
  {
    if i > 0 && bs[i - 1].isFree then
      var merged := bs[i - 1].(size := bs[i - 1].size + bs[i].size);
      MergeBackward(bs[..i - 1] + [merged] + bs[i + 1..], i - 1)
    else (bs, i)
  }

  /** The second coalescing loop (SimOS.c:268-271): while the successor of
      block `i` is free, grow block `i` by it and drop the successor. */
  function MergeForward(bs: seq<MemoryBlock>, i: nat): (r: seq<MemoryBlock>)
    requires i < |bs|
    ensures 0 < |r| <= |bs|
    decreases |bs| - i
  {
    if i + 1 < |bs| && bs[i + 1].isFree then
      var merged := bs[i].(size := bs[i].size + bs[i + 1].size);
      MergeForward(bs[..i] + [merged] + bs[i + 2..], i)
    else bs
  }

  /** Block `k` becomes free and its owner tag becomes NO_PROCESS (SimOS.c:258-259). */
  function MarkFree(bs: seq<MemoryBlock>, k: nat): (r: seq<MemoryBlock>)
    requires k < |bs|
    ensures |r| == |bs|
  {
    bs[k := bs[k].(isFree := true, pid := NO_PROCESS)]
  }

  /** SimOS::deallocateMemory: free the first block owned by `pid`, then
      coalesce it with free neighbours on both sides. */
  function Deallocate(bs: seq<MemoryBlock>, pid: int): (r: seq<MemoryBlock>)
    ensures FindOwned(bs, pid, 0).None? ==> r == bs
    ensures |r| <= |bs|
  {
    match FindOwned(bs, pid, 0)
    case None => bs
    case Some(k) =>
      var back := MergeBackward(MarkFree(bs, k), k);
      MergeForward(back.0, back.1)
  }
}
