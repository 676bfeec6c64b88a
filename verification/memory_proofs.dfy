/** Properties of the allocator: tiling, coalescing, free-space accounting
    and the memory report. */
module MemoryProofs {
  import opened SimTypes
  import opened Memory

  // ---------------------------------------------------------------------
  // Replacing a run of blocks by another run

  function Splice(bs: seq<MemoryBlock>, lo: nat, hi: nat, mid: seq<MemoryBlock>): seq<MemoryBlock>
    requires lo <= hi <= |bs|
  {
    bs[..lo] + mid + bs[hi..]
  }

  /** A run that tiles exactly the range of the blocks it replaces keeps the tiling. */
  lemma SpliceTiles(bs: seq<MemoryBlock>, lo: nat, hi: nat, mid: seq<MemoryBlock>, a: nat, z: nat)
    requires TilesFrom(bs, a, z) && lo < hi <= |bs|
    requires TilesFrom(mid, bs[lo].start, End(bs[hi - 1]))
    ensures TilesFrom(Splice(bs, lo, hi, mid), a, z)
  {
    var r := Splice(bs, lo, hi, mid);
    var m := |mid|;
    assert |r| == lo + m + (|bs| - hi);
    forall i | 0 < i < |r|
      ensures r[i].start == End(r[i - 1])
    {
      if i < lo {
        assert r[i] == bs[i] && r[i - 1] == bs[i - 1];
      } else if i == lo {
        assert r[i] == mid[0] && r[i - 1] == bs[lo - 1];
      } else if i < lo + m {
        assert r[i] == mid[i - lo] && r[i - 1] == mid[i - lo - 1];
      } else if i == lo + m {
        assert r[i] == bs[hi] && r[i - 1] == mid[m - 1];
      } else {
        assert r[i] == bs[i - lo - m + hi] && r[i - 1] == bs[i - lo - m + hi - 1];
      }
    }
    if lo == 0 {
      assert r[0] == mid[0];
    } else {
      assert r[0] == bs[0];
    }
    if hi == |bs| {
      assert r[|r| - 1] == mid[m - 1];
    } else {
      assert r[|r| - 1] == bs[|bs| - 1];
    }
  }

  /** A run with no free neighbours of its own, whose free ends do not meet a
      free outside block, keeps the no-adjacent-free property. */
  lemma SpliceNoAdjacentFree(bs: seq<MemoryBlock>, lo: nat, hi: nat, mid: seq<MemoryBlock>)
    requires lo <= hi <= |bs| && |mid| > 0
    requires NoAdjacentFree(bs) && NoAdjacentFree(mid)
    requires lo > 0 && mid[0].isFree ==> !bs[lo - 1].isFree
    requires hi < |bs| && mid[|mid| - 1].isFree ==> !bs[hi].isFree
    ensures NoAdjacentFree(Splice(bs, lo, hi, mid))
  {
    var r := Splice(bs, lo, hi, mid);
    var m := |mid|;
    forall i | 0 < i < |r|
      ensures !(r[i - 1].isFree && r[i].isFree)
    {
      if i < lo {
        assert r[i] == bs[i] && r[i - 1] == bs[i - 1];
      } else if i == lo {
        assert r[i] == mid[0] && r[i - 1] == bs[lo - 1];
      } else if i < lo + m {
        assert r[i] == mid[i - lo] && r[i - 1] == mid[i - lo - 1];
      } else if i == lo + m {
        assert r[i] == bs[hi] && r[i - 1] == mid[m - 1];
      } else {
        assert r[i] == bs[i - lo - m + hi] && r[i - 1] == bs[i - lo - m + hi - 1];
      }
    }
  }

  lemma SpliceFreeTagged(bs: seq<MemoryBlock>, lo: nat, hi: nat, mid: seq<MemoryBlock>)
    requires lo <= hi <= |bs|
    requires FreeTagged(bs) && FreeTagged(mid)
    ensures FreeTagged(Splice(bs, lo, hi, mid))
  {
    var r := Splice(bs, lo, hi, mid);
    forall i | 0 <= i < |r| && r[i].isFree
      ensures r[i].pid == NO_PROCESS
    {
      if i < lo {
        assert r[i] == bs[i];
      } else if i < lo + |mid| {
        assert r[i] == mid[i - lo];
      } else {
        assert r[i] == bs[i - lo - |mid| + hi];
      }
    }
  }

  lemma {:induction false} FreeSpaceConcat(a: seq<MemoryBlock>, b: seq<MemoryBlock>)
    ensures FreeSpace(a + b) == FreeSpace(a) + FreeSpace(b)
  {
    if |a| == 0 {
      assert a + b == b;
    } else {
      assert (a + b)[1..] == a[1..] + b;
      FreeSpaceConcat(a[1..], b);
    }
  }

  lemma {:induction false} ReportConcat(a: seq<MemoryBlock>, b: seq<MemoryBlock>)
    ensures Report(a + b) == Report(a) + Report(b)
  {
    if |a| == 0 {
      assert a + b == b;
    } else {
      assert (a + b)[1..] == a[1..] + b;
      ReportConcat(a[1..], b);
    }
  }

  /** Free space and the report of a splice are those of its three parts. */
  lemma SpliceAccounting(bs: seq<MemoryBlock>, lo: nat, hi: nat, mid: seq<MemoryBlock>)
    requires lo <= hi <= |bs|
    ensures FreeSpace(Splice(bs, lo, hi, mid)) + FreeSpace(bs[lo..hi]) == FreeSpace(bs) + FreeSpace(mid)
    ensures Report(Splice(bs, lo, hi, mid)) == Report(bs[..lo]) + Report(mid) + Report(bs[hi..])
    ensures Report(bs) == Report(bs[..lo]) + Report(bs[lo..hi]) + Report(bs[hi..])
  {
    assert bs == bs[..lo] + bs[lo..hi] + bs[hi..];
    FreeSpaceConcat(bs[..lo] + bs[lo..hi], bs[hi..]);
    FreeSpaceConcat(bs[..lo], bs[lo..hi]);
    FreeSpaceConcat(bs[..lo] + mid, bs[hi..]);
    FreeSpaceConcat(bs[..lo], mid);
    ReportConcat(bs[..lo] + bs[lo..hi], bs[hi..]);
    ReportConcat(bs[..lo], bs[lo..hi]);
    ReportConcat(bs[..lo] + mid, bs[hi..]);
    ReportConcat(bs[..lo], mid);
  }

  // ---------------------------------------------------------------------
  // Allocation

  /** A successful allocation keeps the allocator's invariant. */
  lemma AllocateWellFormed(bs: seq<MemoryBlock>, total: nat, size: nat, pid: int)
    requires WellFormed(bs, total)
    requires Allocate(bs, size, pid).Some?
    ensures WellFormed(Allocate(bs, size, pid).value.blocks, total)
  {
    AllocateTiles(bs, total, size, pid);
    AllocateNoAdjacentFree(bs, size, pid);
    AllocateFreeTagged(bs, size, pid);
  }

  /** The run that replaces the chosen block: the taken part, then any
      free remainder. */
  function AllocatedRun(b: MemoryBlock, size: nat, pid: int): seq<MemoryBlock> {
    [MemoryBlock(b.start, size, false, pid)]
      + (if b.size > size then [MemoryBlock(b.start + size, b.size - size, true, NO_PROCESS)] else [])
  }

  lemma AllocateIsSplice(bs: seq<MemoryBlock>, size: nat, pid: int)
    requires Allocate(bs, size, pid).Some?
    ensures var k := WorstFit(bs, size).value;
      && bs[k].isFree && bs[k].size >= size
      && Allocate(bs, size, pid).value.blocks == Splice(bs, k, k + 1, AllocatedRun(bs[k], size, pid))
  {
  }

  lemma AllocateTiles(bs: seq<MemoryBlock>, total: nat, size: nat, pid: int)
    requires Tiles(bs, total) && Allocate(bs, size, pid).Some?
    ensures Tiles(Allocate(bs, size, pid).value.blocks, total)
  {
    var k := WorstFit(bs, size).value;
    AllocateIsSplice(bs, size, pid);
    assert TilesFrom(AllocatedRun(bs[k], size, pid), bs[k].start, End(bs[k]));
    SpliceTiles(bs, k, k + 1, AllocatedRun(bs[k], size, pid), 0, total);
  }

  lemma AllocateNoAdjacentFree(bs: seq<MemoryBlock>, size: nat, pid: int)
    requires NoAdjacentFree(bs) && Allocate(bs, size, pid).Some?
    ensures NoAdjacentFree(Allocate(bs, size, pid).value.blocks)
  {
    var k := WorstFit(bs, size).value;
    AllocateIsSplice(bs, size, pid);
    assert k + 1 < |bs| ==> !bs[k + 1].isFree by {
      if k + 1 < |bs| {
        assert !(bs[k + 1 - 1].isFree && bs[k + 1].isFree);
      }
    }
    SpliceNoAdjacentFree(bs, k, k + 1, AllocatedRun(bs[k], size, pid));
  }

  lemma AllocateFreeTagged(bs: seq<MemoryBlock>, size: nat, pid: int)
    requires FreeTagged(bs) && Allocate(bs, size, pid).Some?
    ensures FreeTagged(Allocate(bs, size, pid).value.blocks)
  {
    var k := WorstFit(bs, size).value;
    AllocateIsSplice(bs, size, pid);
    SpliceFreeTagged(bs, k, k + 1, AllocatedRun(bs[k], size, pid));
  }

  /** A successful allocation takes exactly `size` from the free space, and
      the report gains exactly the new entry, at its address position. */
  lemma AllocateAccounting(bs: seq<MemoryBlock>, size: nat, pid: int)
    requires Allocate(bs, size, pid).Some?
    ensures var k := WorstFit(bs, size).value;
      var a := Allocate(bs, size, pid).value;
      && FreeSpace(a.blocks) + size == FreeSpace(bs)
      && a.item == MemoryItem(bs[k].start, size, pid)
      && Report(a.blocks) == Report(bs[..k]) + [a.item] + Report(bs[k + 1..])
      && Report(bs) == Report(bs[..k]) + Report(bs[k + 1..])
  {
    var k := WorstFit(bs, size).value;
    var b := bs[k];
    var a := Allocate(bs, size, pid).value;
    var taken := MemoryBlock(b.start, size, false, pid);
    var rest := if b.size > size then [MemoryBlock(b.start + size, b.size - size, true, NO_PROCESS)] else [];
    var mid := [taken] + rest;
    assert a.blocks == Splice(bs, k, k + 1, mid);
    assert bs[k..k + 1] == [b];
    SingleBlock(b);
    SingleBlock(taken);
    assert FreeSpace(mid) == FreeSpace(rest) && Report(mid) == [a.item] + Report(rest) by {
      FreeSpaceConcat([taken], rest);
      ReportConcat([taken], rest);
    }
    assert FreeSpace(rest) == b.size - size && Report(rest) == [] by {
      if b.size > size {
        SingleBlock(rest[0]);
      }
    }
    assert FreeSpace(a.blocks) + size == FreeSpace(bs) by {
      SpliceAccounting(bs, k, k + 1, mid);
    }
    assert Report(a.blocks) == Report(bs[..k]) + [a.item] + Report(bs[k + 1..]) by {
      SpliceAccounting(bs, k, k + 1, mid);
      assert [a.item] + [] == [a.item];
    }
    assert Report(bs) == Report(bs[..k]) + Report(bs[k + 1..]) by {
      SpliceAccounting(bs, k, k + 1, mid);
      assert Report(bs[..k]) + [] == Report(bs[..k]);
    }
  }

  /** Where the allocation lands: blocks before the chosen one are
      untouched, the chosen block keeps its start and is now occupied by
      `pid` with exactly `size`, a remainder becomes a free block right after
      it, and the blocks after it follow unchanged. */
  lemma AllocateShape(bs: seq<MemoryBlock>, size: nat, pid: int)
    requires Allocate(bs, size, pid).Some?
    ensures var k := WorstFit(bs, size).value;
      var r := Allocate(bs, size, pid).value.blocks;
      var split := bs[k].size > size;
      var after := if split then k + 2 else k + 1;
      && |r| == |bs| + (after - k - 1)
      && r[..k] == bs[..k]
      && r[k] == MemoryBlock(bs[k].start, size, false, pid)
      && (split ==> r[k + 1] == MemoryBlock(bs[k].start + size, bs[k].size - size, true, NO_PROCESS))
      && r[after..] == bs[k + 1..]
  {
    var k := WorstFit(bs, size).value;
    var b := bs[k];
    var taken := MemoryBlock(b.start, size, false, pid);
    var rest := if b.size > size then [MemoryBlock(b.start + size, b.size - size, true, NO_PROCESS)] else [];
    var r := Allocate(bs, size, pid).value.blocks;
    assert r == bs[..k] + ([taken] + rest) + bs[k + 1..];
  }

  // ---------------------------------------------------------------------
  // Deallocation

  /** Neighbour pair (k - 1, k) is not a pair of free blocks. */
  ghost predicate PairOk(bs: seq<MemoryBlock>, k: int)
    requires 0 < k < |bs|
  {
    !(bs[k - 1].isFree && bs[k].isFree)
  }

  /** Every neighbour pair not involving block `i` is fine. */
  ghost predicate NoAdjacentFreeAround(bs: seq<MemoryBlock>, i: nat) {
    forall k :: 0 < k < |bs| && k != i && k != i + 1 ==> PairOk(bs, k)
  }

  /** Every neighbour pair except (i, i + 1) is fine. */
  ghost predicate NoAdjacentFreeAfter(bs: seq<MemoryBlock>, i: nat) {
    forall k :: 0 < k < |bs| && k != i + 1 ==> PairOk(bs, k)
  }

  /** Merging two free neighbours at (lo, lo + 1) keeps tiling, owner tags,
      free space and the report. */
  lemma MergePair(bs: seq<MemoryBlock>, lo: nat, a: nat, z: nat)
    requires lo + 1 < |bs| && bs[lo].isFree && bs[lo + 1].isFree
    requires TilesFrom(bs, a, z) && FreeTagged(bs)
    ensures var r := Splice(bs, lo, lo + 2, [bs[lo].(size := bs[lo].size + bs[lo + 1].size)]);
      && TilesFrom(r, a, z) && FreeTagged(r)
      && FreeSpace(r) == FreeSpace(bs)
      && Report(r) == Report(bs)
  {
    MergePairShape(bs, lo, a, z);
    MergePairAccounting(bs, lo);
  }

  lemma MergePairShape(bs: seq<MemoryBlock>, lo: nat, a: nat, z: nat)
    requires lo + 1 < |bs| && bs[lo].isFree && bs[lo + 1].isFree
    requires TilesFrom(bs, a, z) && FreeTagged(bs)
    ensures var r := Splice(bs, lo, lo + 2, [bs[lo].(size := bs[lo].size + bs[lo + 1].size)]);
      TilesFrom(r, a, z) && FreeTagged(r)
  {
    MergePairTiles(bs, lo, a, z);
    MergePairTagged(bs, lo);
  }

  lemma MergePairTiles(bs: seq<MemoryBlock>, lo: nat, a: nat, z: nat)
    requires lo + 1 < |bs| && TilesFrom(bs, a, z)
    ensures TilesFrom(Splice(bs, lo, lo + 2, [bs[lo].(size := bs[lo].size + bs[lo + 1].size)]), a, z)
  {
    var m := bs[lo].(size := bs[lo].size + bs[lo + 1].size);
    assert bs[lo + 1].start == End(bs[lo]);
    assert TilesFrom([m], bs[lo].start, End(bs[lo + 1]));
    SpliceTiles(bs, lo, lo + 2, [m], a, z);
  }

  lemma MergePairTagged(bs: seq<MemoryBlock>, lo: nat)
    requires lo + 1 < |bs| && bs[lo].isFree && FreeTagged(bs)
    ensures FreeTagged(Splice(bs, lo, lo + 2, [bs[lo].(size := bs[lo].size + bs[lo + 1].size)]))
  {
    var m := bs[lo].(size := bs[lo].size + bs[lo + 1].size);
    assert FreeTagged([m]);
    SpliceFreeTagged(bs, lo, lo + 2, [m]);
  }

  lemma MergePairAccounting(bs: seq<MemoryBlock>, lo: nat)
    requires lo + 1 < |bs| && bs[lo].isFree && bs[lo + 1].isFree
    ensures var r := Splice(bs, lo, lo + 2, [bs[lo].(size := bs[lo].size + bs[lo + 1].size)]);
      FreeSpace(r) == FreeSpace(bs) && Report(r) == Report(bs)
  {
    var p, x, y, q := bs[..lo], bs[lo], bs[lo + 1], bs[lo + 2..];
    assert bs == p + [x] + [y] + q;
    assert Splice(bs, lo, lo + 2, [x.(size := x.size + y.size)]) == p + [x.(size := x.size + y.size)] + q;
    MergeAccounting(p, x, y, q);
  }

  /** Two free neighbours merged into one hold the same free space and
      report nothing, as before. */
  lemma MergeAccounting(p: seq<MemoryBlock>, x: MemoryBlock, y: MemoryBlock, q: seq<MemoryBlock>)
    requires x.isFree && y.isFree
    ensures FreeSpace(p + [x.(size := x.size + y.size)] + q) == FreeSpace(p + [x] + [y] + q)
    ensures Report(p + [x.(size := x.size + y.size)] + q) == Report(p + [x] + [y] + q)
  {
    ThreeParts(p, x.(size := x.size + y.size), q);
    ThreeParts(p + [x], y, q);
    FreeSpaceConcat(p, [x]);
    ReportConcat(p, [x]);
    SingleBlock(x);
    assert Report(p) + [] == Report(p);
  }

  lemma {:induction false} MergeBackwardKeeps(bs: seq<MemoryBlock>, i: nat, a: nat, z: nat)
    requires i < |bs| && bs[i].isFree
    requires TilesFrom(bs, a, z) && FreeTagged(bs)
    ensures var r := MergeBackward(bs, i);
      && TilesFrom(r.0, a, z) && FreeTagged(r.0)
      && r.0[r.1].isFree
      && FreeSpace(r.0) == FreeSpace(bs)
      && Report(r.0) == Report(bs)
  {
    MergeBackwardShape(bs, i, a, z);
    MergeBackwardAccounting(bs, i);
  }

  lemma MergeBackwardShape(bs: seq<MemoryBlock>, i: nat, a: nat, z: nat)
    requires i < |bs| && bs[i].isFree
    requires TilesFrom(bs, a, z) && FreeTagged(bs)
    ensures var r := MergeBackward(bs, i);
      TilesFrom(r.0, a, z) && FreeTagged(r.0) && r.0[r.1].isFree
  {
    MergeBackwardTiles(bs, i, a, z);
    MergeBackwardTagged(bs, i);
  }

  lemma {:induction false} MergeBackwardTiles(bs: seq<MemoryBlock>, i: nat, a: nat, z: nat)
    requires i < |bs| && TilesFrom(bs, a, z)
    ensures TilesFrom(MergeBackward(bs, i).0, a, z)
    decreases i
  {
    if i > 0 && bs[i - 1].isFree {
      var m := bs[i - 1].(size := bs[i - 1].size + bs[i].size);
      var next := bs[..i - 1] + [m] + bs[i + 1..];
      assert TilesFrom(next, a, z) by {
        assert next == Splice(bs, i - 1, i + 1, [m]);
        MergePairTiles(bs, i - 1, a, z);
      }
      assert MergeBackward(bs, i) == MergeBackward(next, i - 1);
      MergeBackwardTiles(next, i - 1, a, z);
    }
  }

  lemma {:induction false} MergeBackwardTagged(bs: seq<MemoryBlock>, i: nat)
    requires i < |bs| && bs[i].isFree && FreeTagged(bs)
    ensures FreeTagged(MergeBackward(bs, i).0) && MergeBackward(bs, i).0[MergeBackward(bs, i).1].isFree
    decreases i
  {
    if i > 0 && bs[i - 1].isFree {
      var m := bs[i - 1].(size := bs[i - 1].size + bs[i].size);
      var next := bs[..i - 1] + [m] + bs[i + 1..];
      assert FreeTagged(next) && next[i - 1].isFree by {
        assert next == Splice(bs, i - 1, i + 1, [m]);
        MergePairTagged(bs, i - 1);
        assert next[i - 1] == m;
      }
      assert MergeBackward(bs, i) == MergeBackward(next, i - 1);
      MergeBackwardTagged(next, i - 1);
    }
  }

  lemma {:induction false} MergeBackwardAccounting(bs: seq<MemoryBlock>, i: nat)
    requires i < |bs| && bs[i].isFree
    ensures var r := MergeBackward(bs, i);
      FreeSpace(r.0) == FreeSpace(bs) && Report(r.0) == Report(bs)
    decreases i
  {
    if i > 0 && bs[i - 1].isFree {
      var m := bs[i - 1].(size := bs[i - 1].size + bs[i].size);
      var next := bs[..i - 1] + [m] + bs[i + 1..];
      assert next == Splice(bs, i - 1, i + 1, [m]);
      MergePairAccounting(bs, i - 1);
      assert next[i - 1] == m;
      MergeBackwardAccounting(next, i - 1);
    }
  }

  lemma {:induction false} MergeBackwardCoalesces(bs: seq<MemoryBlock>, i: nat)
    requires i < |bs| && bs[i].isFree
    requires NoAdjacentFreeAround(bs, i)
    ensures var r := MergeBackward(bs, i);
      NoAdjacentFreeAfter(r.0, r.1) && r.0[r.1].isFree
    decreases i
  {
    if i > 0 && bs[i - 1].isFree {
      var m := bs[i - 1].(size := bs[i - 1].size + bs[i].size);
      var next := bs[..i - 1] + [m] + bs[i + 1..];
      assert MergeBackward(bs, i) == MergeBackward(next, i - 1);
      assert |next| == |bs| - 1;
      forall k | 0 < k < |next| && k != i - 1 && k != i
        ensures PairOk(next, k)
      {
        if k < i - 1 {
          assert next[k] == bs[k] && next[k - 1] == bs[k - 1];
          assert PairOk(bs, k);
        } else {
          assert next[k] == bs[k + 1] && next[k - 1] == bs[k];
          assert PairOk(bs, k + 1);
        }
      }
      assert next[i - 1] == m;
      MergeBackwardCoalesces(next, i - 1);
    } else {
      forall k | 0 < k < |bs| && k != i + 1
        ensures PairOk(bs, k)
      {
        if k != i {
          assert PairOk(bs, k);
        }
      }
    }
  }

  lemma {:induction false} MergeForwardFacts(bs: seq<MemoryBlock>, i: nat, a: nat, z: nat)
    requires i < |bs| && bs[i].isFree
    requires TilesFrom(bs, a, z) && FreeTagged(bs) && NoAdjacentFreeAfter(bs, i)
    ensures var r := MergeForward(bs, i);
      && TilesFrom(r, a, z) && FreeTagged(r) && NoAdjacentFree(r)
      && FreeSpace(r) == FreeSpace(bs)
      && Report(r) == Report(bs)
    decreases |bs| - i
  {
    if i + 1 < |bs| && bs[i + 1].isFree {
      var m := bs[i].(size := bs[i].size + bs[i + 1].size);
      var next := bs[..i] + [m] + bs[i + 2..];
      assert next == Splice(bs, i, i + 2, [m]);
      MergePair(bs, i, a, z);
      forall k | 0 < k < |next| && k != i + 1
        ensures PairOk(next, k)
      {
        if k < i {
          assert next[k] == bs[k] && next[k - 1] == bs[k - 1];
          assert PairOk(bs, k);
        } else if k == i {
          assert next[k] == m && next[k - 1] == bs[k - 1];
          assert PairOk(bs, k);
        } else {
          assert next[k] == bs[k + 1] && next[k - 1] == bs[k];
          assert PairOk(bs, k + 1);
        }
      }
      MergeForwardFacts(next, i, a, z);
    } else {
      forall k | 0 < k < |bs|
        ensures !(bs[k - 1].isFree && bs[k].isFree)
      {
        assert PairOk(bs, k);
      }
    }
  }

  /** Deallocation keeps the allocator's invariant: the blocks still tile the
      address space and no two neighbouring blocks are free. */
  lemma DeallocateWellFormed(bs: seq<MemoryBlock>, total: nat, pid: int)
    requires WellFormed(bs, total)
    ensures WellFormed(Deallocate(bs, pid), total)
  {
    DeallocateFacts(bs, total, pid);
  }

  /** Deallocation returns exactly the owned block's size to the free space,
      and drops exactly that block's entry from the report. */
  lemma DeallocateAccounting(bs: seq<MemoryBlock>, total: nat, pid: int)
    requires WellFormed(bs, total)
    requires FindOwned(bs, pid, 0).Some?
    ensures var k := FindOwned(bs, pid, 0).value;
      && FreeSpace(Deallocate(bs, pid)) == FreeSpace(bs) + bs[k].size
      && Report(Deallocate(bs, pid)) == Report(bs[..k]) + Report(bs[k + 1..])
      && Report(bs) == Report(bs[..k]) + [ItemOf(bs[k])] + Report(bs[k + 1..])
  {
    DeallocateFacts(bs, total, pid);
  }

  lemma MarkFreeFacts(bs: seq<MemoryBlock>, total: nat, k: nat)
    requires WellFormed(bs, total) && k < |bs| && !bs[k].isFree
    ensures var marked := MarkFree(bs, k);
      && TilesFrom(marked, 0, total) && FreeTagged(marked)
      && NoAdjacentFreeAround(marked, k) && marked[k].isFree
      && FreeSpace(marked) == FreeSpace(bs) + bs[k].size
      && Report(marked) == Report(bs[..k]) + Report(bs[k + 1..])
      && Report(bs) == Report(bs[..k]) + [ItemOf(bs[k])] + Report(bs[k + 1..])
  {
    MarkFreeShape(bs, total, k);
    MarkFreeAccounting(bs, k);
    MarkFreeAround(bs, k);
  }

  /** Freeing block `k` keeps the tiling and the owner tags. */
  lemma MarkFreeShape(bs: seq<MemoryBlock>, total: nat, k: nat)
    requires TilesFrom(bs, 0, total) && FreeTagged(bs) && k < |bs|
    ensures TilesFrom(MarkFree(bs, k), 0, total) && FreeTagged(MarkFree(bs, k)) && MarkFree(bs, k)[k].isFree
  {
    var fb := bs[k].(isFree := true, pid := NO_PROCESS);
    MarkFreeIsSplice(bs, k);
    assert TilesFrom([fb], bs[k].start, End(bs[k]));
    SpliceTiles(bs, k, k + 1, [fb], 0, total);
    SpliceFreeTagged(bs, k, k + 1, [fb]);
  }

  lemma MarkFreeIsSplice(bs: seq<MemoryBlock>, k: nat)
    requires k < |bs|
    ensures MarkFree(bs, k) == bs[..k] + [bs[k].(isFree := true, pid := NO_PROCESS)] + bs[k + 1..]
    ensures MarkFree(bs, k) == Splice(bs, k, k + 1, [bs[k].(isFree := true, pid := NO_PROCESS)])
    ensures bs == bs[..k] + [bs[k]] + bs[k + 1..]
  {
  }

  /** Freeing block `k` adds its size to the free space and drops its entry
      from the report. */
  lemma MarkFreeAccounting(bs: seq<MemoryBlock>, k: nat)
    requires k < |bs| && !bs[k].isFree
    ensures FreeSpace(MarkFree(bs, k)) == FreeSpace(bs) + bs[k].size
    ensures Report(MarkFree(bs, k)) == Report(bs[..k]) + Report(bs[k + 1..])
    ensures Report(bs) == Report(bs[..k]) + [ItemOf(bs[k])] + Report(bs[k + 1..])
  {
    var fb := bs[k].(isFree := true, pid := NO_PROCESS);
    var a, c := bs[..k], bs[k + 1..];
    assert FreeSpace(bs) == FreeSpace(a) + FreeSpace(c) && Report(bs) == Report(a) + [ItemOf(bs[k])] + Report(c) by {
      MarkFreeIsSplice(bs, k);
      ThreeParts(a, bs[k], c);
    }
    assert FreeSpace(MarkFree(bs, k)) == FreeSpace(a) + bs[k].size + FreeSpace(c) by {
      MarkFreeIsSplice(bs, k);
      ThreeParts(a, fb, c);
    }
    assert Report(MarkFree(bs, k)) == Report(a) + Report(c) by {
      MarkFreeIsSplice(bs, k);
      ThreeParts(a, fb, c);
      assert Report(a) + [] == Report(a);
    }
  }

  /** Free space and report of a run with one block in the middle. */
  lemma ThreeParts(a: seq<MemoryBlock>, x: MemoryBlock, c: seq<MemoryBlock>)
    ensures FreeSpace(a + [x] + c) == FreeSpace(a) + (if x.isFree then x.size else 0) + FreeSpace(c)
    ensures Report(a + [x] + c) == Report(a) + (if x.isFree then [] else [ItemOf(x)]) + Report(c)
  {
    FreeSpaceConcat(a + [x], c);
    FreeSpaceConcat(a, [x]);
    ReportConcat(a + [x], c);
    ReportConcat(a, [x]);
    SingleBlock(x);
  }

  /** Free space and report of a single block. */
  lemma SingleBlock(b: MemoryBlock)
    ensures FreeSpace([b]) == (if b.isFree then b.size else 0)
    ensures Report([b]) == (if b.isFree then [] else [ItemOf(b)])
  {
    assert [b][1..] == [];
  }

  /** Freeing block `k` can create free neighbours only next to `k`. */
  lemma MarkFreeAround(bs: seq<MemoryBlock>, k: nat)
    requires NoAdjacentFree(bs) && k < |bs|
    ensures NoAdjacentFreeAround(MarkFree(bs, k), k)
  {
    var marked := MarkFree(bs, k);
    forall j | 0 < j < |marked| && j != k && j != k + 1
      ensures PairOk(marked, j)
    {
      assert marked[j] == bs[j] && marked[j - 1] == bs[j - 1];
    }
  }

  lemma DeallocateFacts(bs: seq<MemoryBlock>, total: nat, pid: int)
    requires WellFormed(bs, total)
    ensures WellFormed(Deallocate(bs, pid), total)
    ensures FindOwned(bs, pid, 0).Some? ==>
      var k := FindOwned(bs, pid, 0).value;
      && FreeSpace(Deallocate(bs, pid)) == FreeSpace(bs) + bs[k].size
      && Report(Deallocate(bs, pid)) == Report(bs[..k]) + Report(bs[k + 1..])
      && Report(bs) == Report(bs[..k]) + [ItemOf(bs[k])] + Report(bs[k + 1..])
  {
    if FindOwned(bs, pid, 0).Some? {
      var k := FindOwned(bs, pid, 0).value;
      var marked := MarkFree(bs, k);
      MarkFreeFacts(bs, total, k);
      MergeBackwardKeeps(marked, k, 0, total);
      MergeBackwardCoalesces(marked, k);
      var back := MergeBackward(marked, k);
      MergeForwardFacts(back.0, back.1, 0, total);
      assert Deallocate(bs, pid) == MergeForward(back.0, back.1);
    }
  }

  // ---------------------------------------------------------------------
  // The first block

  /** Allocation only ever takes a free block, so an occupied first block
      stays as it is. */
  lemma AllocateKeepsFirst(bs: seq<MemoryBlock>, size: nat, pid: int)
    requires Allocate(bs, size, pid).Some? && |bs| > 0 && !bs[0].isFree
    ensures Allocate(bs, size, pid).value.blocks[0] == bs[0]
  {
    AllocateShape(bs, size, pid);
    var k := WorstFit(bs, size).value;
    assert k != 0;
    assert Allocate(bs, size, pid).value.blocks[..k][0] == bs[..k][0];
  }

  /** Merging backward from a free block never reaches an occupied first
      block. */
  lemma {:induction false} MergeBackwardKeepsFirst(bs: seq<MemoryBlock>, i: nat)
    requires i < |bs| && bs[i].isFree && !bs[0].isFree
    ensures MergeBackward(bs, i).0[0] == bs[0] && MergeBackward(bs, i).1 > 0
    decreases i
  {
    if i > 0 && bs[i - 1].isFree {
      var merged := bs[i - 1].(size := bs[i - 1].size + bs[i].size);
      var next := bs[..i - 1] + [merged] + bs[i + 1..];
      assert next[0] == bs[0] && next[i - 1].isFree;
      MergeBackwardKeepsFirst(next, i - 1);
    }
  }

  /** Merging forward from block `i > 0` never touches block 0. */
  lemma {:induction false} MergeForwardKeepsFirst(bs: seq<MemoryBlock>, i: nat)
    requires 0 < i < |bs|
    ensures MergeForward(bs, i)[0] == bs[0]
    decreases |bs| - i
  {
    if i + 1 < |bs| && bs[i + 1].isFree {
      var merged := bs[i].(size := bs[i].size + bs[i + 1].size);
      var next := bs[..i] + [merged] + bs[i + 2..];
      assert next[0] == bs[0];
      MergeForwardKeepsFirst(next, i);
    }
  }

  /** Releasing another owner's memory leaves an occupied first block as it
      is. */
  lemma DeallocateKeepsFirst(bs: seq<MemoryBlock>, pid: int)
    requires |bs| > 0 && !bs[0].isFree && bs[0].pid != pid
    ensures |Deallocate(bs, pid)| > 0 && Deallocate(bs, pid)[0] == bs[0]
  {
    if FindOwned(bs, pid, 0).Some? {
      var k := FindOwned(bs, pid, 0).value;
      var marked := MarkFree(bs, k);
      assert k != 0 && marked[0] == bs[0] && marked[k].isFree;
      MergeBackwardKeepsFirst(marked, k);
      var back := MergeBackward(marked, k);
      MergeForwardKeepsFirst(back.0, back.1);
    }
  }

  // ---------------------------------------------------------------------
  // Whole-space facts and the memory report

  /** When the blocks tile [lo, hi), their sizes add up to hi - lo. */
  lemma {:induction false} TilesSizeSum(bs: seq<MemoryBlock>, lo: nat, hi: nat)
    requires TilesFrom(bs, lo, hi)
    ensures SizeSum(bs) == hi - lo
    decreases |bs|
  {
    if |bs| > 1 {
      var tl := bs[1..];
      forall i | 0 < i < |tl|
        ensures tl[i].start == End(tl[i - 1])
      {
        assert tl[i] == bs[i + 1] && tl[i - 1] == bs[i];
      }
      assert TilesFrom(tl, End(bs[0]), hi);
      TilesSizeSum(tl, End(bs[0]), hi);
    } else {
      assert SizeSum(bs[1..]) == 0;
    }
  }

  /** Report entries are in address order and do not overlap. */
  ghost predicate AddressOrdered(items: MemoryUse) {
    forall i :: 0 < i < |items| ==> items[i - 1].itemAddress + items[i - 1].itemSize <= items[i].itemAddress
  }

  /** The report of contiguous blocks starting at `lo` lies at or above `lo`
      and is address ordered. */
  lemma {:induction false} ReportOrdered(bs: seq<MemoryBlock>)
    requires Contiguous(bs)
    ensures AddressOrdered(Report(bs))
    ensures |bs| > 0 ==> forall i :: 0 <= i < |Report(bs)| ==> Report(bs)[i].itemAddress >= bs[0].start
    decreases |bs|
  {
    if |bs| > 0 {
      var tl := bs[1..];
      assert Contiguous(tl) by {
        forall i | 0 < i < |tl| ensures tl[i].start == End(tl[i - 1]) {
          assert tl[i] == bs[i + 1] && tl[i - 1] == bs[i];
        }
      }
      ReportOrdered(tl);
      assert |tl| > 0 ==> tl[0].start == End(bs[0]);
      ReportCons(bs[0], Report(tl));
      assert Report(bs) == (if bs[0].isFree then [] else [ItemOf(bs[0])]) + Report(tl);
    }
  }

  /** Putting a block's entry in front of an ordered report of what follows
      the block keeps it ordered. */
  lemma ReportCons(b: MemoryBlock, rt: MemoryUse)
    requires AddressOrdered(rt)
    requires forall i :: 0 <= i < |rt| ==> rt[i].itemAddress >= End(b)
    ensures var r := (if b.isFree then [] else [ItemOf(b)]) + rt;
      AddressOrdered(r) && forall i :: 0 <= i < |r| ==> r[i].itemAddress >= b.start
  {
    var head: MemoryUse := if b.isFree then [] else [ItemOf(b)];
    var r := head + rt;
    if |head| == 1 {
      assert r[0] == ItemOf(b);
      forall i | 0 < i < |r|
        ensures r[i].itemAddress >= End(b)
        ensures r[i - 1].itemAddress + r[i - 1].itemSize <= r[i].itemAddress
      {
        assert r[i] == rt[i - 1];
        if i > 1 {
          assert r[i - 1] == rt[i - 2];
        }
      }
    } else {
      assert r == rt;
    }
  }

  /** The report lists exactly the occupied blocks. */
  lemma {:induction false} ReportExact(bs: seq<MemoryBlock>, item: MemoryItem)
    ensures item in Report(bs) <==> exists j :: 0 <= j < |bs| && !bs[j].isFree && ItemOf(bs[j]) == item
    decreases |bs|
  {
    if |bs| > 0 {
      ReportExact(bs[1..], item);
      if exists j :: 0 <= j < |bs| && !bs[j].isFree && ItemOf(bs[j]) == item {
        var j :| 0 <= j < |bs| && !bs[j].isFree && ItemOf(bs[j]) == item;
        if j > 0 {
          assert bs[1..][j - 1] == bs[j];
        }
      }
      if item in Report(bs[1..]) {
        var j :| 0 <= j < |bs| - 1 && !bs[1..][j].isFree && ItemOf(bs[1..][j]) == item;
        assert bs[j + 1] == bs[1..][j];
      }
    }
  }
}
