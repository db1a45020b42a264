/** The arena seen as the sequence of blocks that a walk from offset 0 meets:
    the abstract state the allocator of malloc_free.c keeps in the arena's own
    bytes. Every operation of the allocator is specified here as a function on
    this sequence; module Allocator proves the pointer-level code against them. */
module BlockModel {
  import opened HeapLayout

  /** A block `[off, End)`: its descriptor records `size`, the bytes after the
      descriptor. */
  datatype Block = Block(off: nat, free: bool, size: nat)

  /** Bytes a block occupies, its descriptor included. */
  function Footprint(b: Block): nat
  {
    b.size + (if b.free then NODE_SIZE else HEADER_SIZE)
  }

  function End(b: Block): nat
  {
    b.off + Footprint(b)
  }

  /** Each block starts where the previous one ends. */
  ghost predicate Contiguous(bs: seq<Block>)
  {
    forall i :: 0 <= i < |bs| - 1 ==> bs[i + 1].off == End(bs[i])
  }

  /** The tiling invariant: the blocks cover [0, SIZE_OF_HEAP) with no gap
      and no overlap. */
  ghost predicate Tiled(bs: seq<Block>)
  {
    && |bs| > 0
    && bs[0].off == 0
    && Contiguous(bs)
    && End(bs[|bs| - 1]) == SIZE_OF_HEAP
  }

  /** The non-adjacency invariant: no two free blocks are neighbours. */
  ghost predicate Coalesced(bs: seq<Block>)
  {
    forall i :: 0 <= i < |bs| - 1 ==> !(bs[i].free && bs[i + 1].free)
  }

  /** Free blocks, each one ending no later than the next one starts. */
  ghost predicate Apart(l: seq<Block>)
  {
    forall k, k' :: 0 <= k < k' < |l| ==> End(l[k]) <= l[k'].off
  }

  lemma {:induction false} ContiguousOrdered(bs: seq<Block>, i: nat, j: nat)
    requires Contiguous(bs) && i < j < |bs|
    ensures End(bs[i]) <= bs[j].off
    decreases j - i
  {
    if j > i + 1 {
      ContiguousOrdered(bs, i, j - 1);
    }
  }

  /** A block that comes later in a contiguous sequence starts after `bs[i]` ends. */
  lemma ContiguousAfter(bs: seq<Block>, i: nat, b: Block)
    requires Contiguous(bs) && i < |bs| && b in bs[i + 1..]
    ensures End(bs[i]) <= b.off
  {
    var t :| 0 <= t < |bs[i + 1..]| && bs[i + 1..][t] == b;
    ContiguousOrdered(bs, i, i + 1 + t);
  }

  /** A block that comes earlier in a contiguous sequence ends before `bs[i]` starts. */
  lemma ContiguousBefore(bs: seq<Block>, i: nat, b: Block)
    requires Contiguous(bs) && i < |bs| && b in bs[..i]
    ensures End(b) <= bs[i].off
  {
    var t :| 0 <= t < i && bs[t] == b;
    ContiguousOrdered(bs, t, i);
  }

  // ---------------------------------------------------------------- free list

  /** The free list: the free blocks in address order. */
  function FreeList(bs: seq<Block>): (l: seq<Block>)
    ensures |l| <= |bs|
  {
    if bs == [] then [] else (if bs[0].free then [bs[0]] else []) + FreeList(bs[1..])
  }

  /** Every entry of the free list is a free block of the sequence. */
  lemma {:induction false} FreeListMember(bs: seq<Block>, b: Block)
    requires b in FreeList(bs)
    ensures b in bs && b.free
  {
    var h := if bs[0].free then [bs[0]] else [];
    if b !in h {
      FreeListMember(bs[1..], b);
    }
  }

  lemma {:induction false} FreeListConcat(a: seq<Block>, b: seq<Block>)
    ensures FreeList(a + b) == FreeList(a) + FreeList(b)
  {
    if a != [] {
      assert (a + b)[0] == a[0];
      assert (a + b)[1..] == a[1..] + b;
      FreeListConcat(a[1..], b);
    } else {
      assert a + b == b;
    }
  }

  /** A sequence has an empty free list exactly when none of its blocks is free. */
  lemma {:induction false} FreeListEmpty(s: seq<Block>)
    ensures FreeList(s) == [] <==> forall t :: 0 <= t < |s| ==> !s[t].free
  {
    if s != [] {
      FreeListEmpty(s[1..]);
      assert forall t :: 1 <= t < |s| ==> s[t] == s[1..][t - 1];
    }
  }

  /** The free list of a contiguous sequence is in strictly increasing address
      order (it is even Apart). */
  lemma {:induction false} FreeListApart(bs: seq<Block>)
    requires Contiguous(bs)
    ensures Apart(FreeList(bs))
  {
    if bs != [] {
      var tail := FreeList(bs[1..]);
      assert Contiguous(bs[1..]) by {
        forall i | 0 <= i < |bs[1..]| - 1 ensures bs[1..][i + 1].off == End(bs[1..][i]) {
          assert bs[1..][i + 1] == bs[i + 2] && bs[1..][i] == bs[i + 1];
        }
      }
      FreeListApart(bs[1..]);
      if bs[0].free {
        var l := [bs[0]] + tail;
        forall k, k' | 0 <= k < k' < |l| ensures End(l[k]) <= l[k'].off {
          if k == 0 {
            assert l[k'] in tail;
            FreeListMember(bs[1..], l[k']);
            ContiguousAfter(bs, 0, l[k']);
          } else {
            assert l[k] == tail[k - 1] && l[k'] == tail[k' - 1];
          }
        }
      }
    }
  }

  /** Index in `bs` of the k-th free block. */
  function FreeIndex(bs: seq<Block>, k: nat): (i: nat)
    requires k < |FreeList(bs)|
    ensures i < |bs| && bs[i] == FreeList(bs)[k] && bs[i].free
  {
    if bs[0].free then
      if k == 0 then 0 else 1 + FreeIndex(bs[1..], k - 1)
    else
      1 + FreeIndex(bs[1..], k)
  }

  /** The free blocks before the k-th are the first k entries of the free list. */
  lemma {:induction false} FreeIndexPrefix(bs: seq<Block>, k: nat)
    requires k < |FreeList(bs)|
    ensures FreeList(bs[..FreeIndex(bs, k)]) == FreeList(bs)[..k]
  {
    if !(bs[0].free && k == 0) {
      var i := FreeIndex(bs, k);
      var k' := if bs[0].free then k - 1 else k;
      var i' := FreeIndex(bs[1..], k');
      FreeIndexPrefix(bs[1..], k');
      var pre := bs[..i];
      assert pre[0] == bs[0] && pre[1..] == bs[1..][..i'];
    }
  }

  /** The free blocks after the k-th are the entries of the free list after k. */
  lemma {:induction false} FreeIndexSuffix(bs: seq<Block>, k: nat)
    requires k < |FreeList(bs)|
    ensures FreeList(bs[FreeIndex(bs, k) + 1..]) == FreeList(bs)[k + 1..]
  {
    var tail := FreeList(bs[1..]);
    if bs[0].free {
      assert FreeList(bs) == [bs[0]] + tail;
    } else {
      assert FreeList(bs) == tail;
    }
    if !(bs[0].free && k == 0) {
      var k' := if bs[0].free then k - 1 else k;
      var i' := FreeIndex(bs[1..], k');
      assert FreeIndex(bs, k) == i' + 1;
      FreeIndexSuffix(bs[1..], k');
      DropTail(bs, i' + 1);
      if bs[0].free {
        assert ([bs[0]] + tail)[k + 1..] == tail[k' + 1..];
      }
    }
  }

  /** A suffix of the tail is a suffix of the sequence. */
  lemma DropTail(bs: seq<Block>, a: nat)
    requires 0 < |bs| && a < |bs|
    ensures bs[1..][a..] == bs[a + 1..]
  {
  }

  lemma FreeIndexSplit(bs: seq<Block>, k: nat)
    requires k < |FreeList(bs)|
    ensures FreeList(bs[..FreeIndex(bs, k)]) == FreeList(bs)[..k]
    ensures FreeList(bs[FreeIndex(bs, k) + 1..]) == FreeList(bs)[k + 1..]
  {
    FreeIndexPrefix(bs, k);
    FreeIndexSuffix(bs, k);
  }

  /** Total footprint of a list of blocks. */
  function FreeBytes(l: seq<Block>): nat
  {
    if l == [] then 0 else Footprint(l[0]) + FreeBytes(l[1..])
  }

  lemma {:induction false} FreeBytesConcat(a: seq<Block>, b: seq<Block>)
    ensures FreeBytes(a + b) == FreeBytes(a) + FreeBytes(b)
  {
    if a != [] {
      assert (a + b)[0] == a[0];
      assert (a + b)[1..] == a[1..] + b;
      FreeBytesConcat(a[1..], b);
    } else {
      assert a + b == b;
    }
  }

  // ---------------------------------------------------------------- splicing

  /** Replacing `bs[i..j]` by blocks that cover exactly the same range keeps
      the sequence contiguous. */
  lemma SpliceContiguous(bs: seq<Block>, i: nat, j: nat, mid: seq<Block>)
    requires Contiguous(bs) && i < j <= |bs|
    requires Contiguous(mid) && |mid| > 0
    requires mid[0].off == bs[i].off && End(mid[|mid| - 1]) == End(bs[j - 1])
    ensures Contiguous(bs[..i] + mid + bs[j..])
  {
    var r := bs[..i] + mid + bs[j..];
    var n := |mid|;
    forall t | 0 <= t < |r| - 1 ensures r[t + 1].off == End(r[t]) {
      if t + 1 < i {
        assert r[t] == bs[t] && r[t + 1] == bs[t + 1];
      } else if t + 1 == i {
        assert r[t] == bs[i - 1] && r[t + 1] == mid[0];
      } else if t + 1 < i + n {
        assert r[t] == mid[t - i] && r[t + 1] == mid[t - i + 1];
      } else if t + 1 == i + n {
        assert r[t] == mid[n - 1] && r[t + 1] == bs[j];
      } else {
        assert r[t] == bs[t - i - n + j] && r[t + 1] == bs[t - i - n + j + 1];
      }
    }
  }

  /** ... and keeps it a tiling of the arena. */
  lemma SpliceTiled(bs: seq<Block>, i: nat, j: nat, mid: seq<Block>)
    requires Tiled(bs) && i < j <= |bs|
    requires Contiguous(mid) && |mid| > 0
    requires mid[0].off == bs[i].off && End(mid[|mid| - 1]) == End(bs[j - 1])
    ensures Tiled(bs[..i] + mid + bs[j..])
  {
    SpliceContiguous(bs, i, j, mid);
    var r := bs[..i] + mid + bs[j..];
    if i > 0 { assert r[0] == bs[0]; } else { assert r[0] == mid[0]; }
    if j < |bs| { assert r[|r| - 1] == bs[|bs| - 1]; } else { assert r[|r| - 1] == mid[|mid| - 1]; }
  }

  // ---------------------------------------------------------------- coalescing

  /** One merge step of coalesce: a free block absorbs the free block after it,
      descriptor included. */
  function Merge(a: Block, b: Block): Block
  {
    Block(a.off, true, a.size + b.size + NODE_SIZE)
  }

  /** Merging the free blocks `bs[i]` and `bs[i + 1]`: the free list loses
      exactly one node, and neither the free bytes nor the tiling change. */
  function MergeAdjacent(bs: seq<Block>, i: nat): (r: seq<Block>)
    requires i + 1 < |bs| && bs[i].free && bs[i + 1].free
    ensures |r| == |bs| - 1
    ensures |FreeList(r)| + 1 == |FreeList(bs)|
    ensures FreeBytes(FreeList(r)) == FreeBytes(FreeList(bs))
    ensures Contiguous(bs) ==> Contiguous(r) && End(r[i]) == End(bs[i + 1])
    ensures Tiled(bs) ==> Tiled(r)
  {
    MergeAdjacentFacts(bs, i);
    bs[..i] + [Merge(bs[i], bs[i + 1])] + bs[i + 2..]
  }

  lemma MergeAdjacentFacts(bs: seq<Block>, i: nat)
    requires i + 1 < |bs| && bs[i].free && bs[i + 1].free
    ensures var r := bs[..i] + [Merge(bs[i], bs[i + 1])] + bs[i + 2..];
      && |FreeList(r)| + 1 == |FreeList(bs)|
      && FreeBytes(FreeList(r)) == FreeBytes(FreeList(bs))
      && (Contiguous(bs) ==> Contiguous(r) && End(r[i]) == End(bs[i + 1]))
      && (Tiled(bs) ==> Tiled(r))
  {
    var m := Merge(bs[i], bs[i + 1]);
    var r := bs[..i] + [m] + bs[i + 2..];
    var pair := [bs[i], bs[i + 1]];
    assert bs == bs[..i] + pair + bs[i + 2..];
    FreeListConcat(bs[..i] + [m], bs[i + 2..]);
    FreeListConcat(bs[..i], [m]);
    FreeListConcat(bs[..i] + pair, bs[i + 2..]);
    FreeListConcat(bs[..i], pair);
    assert FreeList(pair) == pair by {
      assert pair[1..] == [bs[i + 1]];
      assert [bs[i + 1]][1..] == [];
    }
    assert FreeList([m]) == [m] by { assert [m][1..] == []; }
    FreeBytesConcat(FreeList(bs[..i]) + [m], FreeList(bs[i + 2..]));
    FreeBytesConcat(FreeList(bs[..i]), [m]);
    FreeBytesConcat(FreeList(bs[..i]) + pair, FreeList(bs[i + 2..]));
    FreeBytesConcat(FreeList(bs[..i]), pair);
    assert FreeBytes(pair) == Footprint(m) by {
      assert pair[1..] == [bs[i + 1]];
      assert [bs[i + 1]][1..] == [];
    }
    assert FreeBytes([m]) == Footprint(m) by { assert [m][1..] == []; }
    if Contiguous(bs) {
      SpliceContiguous(bs, i, i + 2, [m]);
      assert r[i] == m;
    }
    if Tiled(bs) {
      SpliceTiled(bs, i, i + 2, [m]);
    }
  }

  /** coalesce as a function of the block sequence: one pass from the lowest
      address, merging a free block with its free successor and then looking at
      the same block again. The result has no two neighbouring free blocks. */
  function MergeRuns(bs: seq<Block>): (r: seq<Block>)
    ensures Coalesced(r)
    ensures |r| <= |bs|
    ensures |bs| > 0 ==> |r| > 0 && r[0].off == bs[0].off && r[0].free == bs[0].free
    decreases |bs|
  {
    if |bs| < 2 then bs
    else if bs[0].free && bs[1].free then MergeRuns(MergeAdjacent(bs, 0))
    else [bs[0]] + MergeRuns(bs[1..])
  }

  /** While no merge is due, coalescing leaves a prefix as it is. */
  lemma {:induction false} MergeRunsKeepsPrefix(bs: seq<Block>, a: nat, b: nat)
    requires a <= b <= |bs|
    requires forall t :: a <= t < b && t + 1 < |bs| ==> !(bs[t].free && bs[t + 1].free)
    ensures MergeRuns(bs[a..]) == bs[a..b] + MergeRuns(bs[b..])
    decreases b - a
  {
    if a < b {
      MergeRunsKeepsPrefix(bs, a + 1, b);
      KeepsPrefixStep(bs, a, b, MergeRuns(bs[b..]));
    } else {
      assert bs[a..b] == [];
    }
  }

  /** One step of MergeRunsKeepsPrefix: block a, which does not merge, is
      kept in front of what coalescing makes of the rest. */
  lemma KeepsPrefixStep(bs: seq<Block>, a: nat, b: nat, rest: seq<Block>)
    requires a < b <= |bs| && (a + 1 < |bs| ==> !(bs[a].free && bs[a + 1].free))
    requires MergeRuns(bs[a + 1..]) == bs[a + 1..b] + rest
    ensures MergeRuns(bs[a..]) == bs[a..b] + rest
  {
    var s := bs[a..];
    assert s[0] == bs[a] && s[1..] == bs[a + 1..];
    assert |s| > 1 ==> s[1] == bs[a + 1];
    MergeRunsUnfold(s);
    assert bs[a..b] == [bs[a]] + bs[a + 1..b];
  }

  /** When the first block does not merge with the second, coalescing keeps it. */
  lemma MergeRunsUnfold(s: seq<Block>)
    requires |s| > 0 && (|s| > 1 ==> !(s[0].free && s[1].free))
    ensures MergeRuns(s) == [s[0]] + MergeRuns(s[1..])
  {
    if |s| == 1 {
      assert s[1..] == [];
      assert s == [s[0]];
    }
  }

  /** Coalescing an already coalesced sequence changes nothing. */
  lemma MergeRunsIdentity(bs: seq<Block>)
    requires Coalesced(bs)
    ensures MergeRuns(bs) == bs
  {
    MergeRunsKeepsPrefix(bs, 0, |bs|);
    assert bs[0..] == bs && bs[0..|bs|] == bs && bs[|bs|..] == [];
  }

  /** Coalescing keeps the tiling. */
  lemma {:induction false} MergeRunsContiguous(bs: seq<Block>)
    requires Contiguous(bs) && |bs| > 0
    ensures Contiguous(MergeRuns(bs))
    ensures End(MergeRuns(bs)[|MergeRuns(bs)| - 1]) == End(bs[|bs| - 1])
    decreases |bs|
  {
    if |bs| >= 2 {
      if bs[0].free && bs[1].free {
        var m := MergeAdjacent(bs, 0);
        MergeRunsContiguous(m);
        if |bs| > 2 { assert m[|m| - 1] == bs[|bs| - 1]; }
      } else {
        var t := bs[1..];
        assert Contiguous(t) by {
          forall i | 0 <= i < |t| - 1 ensures t[i + 1].off == End(t[i]) {
            assert t[i + 1] == bs[i + 2] && t[i] == bs[i + 1];
          }
        }
        MergeRunsContiguous(t);
        var rt := MergeRuns(t);
        var r := [bs[0]] + rt;
        forall i | 0 <= i < |r| - 1 ensures r[i + 1].off == End(r[i]) {
          if i > 0 { assert r[i + 1] == rt[i] && r[i] == rt[i - 1]; }
        }
        assert r[|r| - 1] == rt[|rt| - 1];
        assert t[|t| - 1] == bs[|bs| - 1];
      }
    }
  }

  lemma MergeRunsTiled(bs: seq<Block>)
    requires Tiled(bs)
    ensures Tiled(MergeRuns(bs))
  {
    MergeRunsContiguous(bs);
  }

  /** Coalescing keeps the number of free bytes. */
  lemma {:induction false} MergeRunsFreeBytes(bs: seq<Block>)
    ensures FreeBytes(FreeList(MergeRuns(bs))) == FreeBytes(FreeList(bs))
    decreases |bs|
  {
    if |bs| >= 2 {
      if bs[0].free && bs[1].free {
        MergeRunsFreeBytes(MergeAdjacent(bs, 0));
      } else {
        MergeRunsFreeBytes(bs[1..]);
        var h := if bs[0].free then [bs[0]] else [];
        var rt := MergeRuns(bs[1..]);
        var r := [bs[0]] + rt;
        assert r[0] == bs[0] && r[1..] == rt;
        assert FreeList(r) == h + FreeList(rt);
        assert FreeList(bs) == h + FreeList(bs[1..]);
        FreeBytesConcat(h, FreeList(rt));
        FreeBytesConcat(h, FreeList(bs[1..]));
      }
    }
  }

  lemma MergeRunsPair(a: Block, b: Block, rest: seq<Block>)
    requires a.free && b.free
    ensures MergeRuns([a, b] + rest) == MergeRuns([Merge(a, b)] + rest)
  {
    var s := [a, b] + rest;
    assert s[0] == a && s[1] == b;
    assert MergeAdjacent(s, 0) == [Merge(a, b)] + rest by {
      assert s[..0] == [] && s[2..] == rest;
    }
  }

  lemma CoalescedSuffix(bs: seq<Block>, e: nat)
    requires Coalesced(bs) && e <= |bs|
    ensures Coalesced(bs[e..])
  {
    var t := bs[e..];
    forall i | 0 <= i < |t| - 1 ensures !(t[i].free && t[i + 1].free) {
      assert t[i] == bs[e + i] && t[i + 1] == bs[e + i + 1];
    }
  }

  /** A free block followed by a coalesced run that starts allocated is
      already coalesced. */
  lemma MergeRunsSettled(m: Block, rest: seq<Block>)
    requires Coalesced(rest) && (rest != [] ==> !rest[0].free)
    ensures MergeRuns([m] + rest) == [m] + rest
  {
    var s := [m] + rest;
    assert s[1..] == rest;
    MergeRunsUnfold(s);
    MergeRunsIdentity(rest);
  }

  // ---------------------------------------------------------------- release

  /** my_free turns an allocated block into a free one. The node's size is the
      header's size less sizeof(header_t) plus sizeof(node_t), which is the
      header's size again since the two descriptors are equally large. */
  function Release(b: Block): (r: Block)
    requires !b.free
    ensures r.free && r.off == b.off && End(r) == End(b)
  {
    Block(b.off, true, b.size + NODE_SIZE - HEADER_SIZE)
  }

  /** Index of the first block of the merged run a release at i produces. */
  function RunStart(bs: seq<Block>, i: nat): (s: nat)
    requires i < |bs|
    ensures s <= i && (s < i <==> i > 0 && bs[i - 1].free)
  {
    if i > 0 && bs[i - 1].free then i - 1 else i
  }

  /** Index just past the merged run a release at i produces. */
  function RunEnd(bs: seq<Block>, i: nat): (e: nat)
    requires i < |bs|
    ensures i < e <= |bs| && (e > i + 1 <==> i + 1 < |bs| && bs[i + 1].free)
  {
    if i + 1 < |bs| && bs[i + 1].free then i + 2 else i + 1
  }

  /** The single free block the release of bs[i] leaves behind. */
  function Released(bs: seq<Block>, i: nat): (m: Block)
    requires i < |bs| && !bs[i].free
    ensures m.free && m.off == bs[RunStart(bs, i)].off
  {
    var m0 := if i > 0 && bs[i - 1].free then Merge(bs[i - 1], Release(bs[i])) else Release(bs[i]);
    if i + 1 < |bs| && bs[i + 1].free then Merge(m0, bs[i + 1]) else m0
  }

  /** The blocks after freeing `bs[i]` in a coalesced sequence: the released
      block absorbs a free left neighbour and a free right neighbour. */
  function ReleaseMerged(bs: seq<Block>, i: nat): seq<Block>
    requires i < |bs| && !bs[i].free
  {
    bs[..RunStart(bs, i)] + [Released(bs, i)] + bs[RunEnd(bs, i)..]
  }

  /** Coalescing after a release leaves everything before the run alone. */
  lemma ReleasePrefix(bs: seq<Block>, i: nat)
    requires Coalesced(bs) && i < |bs| && !bs[i].free
    ensures var bs' := bs[i := Release(bs[i])];
            MergeRuns(bs') == bs[..RunStart(bs, i)] + MergeRuns(bs'[RunStart(bs, i)..])
  {
    var bs' := bs[i := Release(bs[i])];
    var s := RunStart(bs, i);
    forall t | 0 <= t < s && t + 1 < |bs'| ensures !(bs'[t].free && bs'[t + 1].free) {
      if t + 1 < i {
        assert bs'[t] == bs[t] && bs'[t + 1] == bs[t + 1];
      } else {
        assert bs'[t] == bs[i - 1];
      }
    }
    MergeRunsKeepsPrefix(bs', 0, s);
    assert bs'[0..] == bs';
    assert bs'[0..s] == bs[..s];
  }

  /** Coalescing the run from its start yields the released block and leaves
      the rest alone. */
  lemma ReleaseSuffix(bs: seq<Block>, i: nat)
    requires Coalesced(bs) && i < |bs| && !bs[i].free
    ensures var bs' := bs[i := Release(bs[i])];
            MergeRuns(bs'[RunStart(bs, i)..]) == [Released(bs, i)] + bs[RunEnd(bs, i)..]
  {
    var r := Release(bs[i]);
    var m0 := if i > 0 && bs[i - 1].free then Merge(bs[i - 1], r) else r;
    var e := RunEnd(bs, i);
    ReleaseLeft(bs, i);
    CoalescedSuffix(bs, e);
    if e < |bs| {
      assert !bs[e].free;
    }
    if e == i + 2 {
      ConsPair(m0, bs, i + 1);
      MergeRunsPair(m0, bs[i + 1], bs[i + 2..]);
      assert Released(bs, i) == Merge(m0, bs[i + 1]);
    } else {
      assert Released(bs, i) == m0;
    }
    MergeRunsSettled(Released(bs, i), bs[e..]);
  }

  /** Splitting the first element off a suffix. */
  lemma ConsPair(m: Block, bs: seq<Block>, j: nat)
    requires j < |bs|
    ensures [m] + bs[j..] == [m, bs[j]] + bs[j + 1..]
  {
    assert bs[j..] == [bs[j]] + bs[j + 1..];
  }

  /** A release first absorbs a free left neighbour. */
  lemma ReleaseLeft(bs: seq<Block>, i: nat)
    requires i < |bs| && !bs[i].free
    ensures var r := Release(bs[i]);
            var m0 := if i > 0 && bs[i - 1].free then Merge(bs[i - 1], r) else r;
            MergeRuns(bs[i := r][RunStart(bs, i)..]) == MergeRuns([m0] + bs[i + 1..])
  {
    var r := Release(bs[i]);
    var bs' := bs[i := r];
    if i > 0 && bs[i - 1].free {
      assert bs'[i - 1..] == [bs[i - 1], r] + bs[i + 1..];
      MergeRunsPair(bs[i - 1], r, bs[i + 1..]);
    } else {
      assert bs'[i..] == [r] + bs[i + 1..];
    }
  }

  /** In a coalesced sequence, coalescing after a release only merges the
      released block with its neighbours. */
  lemma FreeMergesNeighbours(bs: seq<Block>, i: nat)
    requires Coalesced(bs) && i < |bs| && !bs[i].free
    ensures MergeRuns(bs[i := Release(bs[i])]) == ReleaseMerged(bs, i)
  {
    ReleasePrefix(bs, i);
    ReleaseSuffix(bs, i);
  }

  /** The released block spans exactly the run it replaces. */
  lemma ReleasedSpan(bs: seq<Block>, i: nat)
    requires Contiguous(bs) && i < |bs| && !bs[i].free
    ensures End(Released(bs, i)) == End(bs[RunEnd(bs, i) - 1])
  {
    if i > 0 {
      assert bs[i].off == End(bs[i - 1]);
    }
    if i + 1 < |bs| {
      assert bs[i + 1].off == End(bs[i]);
    }
  }

  /** Freeing a block of a tiled, coalesced sequence keeps it tiled and
      coalesced. */
  lemma ReleaseMergedValid(bs: seq<Block>, i: nat)
    requires Tiled(bs) && Coalesced(bs) && i < |bs| && !bs[i].free
    ensures Tiled(ReleaseMerged(bs, i)) && Coalesced(ReleaseMerged(bs, i))
  {
    var s, e, m := RunStart(bs, i), RunEnd(bs, i), Released(bs, i);
    ReleasedSpan(bs, i);
    SpliceTiled(bs, s, e, [m]);
    ReleaseMergedCoalesced(bs, i);
  }

  /** Freeing a block of a coalesced sequence keeps it coalesced. */
  lemma ReleaseMergedCoalesced(bs: seq<Block>, i: nat)
    requires Coalesced(bs) && i < |bs| && !bs[i].free
    ensures Coalesced(ReleaseMerged(bs, i))
  {
    var s, e := RunStart(bs, i), RunEnd(bs, i);
    var r := ReleaseMerged(bs, i);
    assert |r| == s + 1 + |bs| - e;
    forall t | 0 <= t < |r| - 1 ensures !(r[t].free && r[t + 1].free) {
      if t + 1 < s {
        assert r[t] == bs[t] && r[t + 1] == bs[t + 1];
      } else if t + 1 == s {
        assert r[t] == bs[s - 1];
        if s < i {
          assert bs[i - 1].free;
        }
      } else if t == s {
        assert r[t + 1] == bs[e];
        if e > i + 1 {
          assert bs[i + 1].free;
        }
      } else {
        assert r[t] == bs[t - s - 1 + e] && r[t + 1] == bs[t - s + e];
      }
    }
  }

  // ---------------------------------------------------------------- worst fit

  /** Index of the free node my_malloc picks: the largest, the first of equal
      largest ones (the scan replaces its candidate only on a strictly larger
      size). */
  function ArgMaxFirst(l: seq<Block>): (k: nat)
    requires l != []
    ensures k < |l|
  {
    if |l| == 1 then 0
    else
      var k' := ArgMaxFirst(l[..|l| - 1]);
      if l[|l| - 1].size > l[k'].size then |l| - 1 else k'
  }

  /** What the worst-fit choice promises: a largest node, preceded only by
      strictly smaller ones. */
  ghost predicate WorstFit(l: seq<Block>, k: nat)
  {
    && k < |l|
    && (forall j :: 0 <= j < |l| ==> l[j].size <= l[k].size)
    && (forall j :: 0 <= j < k ==> l[j].size < l[k].size)
  }

  /** ArgMaxFirst makes the worst-fit choice. */
  lemma {:induction false} ArgMaxFirstWorstFit(l: seq<Block>)
    requires l != []
    ensures WorstFit(l, ArgMaxFirst(l))
  {
    if |l| > 1 {
      var p := l[..|l| - 1];
      ArgMaxFirstWorstFit(p);
      assert forall j :: 0 <= j < |l| - 1 ==> p[j] == l[j];
    }
  }

  // ---------------------------------------------------------------- carving

  /** The blocks a free block `b` becomes once `needed` bytes of footprint are
      taken from its start. When `needed` exceeds the node's size (but not its
      footprint), the whole block is taken and the header keeps all of it;
      otherwise the rest stays free right after the allocated block. */
  function Carve(b: Block, needed: nat): (r: seq<Block>)
    requires b.free && HEADER_SIZE <= needed <= Footprint(b)
    ensures 0 < |r| <= 2 && Contiguous(r)
    ensures r[0] == Block(b.off, false, r[0].size) && End(r[|r| - 1]) == End(b)
    ensures |r| == 1 <==> needed > b.size
    ensures |r| == 2 ==> Footprint(r[0]) == needed && r[1].free
  {
    if needed > b.size then [Block(b.off, false, b.size + NODE_SIZE - HEADER_SIZE)]
    else [Block(b.off, false, needed - HEADER_SIZE), Block(b.off + needed, true, b.size - needed)]
  }

  // ---------------------------------------------------------------- malloc

  datatype MallocError = NoFreeChunks | SizeExceedsHeap | ZeroSize | NoChunkBigEnough

  /** my_malloc's outcome: a payload offset (header offset + HEADER_SIZE) or
      the reason it returned NULL. */
  datatype MallocResult = Allocated(payload: nat) | Refused(reason: MallocError)

  /** my_malloc on the block view: the checks in the source's order, then
      worst fit and carving. A refusal leaves the blocks as they are. */
  function MallocSpec(bs: seq<Block>, size: nat): (MallocResult, seq<Block>)
    requires size < SIZE_T_MODULUS
  {
    var fl := FreeList(bs);
    if fl == [] then (Refused(NoFreeChunks), bs)
    else if size > SIZE_OF_HEAP then (Refused(SizeExceedsHeap), bs)
    else if size == 0 then (Refused(ZeroSize), bs)
    else
      var needed := Align(size);
      var k := ArgMaxFirst(fl);
      if needed > fl[k].size + NODE_SIZE then (Refused(NoChunkBigEnough), bs)
      else
        var i := FreeIndex(bs, k);
        (Allocated(bs[i].off + HEADER_SIZE), bs[..i] + Carve(bs[i], needed) + bs[i + 1..])
  }

  /** my_malloc refuses exactly in these cases, in this order of precedence. */
  lemma MallocRefusals(bs: seq<Block>, size: nat)
    requires size < SIZE_T_MODULUS
    ensures var (res, bs') := MallocSpec(bs, size);
            && (res.Refused? ==> bs' == bs)
            && (res == Refused(NoFreeChunks) <==> FreeList(bs) == [])
            && (res == Refused(SizeExceedsHeap) <==> FreeList(bs) != [] && size > SIZE_OF_HEAP)
            && (res == Refused(ZeroSize) <==> FreeList(bs) != [] && size == 0)
            && (res == Refused(NoChunkBigEnough) <==>
                  && FreeList(bs) != [] && 0 < size <= SIZE_OF_HEAP
                  && forall b :: b in FreeList(bs) ==> Align(size) > Footprint(b))
  {
    if FreeList(bs) != [] && 0 < size <= SIZE_OF_HEAP {
      WorstFitFits(FreeList(bs), Align(size));
    }
  }

  /** A request fits the worst-fit node iff it fits some node. */
  lemma WorstFitFits(l: seq<Block>, needed: nat)
    requires l != []
    ensures needed <= Footprint(l[ArgMaxFirst(l)]) <==> exists b :: b in l && needed <= Footprint(b)
  {
    var k := ArgMaxFirst(l);
    ArgMaxFirstWorstFit(l);
    assert l[k] in l;
    if b :| b in l && needed <= Footprint(b) {
      var j :| 0 <= j < |l| && l[j] == b;
    }
  }

  /** The node my_malloc allocates from is the worst fit among the free
      nodes, and the payload starts right after its new header. */
  lemma MallocWorstFit(bs: seq<Block>, size: nat)
    requires size < SIZE_T_MODULUS
    ensures MallocSpec(bs, size).0.Allocated? ==>
              exists k: nat :: WorstFit(FreeList(bs), k) &&
                          MallocSpec(bs, size).0.payload == FreeList(bs)[k].off + HEADER_SIZE
  {
    if MallocSpec(bs, size).0.Allocated? {
      var k := ArgMaxFirst(FreeList(bs));
      ArgMaxFirstWorstFit(FreeList(bs));
      assert WorstFit(FreeList(bs), k);
    }
  }

  /** The free list after an allocation: the chosen node is replaced by the
      free part of its carving, which CarveFreeList spells out (the remainder
      of a split, or nothing when the whole block is taken). */
  lemma MallocFreeList(bs: seq<Block>, size: nat)
    requires size < SIZE_T_MODULUS
    requires MallocSpec(bs, size).0.Allocated?
    ensures var fl := FreeList(bs);
            var k := ArgMaxFirst(fl);
            FreeList(MallocSpec(bs, size).1) == fl[..k] + FreeList(Carve(fl[k], Align(size))) + fl[k + 1..]
  {
    var fl := FreeList(bs);
    MallocShape(bs, size);
    ReplaceFreeList(bs, ArgMaxFirst(fl), Carve(fl[ArgMaxFirst(fl)], Align(size)));
  }

  /** A successful my_malloc replaces the worst-fit block by its carving. */
  lemma MallocShape(bs: seq<Block>, size: nat)
    requires size < SIZE_T_MODULUS
    requires MallocSpec(bs, size).0.Allocated?
    ensures var fl := FreeList(bs);
            var k := ArgMaxFirst(fl);
            var i := FreeIndex(bs, k);
            && Align(size) <= Footprint(fl[k]) && fl[k] == bs[i]
            && MallocSpec(bs, size).0 == Allocated(bs[i].off + HEADER_SIZE)
            && MallocSpec(bs, size).1 == bs[..i] + Carve(bs[i], Align(size)) + bs[i + 1..]
  {
  }

  /** Replacing the k-th free node's block by `c` replaces the node by the
      free blocks of `c` in the free list. */
  lemma ReplaceFreeList(bs: seq<Block>, k: nat, c: seq<Block>)
    requires k < |FreeList(bs)|
    ensures var i := FreeIndex(bs, k);
            FreeList(bs[..i] + c + bs[i + 1..]) == FreeList(bs)[..k] + FreeList(c) + FreeList(bs)[k + 1..]
  {
    var i := FreeIndex(bs, k);
    FreeIndexSplit(bs, k);
    FreeListSplice(bs[..i], c, bs[i + 1..]);
  }

  lemma FreeListSplice(a: seq<Block>, c: seq<Block>, b: seq<Block>)
    ensures FreeList(a + c + b) == FreeList(a) + FreeList(c) + FreeList(b)
  {
    FreeListConcat(a, c);
    FreeListConcat(a + c, b);
  }

  /** The free part of a carved block. */
  lemma CarveFreeList(b: Block, needed: nat)
    requires b.free && HEADER_SIZE <= needed <= Footprint(b)
    ensures FreeList(Carve(b, needed)) ==
              if needed > b.size then [] else [Block(b.off + needed, true, b.size - needed)]
  {
    var c := Carve(b, needed);
    assert !c[0].free && FreeList(c) == FreeList(c[1..]);
    if |c| == 2 {
      assert c[1..][1..] == [];
    }
  }

  /** The allocated block of a successful my_malloc: it starts at the chosen
      node, has room for the request and keeps at most one spare descriptor's
      worth plus alignment slack (or all of a block too small to split). */
  lemma MallocBlock(bs: seq<Block>, size: nat)
    requires size < SIZE_T_MODULUS
    requires MallocSpec(bs, size).0.Allocated?
    ensures var (res, bs') := MallocSpec(bs, size);
            var i := FreeIndex(bs, ArgMaxFirst(FreeList(bs)));
            && res.payload == bs[i].off + HEADER_SIZE
            && bs'[i] == Block(bs[i].off, false, bs'[i].size)
            && size <= bs'[i].size
            && (Align(size) <= bs[i].size ==> bs'[i].size < size + ALIGN_TO)
            && bs'[..i] == bs[..i]
  {
    var i := FreeIndex(bs, ArgMaxFirst(FreeList(bs)));
    var c := Carve(bs[i], Align(size));
    var bs' := bs[..i] + c + bs[i + 1..];
    assert bs'[i] == c[0];
    assert bs'[..i] == bs[..i];
  }

  /** my_malloc keeps the blocks tiled and coalesced. */
  lemma MallocPreserves(bs: seq<Block>, size: nat)
    requires size < SIZE_T_MODULUS
    requires Tiled(bs) && Coalesced(bs)
    ensures Tiled(MallocSpec(bs, size).1) && Coalesced(MallocSpec(bs, size).1)
  {
    if MallocSpec(bs, size).0.Allocated? {
      MallocShape(bs, size);
      CarvePreserves(bs, FreeIndex(bs, ArgMaxFirst(FreeList(bs))), Align(size));
    }
  }

  /** Carving a free block of a tiled, coalesced sequence keeps it so. */
  lemma CarvePreserves(bs: seq<Block>, i: nat, needed: nat)
    requires Tiled(bs) && Coalesced(bs)
    requires i < |bs| && bs[i].free && HEADER_SIZE <= needed <= Footprint(bs[i])
    ensures var r := bs[..i] + Carve(bs[i], needed) + bs[i + 1..];
            Tiled(r) && Coalesced(r)
  {
    var c := Carve(bs[i], needed);
    SpliceTiled(bs, i, i + 1, c);
    var r := bs[..i] + c + bs[i + 1..];
    assert |r| == |bs| + |c| - 1;
    forall t | 0 <= t < |r| - 1 ensures !(r[t].free && r[t + 1].free) {
      if t + 1 < i {
        assert r[t] == bs[t] && r[t + 1] == bs[t + 1];
      } else if t + 1 == i {
        assert r[t] == bs[i - 1] && r[t + 1] == c[0];
      } else if t + 1 < i + |c| {
        assert r[t] == c[t - i] && r[t + 1] == c[t + 1 - i];
      } else if t + 1 == i + |c| {
        assert r[t + 1] == bs[i + 1];
      } else {
        assert r[t] == bs[t - |c| + 1] && r[t + 1] == bs[t - |c| + 2];
      }
    }
  }

  // ---------------------------------------------------------------- free

  /** Index of the allocated block whose header sits at offset `o`. */
  function AllocAt(bs: seq<Block>, o: nat): (r: Option<nat>)
    ensures r.Some? ==> r.value < |bs| && bs[r.value].off == o && !bs[r.value].free
  {
    if bs == [] then None
    else if !bs[0].free && bs[0].off == o then Some(0)
    else match AllocAt(bs[1..], o)
      case None => None
      case Some(j) => Some(j + 1)
  }

  /** AllocAt finds every allocated block of a contiguous sequence, and only
      those. */
  lemma {:induction false} AllocAtIndex(bs: seq<Block>, o: nat)
    requires Contiguous(bs)
    ensures AllocAt(bs, o).None? <==> forall j :: 0 <= j < |bs| && !bs[j].free ==> bs[j].off != o
  {
    if bs != [] {
      var t := bs[1..];
      assert Contiguous(t) by {
        forall j | 0 <= j < |t| - 1 ensures t[j + 1].off == End(t[j]) {
          assert t[j] == bs[j + 1] && t[j + 1] == bs[j + 2];
        }
      }
      AllocAtIndex(t, o);
      if !bs[0].free && bs[0].off == o {
      } else if AllocAt(t, o).None? {
        forall j | 0 <= j < |bs| && !bs[j].free ensures bs[j].off != o {
          if j > 0 {
            assert bs[j] == t[j - 1];
          }
        }
      }
    }
  }

  /** In a contiguous sequence offsets are distinct, so the allocated block
      at an offset is the one AllocAt returns. */
  lemma AllocAtUnique(bs: seq<Block>, j: nat)
    requires Contiguous(bs) && j < |bs| && !bs[j].free
    ensures AllocAt(bs, bs[j].off) == Some(j)
  {
    AllocAtIndex(bs, bs[j].off);
    var i := AllocAt(bs, bs[j].off).value;
    if i < j {
      ContiguousOrdered(bs, i, j);
    } else if j < i {
      ContiguousOrdered(bs, j, i);
    }
  }

  /** my_free's outcome. It returns nothing in C; the two failures are the
      magic-number assertion and the NULL dereference of the insertion scan
      when every free node lies before the freed block. */
  datatype FreeResult = Freed | InvalidFreeAddress | NullDereference

  /** my_free on the block view. A failure leaves the blocks unchanged. */
  function FreeSpec(bs: seq<Block>, p: nat): (FreeResult, seq<Block>)
  {
    if p < HEADER_SIZE then (InvalidFreeAddress, bs)
    else match AllocAt(bs, p - HEADER_SIZE)
      case None => (InvalidFreeAddress, bs)
      case Some(i) =>
        if FreeList(bs) == [] then (Freed, bs[i := Release(bs[i])])
        else if FreeList(bs[i + 1..]) == [] then (NullDereference, bs)
        else (Freed, MergeRuns(bs[i := Release(bs[i])]))
  }

  /** A successful my_free on a coalesced sequence merges the released block
      with its free neighbours and touches nothing else. */
  lemma FreeLocal(bs: seq<Block>, p: nat)
    requires Coalesced(bs)
    requires FreeSpec(bs, p).0 == Freed
    ensures p >= HEADER_SIZE && AllocAt(bs, p - HEADER_SIZE).Some?
    ensures FreeSpec(bs, p).1 == ReleaseMerged(bs, AllocAt(bs, p - HEADER_SIZE).value)
  {
    var i := AllocAt(bs, p - HEADER_SIZE).value;
    if FreeList(bs) == [] {
      FreeListEmpty(bs);
      assert ReleaseMerged(bs, i) == bs[..i] + [Release(bs[i])] + bs[i + 1..];
    } else {
      FreeMergesNeighbours(bs, i);
    }
  }

  /** my_free keeps the blocks tiled and coalesced. */
  lemma FreePreserves(bs: seq<Block>, p: nat)
    requires Tiled(bs) && Coalesced(bs)
    ensures Tiled(FreeSpec(bs, p).1) && Coalesced(FreeSpec(bs, p).1)
  {
    if FreeSpec(bs, p).0 == Freed {
      FreeLocal(bs, p);
      ReleaseMergedValid(bs, AllocAt(bs, p - HEADER_SIZE).value);
    }
  }

  /** my_free rejects exactly the addresses that are not an allocated
      block's payload. */
  lemma FreeInvalid(bs: seq<Block>, p: nat)
    requires Contiguous(bs)
    ensures FreeSpec(bs, p).0 == InvalidFreeAddress <==>
              forall j :: 0 <= j < |bs| && !bs[j].free ==> bs[j].off + HEADER_SIZE != p
  {
    if p >= HEADER_SIZE {
      AllocAtIndex(bs, p - HEADER_SIZE);
      assert FreeSpec(bs, p).0 == InvalidFreeAddress <==> AllocAt(bs, p - HEADER_SIZE).None?;
    }
  }

  /** my_free dereferences NULL exactly when it frees a valid block while
      free nodes exist but none of them lies after the block. */
  lemma FreeCrash(bs: seq<Block>, j: nat)
    requires Contiguous(bs) && j < |bs| && !bs[j].free
    ensures FreeSpec(bs, bs[j].off + HEADER_SIZE).0 == NullDereference <==>
              FreeList(bs) != [] && FreeList(bs[j + 1..]) == []
  {
    AllocAtUnique(bs, j);
  }

  // ---------------------------------------------------------------- round trip

  /** The block a successful my_malloc hands out is found again by my_free. */
  lemma MallocedFound(bs: seq<Block>, size: nat)
    requires size < SIZE_T_MODULUS && Tiled(bs) && Coalesced(bs)
    requires MallocSpec(bs, size).0.Allocated?
    ensures var (res, bs1) := MallocSpec(bs, size);
            var i := FreeIndex(bs, ArgMaxFirst(FreeList(bs)));
            && res.payload >= HEADER_SIZE
            && AllocAt(bs1, res.payload - HEADER_SIZE) == Some(i)
            && Tiled(bs1) && Coalesced(bs1)
  {
    var i := FreeIndex(bs, ArgMaxFirst(FreeList(bs)));
    MallocShape(bs, size);
    MallocPreserves(bs, size);
    MallocBlock(bs, size);
    AllocAtUnique(MallocSpec(bs, size).1, i);
  }

  /** Releasing a freshly carved block and merging undoes the carving. */
  lemma CarveReleased(bs: seq<Block>, i: nat, needed: nat)
    requires Coalesced(bs) && i < |bs| && bs[i].free && HEADER_SIZE <= needed <= Footprint(bs[i])
    ensures var bs1 := bs[..i] + Carve(bs[i], needed) + bs[i + 1..];
            i < |bs1| && !bs1[i].free && ReleaseMerged(bs1, i) == bs
  {
    var c := Carve(bs[i], needed);
    var bs1 := bs[..i] + c + bs[i + 1..];
    assert bs1[i] == c[0];
    if i > 0 {
      assert bs1[i - 1] == bs[i - 1] && !bs[i - 1].free;
    }
    if |c| == 2 {
      assert bs1[i + 1] == c[1];
      assert bs1[i + 2..] == bs[i + 1..];
    } else {
      assert bs1[i + 1..] == bs[i + 1..];
      if i + 1 < |bs| {
        assert !bs[i + 1].free;
      }
    }
    assert Released(bs1, i) == bs[i];
    assert bs[..i] + [bs[i]] + bs[i + 1..] == bs;
  }

  /** Freeing what my_malloc just returned restores the blocks exactly,
      unless my_free crashes. */
  lemma MallocFreeRoundTrip(bs: seq<Block>, size: nat)
    requires size < SIZE_T_MODULUS && Tiled(bs) && Coalesced(bs)
    requires MallocSpec(bs, size).0.Allocated?
    ensures var m := MallocSpec(bs, size);
            var f := FreeSpec(m.1, m.0.payload);
            && f.0 != InvalidFreeAddress
            && (f.0 == Freed ==> f.1 == bs)
  {
    var i := MallocReleased(bs, size);
    FreeUndoes(MallocSpec(bs, size).1, MallocSpec(bs, size).0.payload, i, bs);
  }

  /** The block my_malloc handed out: my_free finds it, and releasing and
      merging it undoes the carve. */
  lemma MallocReleased(bs: seq<Block>, size: nat) returns (i: nat)
    requires size < SIZE_T_MODULUS && Tiled(bs) && Coalesced(bs)
    requires MallocSpec(bs, size).0.Allocated?
    ensures var (res, bs1) := MallocSpec(bs, size);
            && Coalesced(bs1) && res.payload >= HEADER_SIZE && AllocAt(bs1, res.payload - HEADER_SIZE) == Some(i)
            && i < |bs1| && !bs1[i].free && ReleaseMerged(bs1, i) == bs
  {
    i := FreeIndex(bs, ArgMaxFirst(FreeList(bs)));
    MallocedFound(bs, size);
    MallocShape(bs, size);
    CarveReleased(bs, i, Align(size));
  }

  /** Freeing the block at index i undoes whatever produced it from `bs`,
      if releasing and merging it gives `bs` back. */
  lemma FreeUndoes(bs1: seq<Block>, p: nat, i: nat, bs: seq<Block>)
    requires Coalesced(bs1) && p >= HEADER_SIZE && AllocAt(bs1, p - HEADER_SIZE) == Some(i)
    requires ReleaseMerged(bs1, i) == bs
    ensures FreeSpec(bs1, p).0 != InvalidFreeAddress
    ensures FreeSpec(bs1, p).0 == Freed ==> FreeSpec(bs1, p).1 == bs
  {
    if FreeSpec(bs1, p).0 == Freed {
      FreeLocal(bs1, p);
    }
  }

  /** What follows the first replacement block of a splice. */
  lemma SpliceSuffix(bs: seq<Block>, i: nat, c: seq<Block>)
    requires i < |bs| && c != []
    ensures (bs[..i] + c + bs[i + 1..])[i + 1..] == c[1..] + bs[i + 1..]
  {
    var r := bs[..i] + c + bs[i + 1..];
    var rs, q := r[i + 1..], c[1..] + bs[i + 1..];
    assert |rs| == |q|;
    forall t | 0 <= t < |rs| ensures rs[t] == q[t] {
      if t + 1 < |c| {
        assert r[i + 1 + t] == c[t + 1];
      } else {
        assert r[i + 1 + t] == bs[i + 1 + t - (|c| - 1)];
      }
    }
  }

  /** A carve removes a free node exactly when it takes the whole block. */
  lemma CarveFreeCount(bs: seq<Block>, k: nat, needed: nat)
    requires k < |FreeList(bs)|
    requires var i := FreeIndex(bs, k); HEADER_SIZE <= needed <= Footprint(bs[i])
    ensures var i := FreeIndex(bs, k);
            var bs1 := bs[..i] + Carve(bs[i], needed) + bs[i + 1..];
            |FreeList(bs1)| == |FreeList(bs)| - (if needed > bs[i].size then 1 else 0)
  {
    var fl := FreeList(bs);
    var i := FreeIndex(bs, k);
    var c := Carve(bs[i], needed);
    ReplaceFreeList(bs, k, c);
    CarveFreeList(bs[i], needed);
    var fc := FreeList(c);
    assert |fc| == if needed > bs[i].size then 0 else 1;
    assert |fl[..k] + fc + fl[k + 1..]| == k + |fc| + (|fl| - k - 1);
  }

  /** The part of the free list my_free scans past a carved block. */
  lemma CarveFreeAfter(bs: seq<Block>, k: nat, needed: nat)
    requires k < |FreeList(bs)|
    requires var i := FreeIndex(bs, k); HEADER_SIZE <= needed <= Footprint(bs[i])
    ensures var i := FreeIndex(bs, k);
            var bs1 := bs[..i] + Carve(bs[i], needed) + bs[i + 1..];
            FreeList(bs1[i + 1..]) == [] <==> needed > bs[i].size && k == |FreeList(bs)| - 1
  {
    var fl, i := FreeList(bs), FreeIndex(bs, k);
    var c := Carve(bs[i], needed);
    CarveFreeList(bs[i], needed);
    FreeIndexSuffix(bs, k);
    SplicedSuffixFreeList(bs, i, c);
    var fc, rest := FreeList(c), fl[k + 1..];
    assert |fc| == 0 <==> needed > bs[i].size;
    assert |rest| == 0 <==> k == |fl| - 1;
    assert |fc + rest| == |fc| + |rest|;
  }

  /** The free list past a block replaced by `c`, whose first block is
      allocated: the free blocks of `c` and then those after the block. */
  lemma SplicedSuffixFreeList(bs: seq<Block>, i: nat, c: seq<Block>)
    requires i < |bs| && c != [] && !c[0].free
    ensures FreeList((bs[..i] + c + bs[i + 1..])[i + 1..]) == FreeList(c) + FreeList(bs[i + 1..])
  {
    SpliceSuffix(bs, i, c);
    FreeListConcat(c[1..], bs[i + 1..]);
  }

  /** The only way the round trip fails: the allocation took the whole of the
      last of several free nodes, so no free node lies after it. */
  lemma MallocFreeCrash(bs: seq<Block>, size: nat)
    requires size < SIZE_T_MODULUS && Tiled(bs) && Coalesced(bs)
    requires MallocSpec(bs, size).0.Allocated?
    ensures var m := MallocSpec(bs, size);
            var fl := FreeList(bs);
            var k := ArgMaxFirst(fl);
            FreeSpec(m.1, m.0.payload).0 == NullDereference <==>
              Align(size) > fl[k].size && 0 < k == |fl| - 1
  {
    var i := MallocCrashShape(bs, size);
    FreeCrash(MallocSpec(bs, size).1, i);
  }

  /** Where the block my_malloc handed out sits, and when no free node
      follows it. */
  lemma MallocCrashShape(bs: seq<Block>, size: nat) returns (i: nat)
    requires size < SIZE_T_MODULUS && Tiled(bs) && Coalesced(bs)
    requires MallocSpec(bs, size).0.Allocated?
    ensures var (res, bs1) := MallocSpec(bs, size);
            var fl := FreeList(bs);
            var k := ArgMaxFirst(fl);
            && Contiguous(bs1) && i < |bs1| && !bs1[i].free && res.payload == bs1[i].off + HEADER_SIZE
            && (FreeList(bs1) != [] && FreeList(bs1[i + 1..]) == [] <==>
                  Align(size) > fl[k].size && 0 < k == |fl| - 1)
  {
    var bs1, p := MallocSpec(bs, size).1, MallocSpec(bs, size).0.payload;
    var k := ArgMaxFirst(FreeList(bs));
    i := FreeIndex(bs, k);
    MallocShape(bs, size);
    MallocedFound(bs, size);
    CarveFreeCount(bs, k, Align(size));
    CarveFreeAfter(bs, k, Align(size));
    assert bs1 == bs[..i] + Carve(bs[i], Align(size)) + bs[i + 1..];
    assert bs1[i].off + HEADER_SIZE == p;
    var n, rest := |FreeList(bs1)|, FreeList(bs1[i + 1..]);
    assert FreeList(bs1) != [] <==> n > 0;
    assert rest == [] <==> Align(size) > bs[i].size && k == |FreeList(bs)| - 1;
    assert n == |FreeList(bs)| - (if Align(size) > bs[i].size then 1 else 0);
  }

  // ---------------------------------------------------------------- accounting

  /** Releasing block i adds exactly that block to the free list, in address
      order. */
  lemma ReleaseFreeList(bs: seq<Block>, i: nat)
    requires i < |bs| && !bs[i].free
    ensures FreeList(bs) == FreeList(bs[..i]) + FreeList(bs[i + 1..])
    ensures FreeList(bs[i := Release(bs[i])]) == FreeList(bs[..i]) + [Release(bs[i])] + FreeList(bs[i + 1..])
  {
    var r := Release(bs[i]);
    assert bs == bs[..i] + [bs[i]] + bs[i + 1..];
    assert bs[i := r] == bs[..i] + [r] + bs[i + 1..];
    FreeListSplice(bs[..i], [bs[i]], bs[i + 1..]);
    FreeListSplice(bs[..i], [r], bs[i + 1..]);
    assert FreeList([bs[i]]) == [] && FreeList([r]) == [r] by {
      assert [bs[i]][1..] == [] && [r][1..] == [];
    }
  }

  /** A successful my_free returns exactly the freed block's footprint to the
      free list. */
  lemma FreeReturnsBytes(bs: seq<Block>, p: nat)
    requires FreeSpec(bs, p).0 == Freed
    ensures p >= HEADER_SIZE && AllocAt(bs, p - HEADER_SIZE).Some?
    ensures FreeBytes(FreeList(FreeSpec(bs, p).1)) ==
              FreeBytes(FreeList(bs)) + Footprint(bs[AllocAt(bs, p - HEADER_SIZE).value])
  {
    var i := AllocAt(bs, p - HEADER_SIZE).value;
    var r := Release(bs[i]);
    ReleaseFreeList(bs, i);
    FreeBytesConcat(FreeList(bs[..i]), FreeList(bs[i + 1..]));
    FreeBytesConcat(FreeList(bs[..i]) + [r], FreeList(bs[i + 1..]));
    FreeBytesConcat(FreeList(bs[..i]), [r]);
    assert FreeBytes([r]) == Footprint(r) by {
      assert [r][1..] == [];
    }
    if FreeList(bs) != [] {
      MergeRunsFreeBytes(bs[i := r]);
    }
  }

  /** A successful my_malloc takes exactly the allocated block's footprint
      from the free list. */
  lemma MallocTakesBytes(bs: seq<Block>, size: nat)
    requires size < SIZE_T_MODULUS
    requires MallocSpec(bs, size).0.Allocated?
    ensures var i := FreeIndex(bs, ArgMaxFirst(FreeList(bs)));
            var bs' := MallocSpec(bs, size).1;
            i < |bs'| && FreeBytes(FreeList(bs')) + Footprint(bs'[i]) == FreeBytes(FreeList(bs))
  {
    var fl := FreeList(bs);
    var k := ArgMaxFirst(fl);
    var i := FreeIndex(bs, k);
    var c := Carve(fl[k], Align(size));
    var bs' := MallocSpec(bs, size).1;
    MallocShape(bs, size);
    MallocFreeList(bs, size);
    assert bs'[i] == c[0];
    ReplaceBytes(fl, k, FreeList(c));
    CarveBytes(fl[k], Align(size));
    var whole, taken, mid := FreeBytes(fl), Footprint(c[0]), FreeBytes(FreeList(c));
    assert FreeList(bs') == fl[..k] + FreeList(c) + fl[k + 1..];
    assert FreeBytes(FreeList(bs')) + Footprint(fl[k]) == whole + mid;
    assert mid + taken == Footprint(fl[k]);
  }

  /** Replacing the k-th entry of a list of blocks by `mid` changes its total
      footprint accordingly. */
  lemma ReplaceBytes(l: seq<Block>, k: nat, mid: seq<Block>)
    requires k < |l|
    ensures FreeBytes(l[..k] + mid + l[k + 1..]) + Footprint(l[k]) == FreeBytes(l) + FreeBytes(mid)
  {
    assert l == l[..k] + [l[k]] + l[k + 1..];
    FreeBytesConcat(l[..k] + [l[k]], l[k + 1..]);
    FreeBytesConcat(l[..k], [l[k]]);
    FreeBytesConcat(l[..k] + mid, l[k + 1..]);
    FreeBytesConcat(l[..k], mid);
    assert FreeBytes([l[k]]) == Footprint(l[k]) by {
      assert [l[k]][1..] == [];
    }
  }

  /** Carving splits a free block's footprint between the allocated block
      and the free remainder. */
  lemma CarveBytes(b: Block, needed: nat)
    requires b.free && HEADER_SIZE <= needed <= Footprint(b)
    ensures FreeBytes(FreeList(Carve(b, needed))) + Footprint(Carve(b, needed)[0]) == Footprint(b)
  {
    var c := Carve(b, needed);
    CarveFreeList(b, needed);
    if |c| == 2 {
      assert FreeBytes([c[1]]) == Footprint(c[1]) by {
        assert [c[1]][1..] == [];
      }
    }
  }
}
