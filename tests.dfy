/** The checks of tests.c: verify_sorted and verify_alternating read the
    free list, free_all_chunks empties the arena between scenarios, and the
    scenarios' assertions are stated as properties of the allocator. */
module HeapTests {
  import opened HeapLayout
  import opened BlockModel
  import opened Arena
  import opened Allocator
  import opened Inspect

  /** Capacity of free_all_chunks' table of addresses (init_tests). */
  const MAX_CHUNKS: nat := 10
  /** The standard request of the scenarios (init_tests). */
  const CHUNK_SIZE: nat := SIZE_OF_HEAP / 20

  // ---------------------------------------------------------------- list checks

  /** What verify_sorted looks for: every node with a successor lies below it. */
  ghost predicate Sorted(l: seq<Block>)
  {
    forall k :: 0 <= k < |l| - 1 ==> l[k].off < l[k + 1].off
  }

  /** Address just past a free node. */
  function NodeEnd(b: Block): nat
  {
    b.off + b.size + NODE_SIZE
  }

  /** What verify_alternating looks for: no node ends where its successor
      starts. */
  ghost predicate Alternating(l: seq<Block>)
  {
    forall k :: 0 <= k < |l| - 1 ==> NodeEnd(l[k]) != l[k + 1].off
  }

  /** The fields of the c-th node of a list, as a walk along it reads them. */
  lemma ListRead(mem: Memory, head: Option<nat>, l: seq<Block>, c: nat)
    requires ListIs(mem, head, l) && c < |l|
    ensures SizeAt(mem, l[c].off) == l[c].size
    ensures NextAt(mem, l[c].off) == (if c + 1 < |l| then Some(l[c + 1].off) else None)
  {
    assert NodeAt(mem, l, c);
  }

  /** verify_sorted: true exactly when the list from the head is sorted. */
  method VerifySorted(h: Heap, ghost l: seq<Block>) returns (sorted: bool)
    requires ListIs(h.mem, h.head, l)
    ensures sorted <==> Sorted(l)
  {
    sorted := true;
    var mem, curr := h.mem, h.head;
    ghost var c: nat := 0;
    while curr.Some?
      invariant c <= |l| && curr == (if c < |l| then Some(l[c].off) else None)
      invariant sorted <==> forall k :: 0 <= k < c && k + 1 < |l| ==> l[k].off < l[k + 1].off
      decreases |l| - c
    {
      ListRead(mem, h.head, l, c);
      var next := NextAt(mem, curr.value);
      if next.Some? && next.value <= curr.value {
        sorted := false;
      }
      curr := next;
      c := c + 1;
    }
  }

  /** verify_alternating: true exactly when no node of the list from the
      head is followed by the node that starts where it ends. */
  method VerifyAlternating(h: Heap, ghost l: seq<Block>) returns (alternating: bool)
    requires ListIs(h.mem, h.head, l)
    ensures alternating <==> Alternating(l)
  {
    alternating := true;
    var mem, curr := h.mem, h.head;
    ghost var c: nat := 0;
    while curr.Some?
      invariant c <= |l| && curr == (if c < |l| then Some(l[c].off) else None)
      invariant alternating <==> forall k :: 0 <= k < c && k + 1 < |l| ==> NodeEnd(l[k]) != l[k + 1].off
      decreases |l| - c
    {
      ListRead(mem, h.head, l, c);
      var next := NextAt(mem, curr.value);
      if next.Some? && curr.value + SizeAt(mem, curr.value) + NODE_SIZE == next.value {
        alternating := false;
      }
      curr := next;
      c := c + 1;
    }
  }

  /** The free list of a contiguous arena is sorted, so verify_sorted holds
      on every heap the allocator produces. */
  lemma FreeListSorted(bs: seq<Block>)
    requires Contiguous(bs)
    ensures Sorted(FreeList(bs))
  {
    FreeListApart(bs);
    var l := FreeList(bs);
    assert forall k :: 0 <= k < |l| - 1 ==> End(l[k]) <= l[k + 1].off;
  }

  /** verify_alternating holds exactly on coalesced arenas: two list nodes
      that touch are two neighbouring free blocks. */
  lemma AlternatingIffCoalesced(bs: seq<Block>)
    requires Contiguous(bs)
    ensures Alternating(FreeList(bs)) <==> Coalesced(bs)
  {
    var l := FreeList(bs);
    if Coalesced(bs) {
      forall k | 0 <= k < |l| - 1 ensures NodeEnd(l[k]) != l[k + 1].off {
        NodesTouch(bs, k);
      }
    } else {
      var i :| 0 <= i < |bs| - 1 && bs[i].free && bs[i + 1].free;
      var k := NeighboursTouch(bs, i);
    }
  }

  /** Nodes k and k+1 of the free list touch exactly when the block after
      node k is free. */
  lemma NodesTouch(bs: seq<Block>, k: nat)
    requires Contiguous(bs) && k + 1 < |FreeList(bs)|
    ensures var l, i := FreeList(bs), FreeIndex(bs, k);
            NodeEnd(l[k]) == l[k + 1].off <==> i + 1 < |bs| && bs[i + 1].free
  {
    var l, i := FreeList(bs), FreeIndex(bs, k);
    FreeIndexSuffix(bs, k);
    var rest := l[k + 1..];
    assert rest[0] == l[k + 1];
    assert Cursor(bs, i + 1) == Some(l[k + 1].off);
    CursorAdjacent(bs, i);
  }

  /** Two neighbouring free blocks are two touching nodes of the list. */
  lemma NeighboursTouch(bs: seq<Block>, i: nat) returns (k: nat)
    requires Contiguous(bs) && i + 1 < |bs| && bs[i].free && bs[i + 1].free
    ensures k + 1 < |FreeList(bs)| && NodeEnd(FreeList(bs)[k]) == FreeList(bs)[k + 1].off
  {
    MergeStepList(bs, i);
    k := |FreeList(bs[..i])|;
  }

  /** Both checks pass on every valid heap. */
  lemma ValidHeapPassesChecks(mem: Memory, head: Option<nat>, bs: seq<Block>)
    requires WellFormed(mem, head, bs) && Coalesced(bs)
    ensures Sorted(FreeList(bs)) && Alternating(FreeList(bs))
  {
    FreeListSorted(bs);
    AlternatingIffCoalesced(bs);
  }

  // ---------------------------------------------------------------- free_all_chunks

  /** The payload addresses of the allocated blocks, in address order: what
      free_all_chunks collects. */
  function Payloads(bs: seq<Block>): seq<nat>
  {
    if bs == [] then [] else (if bs[0].free then [] else [bs[0].off + HEADER_SIZE]) + Payloads(bs[1..])
  }

  lemma {:induction false} PayloadsConcat(a: seq<Block>, b: seq<Block>)
    ensures Payloads(a + b) == Payloads(a) + Payloads(b)
  {
    if a == [] {
      assert a + b == b;
    } else {
      assert (a + b)[0] == a[0] && (a + b)[1..] == a[1..] + b;
      PayloadsConcat(a[1..], b);
    }
  }

  lemma PayloadsAppend(seen: seq<Block>, b: Block)
    ensures Payloads(seen + [b]) == Payloads(seen) + (if b.free then [] else [b.off + HEADER_SIZE])
  {
    PayloadsConcat(seen, [b]);
    assert [b][1..] == [];
  }

  /** A sequence has no payloads exactly when all its blocks are free. */
  lemma {:induction false} PayloadsAllFree(s: seq<Block>)
    ensures Payloads(s) == [] <==> forall t :: 0 <= t < |s| ==> s[t].free
  {
    if s != [] {
      PayloadsAllFree(s[1..]);
      assert forall t :: 1 <= t < |s| ==> s[t] == s[1..][t - 1];
    }
  }

  /** my_free applied to each address of `ps` in turn, stopping at the first
      call that fails. */
  function FreeEach(bs: seq<Block>, ps: seq<nat>): (FreeResult, seq<Block>)
    decreases |ps|
  {
    if ps == [] then (Freed, bs)
    else
      var step := FreeSpec(bs, ps[0]);
      if step.0 != Freed then step else FreeEach(step.1, ps[1..])
  }

  /** free_all_chunks' outcome: the outcome of its last my_free, or the
      overflow of its table of MAX_CHUNKS addresses. */
  datatype SweepResult = Swept(outcome: FreeResult) | TableOverflow

  /** A walk expected to produce `bs` has produced `seen` and has the rest
      of `bs` still to come. */
  lemma PrependWalked(bs: seq<Block>, e: nat, seen: seq<Block>, r: WalkResult)
    requires Walked(bs, e) == Prepend(seen, r)
    ensures r.Walked? && bs == seen + r.blocks && r.end == e
  {
  }

  /** An allocated block the walk is about to record, when the table is
      full, is one more payload than the table holds. */
  lemma TableFull(bs: seq<Block>, seen: seq<Block>, mem: Memory, ptr: nat, cursor: Option<nat>)
    requires Walked(bs, SIZE_OF_HEAP) == Prepend(seen, Walk(mem, ptr, cursor))
    requires ptr < SIZE_OF_HEAP && cursor != Some(ptr) && MagicAt(mem, ptr) == MAGIC_NUMBER
    ensures |Payloads(bs)| > |Payloads(seen)|
  {
    var b := Block(ptr, false, SizeAt(mem, ptr));
    var r := Walk(mem, ptr, cursor);
    var r' := Walk(mem, ptr + SizeAt(mem, ptr) + HEADER_SIZE, cursor);
    assert r == Prepend([b], r');
    PrependWalked(bs, SIZE_OF_HEAP, seen, r);
    PrependWalked(r.blocks, SIZE_OF_HEAP, [b], r');
    PayloadsConcat(seen, r.blocks);
    PayloadsConcat([b], r'.blocks);
  }

  /** The walk of free_all_chunks: it stores the payload address of every
      allocated block, in address order, in a table of MAX_CHUNKS entries.
      On a heap whose walk meets the blocks `bs0` (every valid heap, by
      AuditAccepts) the walk's magic assertion cannot fail. The store past
      the end of the table, where the source overflows its array, is
      reported as `full`. */
  method CollectChunks(h: Heap, ghost bs0: seq<Block>) returns (full: bool, chunks: array<nat>, n: nat)
    requires Walk(h.mem, 0, h.head) == Walked(bs0, SIZE_OF_HEAP)
    ensures fresh(chunks) && chunks.Length == MAX_CHUNKS
    ensures full <==> |Payloads(bs0)| > MAX_CHUNKS
    ensures !full ==> n <= MAX_CHUNKS && chunks[..n] == Payloads(bs0)
  {
    chunks := new nat[MAX_CHUNKS];
    n := 0;
    var mem, ptr: nat, lastFree := h.mem, 0, h.head;
    ghost var seen: seq<Block> := [];
    while ptr < SIZE_OF_HEAP
      invariant Walked(bs0, SIZE_OF_HEAP) == Prepend(seen, Walk(mem, ptr, lastFree))
      invariant n == |Payloads(seen)| <= MAX_CHUNKS && chunks[..n] == Payloads(seen)
      decreases SIZE_OF_HEAP - ptr
    {
      var size := SizeAt(mem, ptr);
      if lastFree == Some(ptr) {
        var b := Block(ptr, true, size);
        PrependAssoc(seen, [b], Walk(mem, ptr + size + NODE_SIZE, NextAt(mem, ptr)));
        PayloadsAppend(seen, b);
        seen := seen + [b];
        lastFree := NextAt(mem, ptr);
        ptr := ptr + size + NODE_SIZE;
      } else {
        if MagicAt(mem, ptr) != MAGIC_NUMBER {
          assert false;
        }
        if n == MAX_CHUNKS {
          TableFull(bs0, seen, mem, ptr, lastFree);
          return true, chunks, n;
        }
        var b := Block(ptr, false, size);
        PrependAssoc(seen, [b], Walk(mem, ptr + size + HEADER_SIZE, lastFree));
        PayloadsAppend(seen, b);
        chunks[n] := ptr + HEADER_SIZE;
        assert chunks[..n + 1] == chunks[..n] + [ptr + HEADER_SIZE];
        seen := seen + [b];
        n := n + 1;
        ptr := ptr + size + HEADER_SIZE;
      }
    }
    PrependWalked(bs0, SIZE_OF_HEAP, seen, Walk(mem, ptr, lastFree));
    assert seen + [] == seen;
    return false, chunks, n;
  }

  /** free_all_chunks: the collecting walk, then my_free on each address
      in the table, in address order. */
  method FreeAllChunks(h: Heap) returns (r: SweepResult)
    requires h.Valid()
    modifies h
    ensures h.Valid()
    ensures r == TableOverflow <==> |Payloads(old(h.blocks))| > MAX_CHUNKS
    ensures r == TableOverflow ==> h.blocks == old(h.blocks)
    ensures r.Swept? ==> r.outcome == FreeEach(old(h.blocks), Payloads(old(h.blocks))).0
    ensures r.Swept? ==> h.blocks == FreeEach(old(h.blocks), Payloads(old(h.blocks))).1
  {
    AuditAccepts(h.mem, h.head, h.blocks);
    var full, chunks, n := CollectChunks(h, h.blocks);
    if full {
      return TableOverflow;
    }
    ghost var bs0 := h.blocks;
    ghost var ps := chunks[..n];
    assert ps[0..] == ps;
    for i := 0 to n
      invariant h.Valid() && chunks[..n] == ps
      invariant FreeEach(bs0, ps) == FreeEach(h.blocks, ps[i..])
    {
      assert ps[i..][0] == chunks[i] && ps[i..][1..] == ps[i + 1..];
      var res := h.Free(chunks[i]);
      if res != Freed {
        return Swept(res);
      }
    }
    assert ps[n..] == [];
    return Swept(Freed);
  }

  // ---------------------------------------------------------------- what free_all_chunks leaves

  /** The first allocated block, at or before an allocated block j, and the
      payloads from there on. */
  lemma {:induction false} FirstAllocated(bs: seq<Block>, j: nat) returns (i: nat)
    requires j < |bs| && !bs[j].free
    ensures i <= j && !bs[i].free && (forall t :: 0 <= t < i ==> bs[t].free)
    ensures Payloads(bs) == [bs[i].off + HEADER_SIZE] + Payloads(bs[i + 1..])
  {
    if !bs[0].free {
      i := 0;
    } else {
      var i' := FirstAllocated(bs[1..], j - 1);
      i := i' + 1;
      assert bs[1..][i' + 1..] == bs[i + 1..];
      assert forall t :: 1 <= t < i ==> bs[t] == bs[1..][t - 1];
    }
  }

  /** A suffix that holds a free block has a free node. */
  lemma HasFreeNode(s: seq<Block>, t: nat)
    requires t < |s| && s[t].free
    ensures FreeList(s) != []
  {
    FreeListEmpty(s);
  }

  /** my_free of block i, when a free node lies after it, in a coalesced
      sequence: the block and its free neighbours become one free block. */
  lemma FreeMiddle(bs: seq<Block>, i: nat)
    requires Contiguous(bs) && Coalesced(bs) && i < |bs| && !bs[i].free && FreeList(bs[i + 1..]) != []
    ensures FreeSpec(bs, bs[i].off + HEADER_SIZE).0 == Freed
    ensures FreeSpec(bs, bs[i].off + HEADER_SIZE).1 == ReleaseMerged(bs, i)
  {
    AllocAtUnique(bs, i);
    assert bs == bs[..i + 1] + bs[i + 1..];
    FreeListConcat(bs[..i + 1], bs[i + 1..]);
    FreeMergesNeighbours(bs, i);
  }

  /** When only free blocks precede block i, the release of i leaves the
      payloads after it. */
  lemma ReleasePayloads(bs: seq<Block>, i: nat)
    requires i < |bs| && !bs[i].free && forall t :: 0 <= t < i ==> bs[t].free
    ensures Payloads(ReleaseMerged(bs, i)) == Payloads(bs[i + 1..])
  {
    var s, e, m := RunStart(bs, i), RunEnd(bs, i), Released(bs, i);
    PayloadsConcat(bs[..s] + [m], bs[e..]);
    PayloadsConcat(bs[..s], [m]);
    PayloadsAllFree(bs[..s]);
    assert [m][1..] == [];
    if e == i + 2 {
      assert bs[i + 1..] == [bs[i + 1]] + bs[e..];
      PayloadsConcat([bs[i + 1]], bs[e..]);
      assert [bs[i + 1]][1..] == [];
    }
  }

  /** The last block after a release: the old last block, unless the
      merged run reaches the end of the arena. */
  lemma ReleaseLast(bs: seq<Block>, i: nat)
    requires i < |bs| && !bs[i].free
    ensures var r, e := ReleaseMerged(bs, i), RunEnd(bs, i);
            && |r| > 0
            && r[|r| - 1] == (if e < |bs| then bs[|bs| - 1] else Released(bs, i))
            && (e < |bs| ==> |r| > 1)
  {
  }

  /** my_free applied to ps[0] first and then to the rest. */
  lemma FreeEachStep(bs: seq<Block>, p: nat, ps: seq<nat>)
    requires FreeSpec(bs, p).0 == Freed
    ensures FreeEach(bs, [p] + ps) == FreeEach(FreeSpec(bs, p).1, ps)
  {
    assert ([p] + ps)[0] == p && ([p] + ps)[1..] == ps;
  }

  /** A tiled, coalesced arena with no allocated block is one free block. */
  lemma AllFree(bs: seq<Block>)
    requires Tiled(bs) && Coalesced(bs) && Payloads(bs) == []
    ensures bs == [Block(0, true, SIZE_OF_HEAP - NODE_SIZE)]
  {
    PayloadsAllFree(bs);
    assert bs[0].free;
    assert |bs| == 1;
    assert bs == [bs[0]];
  }

  /** One allocated block spanning the arena: its my_free finds the list
      empty and makes it the only node. */
  lemma FreeWhole(bs: seq<Block>)
    requires Tiled(bs) && |bs| == 1 && !bs[0].free
    ensures FreeEach(bs, Payloads(bs)) == (Freed, [Block(0, true, SIZE_OF_HEAP - NODE_SIZE)])
  {
    var p := bs[0].off + HEADER_SIZE;
    AllocAtUnique(bs, 0);
    FreeListEmpty(bs);
    assert bs[1..] == [];
    assert Payloads(bs) == [p];
    assert FreeList(bs) == [];
    assert bs[0 := Release(bs[0])] == [Release(bs[0])];
    assert FreeEach(bs, [p]) == FreeSpec(bs, p);
  }

  /** The first my_free of free_all_chunks when a free node lies after the
      first allocated block i: it succeeds, and the sweep goes on from the
      released arena with the payloads after i. */
  lemma SweepStep(bs: seq<Block>, i: nat) returns (r: seq<Block>)
    requires Tiled(bs) && Coalesced(bs) && i < |bs| && !bs[i].free
    requires (forall t :: 0 <= t < i ==> bs[t].free) && FreeList(bs[i + 1..]) != []
    requires Payloads(bs) == [bs[i].off + HEADER_SIZE] + Payloads(bs[i + 1..])
    ensures r == ReleaseMerged(bs, i) && Tiled(r) && Coalesced(r)
    ensures Payloads(r) == Payloads(bs[i + 1..]) && |Payloads(r)| < |Payloads(bs)|
    ensures FreeEach(bs, Payloads(bs)) == FreeEach(r, Payloads(r))
  {
    var p := bs[i].off + HEADER_SIZE;
    FreeMiddle(bs, i);
    r := ReleaseMerged(bs, i);
    ReleaseMergedValid(bs, i);
    ReleasePayloads(bs, i);
    FreeEachStep(bs, p, Payloads(bs[i + 1..]));
  }

  /** free_all_chunks on a valid heap whose last block is free, or that is
      one block: every my_free succeeds and one free block spans the arena,
      so the free list is a single node (the first coalesce scenario). */
  lemma {:induction false} FreeAllClears(bs: seq<Block>)
    requires Tiled(bs) && Coalesced(bs) && (|bs| == 1 || bs[|bs| - 1].free)
    ensures FreeEach(bs, Payloads(bs)) == (Freed, [Block(0, true, SIZE_OF_HEAP - NODE_SIZE)])
    decreases |Payloads(bs)|
  {
    PayloadsAllFree(bs);
    if Payloads(bs) == [] {
      AllFree(bs);
    } else if |bs| == 1 {
      FreeWhole(bs);
    } else {
      var j :| 0 <= j < |bs| && !bs[j].free;
      var i := FirstAllocated(bs, j);
      HasFreeNode(bs[i + 1..], |bs| - i - 2);
      var r := SweepStep(bs, i);
      ReleaseLast(bs, i);
      FreeAllClears(r);
    }
  }

  /** The first my_free of free_all_chunks on an arena with no free node:
      block i, the first, becomes the only node. */
  lemma SweepFirst(bs: seq<Block>) returns (r: seq<Block>)
    requires Tiled(bs) && |bs| > 1 && !bs[0].free && FreeList(bs) == []
    ensures r == bs[0 := Release(bs[0])] && Tiled(r) && Coalesced(r)
    ensures |r| == |bs| && r[|r| - 1] == bs[|bs| - 1]
    ensures Payloads(r) == Payloads(bs[1..]) && |Payloads(r)| < |Payloads(bs)|
    ensures FreeEach(bs, Payloads(bs)) == FreeEach(r, Payloads(r))
  {
    var p := bs[0].off + HEADER_SIZE;
    AllocAtUnique(bs, 0);
    FreeListEmpty(bs);
    r := bs[0 := Release(bs[0])];
    ReleaseTiled(bs, 0);
    assert r[1..] == bs[1..];
    assert Payloads(bs) == [p] + Payloads(bs[1..]);
    FreeEachStep(bs, p, Payloads(bs[1..]));
  }

  /** free_all_chunks on a heap of several blocks whose last block is
      allocated: my_free runs out of list before the last block and
      dereferences NULL. */
  lemma {:induction false} FreeAllCrashes(bs: seq<Block>)
    requires Tiled(bs) && Coalesced(bs) && |bs| > 1 && !bs[|bs| - 1].free
    ensures FreeEach(bs, Payloads(bs)).0 == NullDereference
    decreases |Payloads(bs)|
  {
    var i := FirstAllocated(bs, |bs| - 1);
    if FreeList(bs) == [] {
      FreeListEmpty(bs);
      var r := SweepFirst(bs);
      FreeAllCrashes(r);
    } else if FreeList(bs[i + 1..]) == [] {
      var p := bs[i].off + HEADER_SIZE;
      AllocAtUnique(bs, i);
      assert FreeEach(bs, Payloads(bs)) == FreeSpec(bs, p);
    } else {
      var r := SweepStep(bs, i);
      ReleaseLast(bs, i);
      FreeAllCrashes(r);
    }
  }
}
