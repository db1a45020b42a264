/** The allocator of malloc_free.c on the concrete arena: `mem` holds the
    descriptors by offset, `head` is start_of_free_list, and the ghost field
    `blocks` is the block sequence the arena represents. Each operation
    follows the pointer code and is proved to implement its specification
    in BlockModel. */
module Allocator {
  import opened HeapLayout
  import opened BlockModel
  import opened Arena

  // ---------------------------------------------------------------- merge step

  /** The free list after merging free blocks j and j+1. */
  lemma MergeStepList(bs: seq<Block>, j: nat)
    requires j + 1 < |bs| && bs[j].free && bs[j + 1].free
    ensures var l, k := FreeList(bs), |FreeList(bs[..j])|;
            && k + 1 < |l| && l[k] == bs[j] && l[k + 1] == bs[j + 1]
            && FreeList(MergeAdjacent(bs, j)) == l[..k] + [Merge(bs[j], bs[j + 1])] + l[k + 2..]
  {
    var l, k := FreeList(bs), |FreeList(bs[..j])|;
    var m := Merge(bs[j], bs[j + 1]);
    BlockNode(bs, j);
    BlockNode(bs, j + 1);
    assert bs[..j + 1] == bs[..j] + [bs[j]];
    FreeListConcat(bs[..j], [bs[j]]);
    assert FreeList([bs[j]]) == [bs[j]] by { assert [bs[j]][1..] == []; }
    assert FreeList([m]) == [m] by { assert [m][1..] == []; }
    FreeListSplice(bs[..j], [m], bs[j + 2..]);
  }

  /** The block offsets that a merge of blocks j and j+1 leaves in place are
      not the merged block's offset. */
  lemma MergeStepOthers(bs: seq<Block>, j: nat)
    requires Tiled(bs) && j + 1 < |bs| && bs[j].free && bs[j + 1].free
    ensures var l, k := FreeList(bs), |FreeList(bs[..j])|;
            forall d :: 0 <= d < |l| && d != k ==> l[d].off != bs[j].off
    ensures forall d :: 0 <= d < |bs| && d != j ==> bs[d].off != bs[j].off
  {
    var l, k := FreeList(bs), |FreeList(bs[..j])|;
    MergeStepList(bs, j);
    FreeListApart(bs);
    forall d | 0 <= d < |bs| && d != j ensures bs[d].off != bs[j].off {
      BlockApart(bs, d, j);
    }
  }

  /** The memory after coalesce merges the node at block j with the node
      after it. */
  function MergedMemory(mem: Memory, bs: seq<Block>, j: nat): Memory
    requires j + 1 < |bs|
  {
    var o, t := bs[j].off, bs[j + 1].off;
    mem[o := FreeNode(SizeAt(mem, o) + SizeAt(mem, t) + NODE_SIZE, NextAt(mem, t))]
  }

  /** The merge leaves the free list threaded through the merged node. */
  lemma MergeStepNodes(mem: Memory, head: Option<nat>, bs: seq<Block>, j: nat)
    requires Tiled(bs) && ListIs(mem, head, FreeList(bs))
    requires j + 1 < |bs| && bs[j].free && bs[j + 1].free
    ensures ListIs(MergedMemory(mem, bs, j), head, FreeList(MergeAdjacent(bs, j)))
  {
    var l, k := FreeList(bs), |FreeList(bs[..j])|;
    var m := Merge(bs[j], bs[j + 1]);
    MergeStepList(bs, j);
    MergeStepOthers(bs, j);
    assert NodeAt(mem, l, k) && NodeAt(mem, l, k + 1);
    var l' := l[..k] + [m] + l[k + 2..];
    var mem' := mem[l[k].off := FreeNode(m.size, NextAt(mem, l[k + 1].off))];
    assert l[k] == bs[j] && l[k + 1] == bs[j + 1];
    assert FreeList(MergeAdjacent(bs, j)) == l';
    assert SizeAt(mem, bs[j].off) + SizeAt(mem, bs[j + 1].off) + NODE_SIZE == m.size;
    assert MergedMemory(mem, bs, j) == mem';
    ListMerge(mem, head, l, k, m);
    assert ListIs(mem', head, l');
  }

  /** The merge overwrites no header. */
  lemma MergeStepHeaders(mem: Memory, bs: seq<Block>, j: nat)
    requires Tiled(bs) && HeadersMatch(mem, bs) && HeadersLive(mem, bs)
    requires j + 1 < |bs| && bs[j].free && bs[j + 1].free
    ensures HeadersMatch(MergedMemory(mem, bs, j), MergeAdjacent(bs, j))
    ensures HeadersLive(MergedMemory(mem, bs, j), MergeAdjacent(bs, j))
  {
    var mem' := MergedMemory(mem, bs, j);
    var m := Merge(bs[j], bs[j + 1]);
    MergeStepOthers(bs, j);
    forall d | 0 <= d < |bs| && (d < j || j + 2 <= d) && !bs[d].free
      ensures bs[d].off in mem' && mem'[bs[d].off] == mem[bs[d].off]
    {
      assert HeaderAt(mem, bs[d]);
    }
    HeadersMatchSplice(mem, mem', bs, j, j + 2, [m]);
    assert bs[j..j + 2] == [bs[j], bs[j + 1]];
    HeadersLiveSplice(mem, mem', bs, j, j + 2, [m]);
  }

  /** coalesce's merge of the node at block j with the adjacent node after
      it keeps the concrete state well formed. */
  lemma MergeStep(mem: Memory, head: Option<nat>, bs: seq<Block>, j: nat)
    requires WellFormed(mem, head, bs) && j + 1 < |bs| && bs[j].free && bs[j + 1].free
    ensures WellFormed(MergedMemory(mem, bs, j), head, MergeAdjacent(bs, j))
  {
    MergeStepNodes(mem, head, bs, j);
    MergeStepHeaders(mem, bs, j);
  }

  // ---------------------------------------------------------------- worst fit

  /** One more node examined by the worst-fit scan: the candidate changes
      only for a strictly larger size. */
  lemma ArgMaxFirstStep(l: seq<Block>, c: nat)
    requires c + 1 < |l|
    ensures ArgMaxFirst(l[..c + 2]) ==
              if l[c + 1].size > l[ArgMaxFirst(l[..c + 1])].size then c + 1 else ArgMaxFirst(l[..c + 1])
  {
    assert l[..c + 2][..c + 1] == l[..c + 1];
  }

  /** What the worst-fit scan reads at the c-th node, with the k-th node the
      current candidate: the next node, and sizes that decide the next
      candidate as ArgMaxFirst does. */
  lemma ScanStep(mem: Memory, head: Option<nat>, l: seq<Block>, c: nat, k: nat)
    requires ListIs(mem, head, l) && c < |l| && k < |l| && k == ArgMaxFirst(l[..c + 1])
    ensures NextAt(mem, l[c].off) == (if c + 1 < |l| then Some(l[c + 1].off) else None)
    ensures SizeAt(mem, l[k].off) == l[k].size
    ensures c + 1 < |l| ==>
              && SizeAt(mem, l[c + 1].off) == l[c + 1].size
              && ArgMaxFirst(l[..c + 2]) == if l[c + 1].size > l[k].size then c + 1 else k
  {
    assert NodeAt(mem, l, c) && NodeAt(mem, l, k);
    if c + 1 < |l| {
      assert NodeAt(mem, l, c + 1);
      ArgMaxFirstStep(l, c);
    }
  }

  // ---------------------------------------------------------------- carve step

  /** The header size my_malloc records for the block it hands out. */
  function HeaderSize(b: Block, needed: nat): (s: nat)
    requires b.free && HEADER_SIZE <= needed <= Footprint(b)
    ensures s == Carve(b, needed)[0].size
  {
    if needed > b.size then b.size + NODE_SIZE - HEADER_SIZE else needed - HEADER_SIZE
  }

  /** The memory after my_malloc carves `needed` bytes from the k-th free
      node, in the order of the source's writes: the split node (if the
      block is split), the `next` of the node before (unless the chosen node
      is the head), then the header. */
  function CarvedMemory(mem: Memory, l: seq<Block>, k: nat, needed: nat): Memory
    requires k < |l| && l[k].free && HEADER_SIZE <= needed <= Footprint(l[k])
  {
    var b := l[k];
    var rest := FreeList(Carve(b, needed)) + l[k + 1..];
    var m1 := if needed > b.size then mem else mem[b.off + needed := FreeNode(b.size - needed, NextOff(l, k))];
    var m2 := if k == 0 then m1 else m1[l[k - 1].off := FreeNode(l[k - 1].size, Head(rest))];
    m2[b.off := Header(HeaderSize(b, needed), MAGIC_NUMBER)]
  }

  /** start_of_free_list after the carve: it moves only when the head node
      is chosen. */
  function CarvedHead(head: Option<nat>, l: seq<Block>, k: nat, needed: nat): Option<nat>
    requires k < |l| && l[k].free && HEADER_SIZE <= needed <= Footprint(l[k])
  {
    if k == 0 then Head(FreeList(Carve(l[k], needed)) + l[k + 1..]) else head
  }

  /** Free nodes of a free list do not overlap. */
  lemma NodesApart(bs: seq<Block>, d: nat, k: nat)
    requires Contiguous(bs) && d < |FreeList(bs)| && k < |FreeList(bs)| && d != k
    ensures var l := FreeList(bs);
            End(l[d]) <= l[k].off || End(l[k]) <= l[d].off
  {
    FreeListApart(bs);
  }

  /** What the carve writes, and that it writes nothing else. */
  lemma CarvedMemoryFacts(mem: Memory, bs: seq<Block>, k: nat, needed: nat)
    requires Contiguous(bs) && k < |FreeList(bs)|
    requires var l := FreeList(bs); l[k].free && HEADER_SIZE <= needed <= Footprint(l[k])
    ensures var l := FreeList(bs);
            var b := l[k];
            var m := CarvedMemory(mem, l, k, needed);
            && b.off in m && m[b.off] == Header(HeaderSize(b, needed), MAGIC_NUMBER)
            && (needed <= b.size ==>
                  b.off + needed in m && m[b.off + needed] == FreeNode(b.size - needed, NextOff(l, k)))
            && (k > 0 ==>
                  l[k - 1].off in m && m[l[k - 1].off] == FreeNode(l[k - 1].size, Head(FreeList(Carve(b, needed)) + l[k + 1..])))
            && (forall o ::
                  (o in m && o != b.off && (needed > b.size || o != b.off + needed) && (k == 0 || o != l[k - 1].off))
                  ==> o in mem && m[o] == mem[o])
  {
    var l := FreeList(bs);
    if k > 0 {
      NodesApart(bs, k - 1, k);
    }
  }

  /** The carve leaves the nodes away from the chosen one untouched. */
  lemma CarveKeepsNodes(mem: Memory, head: Option<nat>, bs: seq<Block>, k: nat, needed: nat)
    requires Contiguous(bs) && ListIs(mem, head, FreeList(bs)) && k < |FreeList(bs)|
    requires var l := FreeList(bs); l[k].free && HEADER_SIZE <= needed <= Footprint(l[k])
    ensures var l := FreeList(bs);
            var m := CarvedMemory(mem, l, k, needed);
            forall d :: 0 <= d < |l| && (d + 1 < k || k + 1 <= d) ==>
              l[d].off in mem && l[d].off in m && m[l[d].off] == mem[l[d].off]
  {
    var l := FreeList(bs);
    var m := CarvedMemory(mem, l, k, needed);
    CarvedMemoryFacts(mem, bs, k, needed);
    forall d | 0 <= d < |l| && (d + 1 < k || k + 1 <= d)
      ensures l[d].off in mem && l[d].off in m && m[l[d].off] == mem[l[d].off]
    {
      assert NodeAt(mem, l, d);
      NodesApart(bs, d, k);
      if k > 0 {
        NodesApart(bs, d, k - 1);
      }
    }
  }

  /** The remainder of a split is stored as a node that points where the
      chosen node pointed. */
  lemma CarveRemainderNode(mem: Memory, bs: seq<Block>, k: nat, needed: nat)
    requires Contiguous(bs) && k < |FreeList(bs)|
    requires var l := FreeList(bs); l[k].free && HEADER_SIZE <= needed <= Footprint(l[k])
    ensures var l := FreeList(bs);
            var fc := FreeList(Carve(l[k], needed));
            var l' := l[..k] + fc + l[k + 1..];
            forall j :: k <= j < k + |fc| ==> NodeAt(CarvedMemory(mem, l, k, needed), l', j)
  {
    var l := FreeList(bs);
    var fc := FreeList(Carve(l[k], needed));
    var l' := l[..k] + fc + l[k + 1..];
    CarveFreeList(l[k], needed);
    if needed <= l[k].size {
      CarvedMemoryFacts(mem, bs, k, needed);
      assert l'[k] == fc[0] && l'[k + 1..] == l[k + 1..];
      NextOffHead(l', k);
      NextOffHead(l, k);
    }
  }

  /** start_of_free_list after the carve is the head of the new list. */
  lemma CarveHeadIs(head: Option<nat>, l: seq<Block>, k: nat, needed: nat)
    requires k < |l| && l[k].free && HEADER_SIZE <= needed <= Footprint(l[k]) && head == Head(l)
    ensures CarvedHead(head, l, k, needed) == Head(l[..k] + FreeList(Carve(l[k], needed)) + l[k + 1..])
  {
    var l' := l[..k] + FreeList(Carve(l[k], needed)) + l[k + 1..];
    if k > 0 {
      assert l'[0] == l[0];
    } else {
      assert l' == FreeList(Carve(l[k], needed)) + l[1..];
    }
  }

  /** The node before the chosen one now points past it. */
  lemma CarvePrevNode(mem: Memory, bs: seq<Block>, k: nat, needed: nat)
    requires Contiguous(bs) && 0 < k < |FreeList(bs)|
    requires var l := FreeList(bs); l[k].free && HEADER_SIZE <= needed <= Footprint(l[k])
    ensures var l := FreeList(bs);
            var l' := l[..k] + FreeList(Carve(l[k], needed)) + l[k + 1..];
            k - 1 < |l'| && NodeAt(CarvedMemory(mem, l, k, needed), l', k - 1)
  {
    var l := FreeList(bs);
    var fc := FreeList(Carve(l[k], needed));
    var l' := l[..k] + fc + l[k + 1..];
    CarvedMemoryFacts(mem, bs, k, needed);
    assert l'[k - 1] == l[k - 1] && l'[k..] == fc + l[k + 1..];
    NextOffHead(l', k - 1);
  }

  /** The carve leaves the free list threaded through the remainder (if
      any) in place of the chosen node. */
  lemma CarveStepNodes(mem: Memory, head: Option<nat>, bs: seq<Block>, k: nat, needed: nat)
    requires Contiguous(bs) && ListIs(mem, head, FreeList(bs)) && k < |FreeList(bs)|
    requires var l := FreeList(bs); l[k].free && HEADER_SIZE <= needed <= Footprint(l[k])
    ensures var l := FreeList(bs);
            var i := FreeIndex(bs, k);
            ListIs(CarvedMemory(mem, l, k, needed), CarvedHead(head, l, k, needed),
                   FreeList(bs[..i] + Carve(bs[i], needed) + bs[i + 1..]))
  {
    var l := FreeList(bs);
    var b := l[k];
    var i := FreeIndex(bs, k);
    var fc := FreeList(Carve(b, needed));
    var l' := l[..k] + fc + l[k + 1..];
    var m := CarvedMemory(mem, l, k, needed);
    ReplaceFreeList(bs, k, Carve(bs[i], needed));
    CarveKeepsNodes(mem, head, bs, k, needed);
    CarveRemainderNode(mem, bs, k, needed);
    if k > 0 {
      CarvePrevNode(mem, bs, k, needed);
    }
    CarveHeadIs(head, l, k, needed);
    ListSplice(mem, m, head, CarvedHead(head, l, k, needed), l, k, k + 1, fc, l');
  }

  /** The carve overwrites no header of another allocated block. */
  lemma CarveKeepsHeaders(mem: Memory, bs: seq<Block>, k: nat, needed: nat)
    requires Contiguous(bs) && HeadersMatch(mem, bs) && k < |FreeList(bs)|
    requires var l := FreeList(bs); l[k].free && HEADER_SIZE <= needed <= Footprint(l[k])
    ensures var i := FreeIndex(bs, k);
            var m := CarvedMemory(mem, FreeList(bs), k, needed);
            forall d :: 0 <= d < |bs| && (d < i || i + 1 <= d) && !bs[d].free ==>
              bs[d].off in m && m[bs[d].off] == mem[bs[d].off]
  {
    var l := FreeList(bs);
    var i := FreeIndex(bs, k);
    var m := CarvedMemory(mem, l, k, needed);
    CarvedMemoryFacts(mem, bs, k, needed);
    forall d | 0 <= d < |bs| && (d < i || i + 1 <= d) && !bs[d].free
      ensures bs[d].off in m && m[bs[d].off] == mem[bs[d].off]
    {
      assert HeaderAt(mem, bs[d]);
      BlockApart(bs, d, i);
      if k > 0 {
        BlockApart(bs, d, FreeIndex(bs, k - 1));
      }
    }
  }

  /** After the carve, a magic header is the new block's or one that was
      there before, outside the chosen block. */
  lemma CarveLiveHeaders(mem: Memory, bs: seq<Block>, k: nat, needed: nat)
    requires Contiguous(bs) && k < |FreeList(bs)|
    requires var l := FreeList(bs); l[k].free && HEADER_SIZE <= needed <= Footprint(l[k])
    ensures var i := FreeIndex(bs, k);
            var m := CarvedMemory(mem, FreeList(bs), k, needed);
            forall o :: o in m && IsMagic(m[o]) ==>
              AllocAt(Carve(bs[i], needed), o).Some? ||
              (o in mem && m[o] == mem[o] && AllocAt(bs[i..i + 1], o).None?)
  {
    var l := FreeList(bs);
    var i := FreeIndex(bs, k);
    var c := Carve(bs[i], needed);
    CarvedMemoryFacts(mem, bs, k, needed);
    assert bs[i..i + 1] == [bs[i]] && [bs[i]][1..] == [];
    assert AllocAt(c, bs[i].off).Some?;
  }

  /** The carve writes the new block's header and overwrites no other
      header. */
  lemma CarveStepHeaders(mem: Memory, bs: seq<Block>, k: nat, needed: nat)
    requires Contiguous(bs) && HeadersMatch(mem, bs) && HeadersLive(mem, bs) && k < |FreeList(bs)|
    requires var l := FreeList(bs); l[k].free && HEADER_SIZE <= needed <= Footprint(l[k])
    ensures var l := FreeList(bs);
            var i := FreeIndex(bs, k);
            var m := CarvedMemory(mem, l, k, needed);
            var bs' := bs[..i] + Carve(bs[i], needed) + bs[i + 1..];
            HeadersMatch(m, bs') && HeadersLive(m, bs')
  {
    var l := FreeList(bs);
    var i := FreeIndex(bs, k);
    var c := Carve(bs[i], needed);
    var m := CarvedMemory(mem, l, k, needed);
    CarveKeepsHeaders(mem, bs, k, needed);
    CarvedMemoryFacts(mem, bs, k, needed);
    assert HeaderAt(m, c[0]);
    HeadersMatchSplice(mem, m, bs, i, i + 1, c);
    CarveLiveHeaders(mem, bs, k, needed);
    HeadersLiveSplice(mem, m, bs, i, i + 1, c);
  }

  /** The carve keeps the concrete state well formed. */
  lemma CarveStep(mem: Memory, head: Option<nat>, bs: seq<Block>, k: nat, needed: nat)
    requires WellFormed(mem, head, bs) && k < |FreeList(bs)|
    requires HEADER_SIZE <= needed <= Footprint(FreeList(bs)[k])
    ensures var l := FreeList(bs);
            var i := FreeIndex(bs, k);
            && l[k].free
            && WellFormed(CarvedMemory(mem, l, k, needed), CarvedHead(head, l, k, needed),
                          bs[..i] + Carve(bs[i], needed) + bs[i + 1..])
  {
    var i := FreeIndex(bs, k);
    CarveStepNodes(mem, head, bs, k, needed);
    CarveStepHeaders(mem, bs, k, needed);
    SpliceTiled(bs, i, i + 1, Carve(bs[i], needed));
  }

  /** What my_malloc reads before it carves the k-th node: its size and
      `next`, the size of the node before it, and whether it is the head. */
  lemma CarveReads(mem: Memory, head: Option<nat>, bs: seq<Block>, k: nat)
    requires Contiguous(bs) && ListIs(mem, head, FreeList(bs)) && k < |FreeList(bs)|
    ensures var l := FreeList(bs);
            && l[k].free && head.Some?
            && SizeAt(mem, l[k].off) == l[k].size && NextAt(mem, l[k].off) == NextOff(l, k)
            && (k == 0 <==> l[k].off == head.value)
            && (k > 0 ==> SizeAt(mem, l[k - 1].off) == l[k - 1].size && l[k - 1].off + NODE_SIZE <= l[k].off)
  {
    var l := FreeList(bs);
    assert NodeAt(mem, l, k) && NodeAt(mem, l, 0);
    if k > 0 {
      assert NodeAt(mem, l, k - 1);
      NodesApart(bs, 0, k);
      FreeListApart(bs);
      assert End(l[k - 1]) <= l[k].off;
    }
    assert bs[FreeIndex(bs, k)] == l[k];
  }

  /** What follows the chosen node once it is carved: the remainder of a
      split, or the node that followed it. */
  lemma CarveRest(l: seq<Block>, k: nat, needed: nat)
    requires k < |l| && l[k].free && HEADER_SIZE <= needed <= Footprint(l[k])
    ensures Head(FreeList(Carve(l[k], needed)) + l[k + 1..]) ==
              if needed > l[k].size then NextOff(l, k) else Some(l[k].off + needed)
  {
    NextOffHead(l, k);
    CarveFreeList(l[k], needed);
  }

  /** What my_malloc's carve relies on having read: the chosen node `best`
      is the k-th of `l`, stored with its size and next; `prev` is the one
      before it, wholly below it; and what follows the carve is known. */
  ghost predicate CarveInputs(mem: Memory, head: Option<nat>, l: seq<Block>, k: nat,
                              prev: nat, best: nat, needed: nat)
  {
    && k < |l| && l[k].free && best == l[k].off && HEADER_SIZE <= needed <= Footprint(l[k])
    && SizeAt(mem, best) == l[k].size && NextAt(mem, best) == NextOff(l, k)
    && head.Some? && (k == 0 <==> best == head.value)
    && (k > 0 ==> prev == l[k - 1].off && SizeAt(mem, prev) == l[k - 1].size && prev + NODE_SIZE <= best)
    && Head(FreeList(Carve(l[k], needed)) + l[k + 1..]) ==
         if needed > l[k].size then NextOff(l, k) else Some(best + needed)
  }

  /** The worst fit, once large enough, gives the carve what it relies on. */
  lemma CarveReady(mem: Memory, head: Option<nat>, bs: seq<Block>, size: nat, k: nat, prev: nat, best: nat)
    requires WellFormed(mem, head, bs) && 0 < size <= SIZE_OF_HEAP
    requires FreeList(bs) != [] && k == ArgMaxFirst(FreeList(bs))
    requires best == FreeList(bs)[k].off
    requires prev == FreeList(bs)[if k == 0 then 0 else k - 1].off
    requires Align(size) <= FreeList(bs)[k].size + NODE_SIZE
    ensures CarveInputs(mem, head, FreeList(bs), k, prev, best, Align(size))
  {
    var l := FreeList(bs);
    CarveReads(mem, head, bs, k);
    CarveRest(l, k, Align(size));
  }

  /** The first three guards of my_malloc. */
  lemma MallocGuards(bs: seq<Block>, size: nat)
    requires size < SIZE_T_MODULUS
    ensures FreeList(bs) == [] ==> MallocSpec(bs, size).0 == Refused(NoFreeChunks) && MallocSpec(bs, size).1 == bs
    ensures FreeList(bs) != [] && size > SIZE_OF_HEAP ==>
              MallocSpec(bs, size).0 == Refused(SizeExceedsHeap) && MallocSpec(bs, size).1 == bs
    ensures FreeList(bs) != [] && size == 0 ==>
              MallocSpec(bs, size).0 == Refused(ZeroSize) && MallocSpec(bs, size).1 == bs
  {
  }

  /** When the worst-fit node is too small, my_malloc refuses. */
  lemma MallocNoFit(bs: seq<Block>, size: nat, k: nat)
    requires size < SIZE_T_MODULUS && FreeList(bs) != [] && 0 < size <= SIZE_OF_HEAP
    requires k == ArgMaxFirst(FreeList(bs)) && Align(size) > FreeList(bs)[k].size + NODE_SIZE
    ensures MallocSpec(bs, size).0 == Refused(NoChunkBigEnough) && MallocSpec(bs, size).1 == bs
  {
  }

  /** When my_malloc passes its guards, the worst-fit node is carved: the
      result and the new blocks are those of MallocSpec. */
  lemma MallocCarves(bs: seq<Block>, size: nat, k: nat)
    requires size < SIZE_T_MODULUS && FreeList(bs) != [] && 0 < size <= SIZE_OF_HEAP
    requires k == ArgMaxFirst(FreeList(bs)) && Align(size) <= FreeList(bs)[k].size + NODE_SIZE
    ensures var i := FreeIndex(bs, k);
            && MallocSpec(bs, size).0 == Allocated(FreeList(bs)[k].off + HEADER_SIZE)
            && MallocSpec(bs, size).1 == bs[..i] + Carve(bs[i], Align(size)) + bs[i + 1..]
  {
    assert !(Align(size) > FreeList(bs)[k].size + NODE_SIZE);
    assert MallocSpec(bs, size).0.Allocated?;
    MallocShape(bs, size);
  }

  /** A successful my_malloc, from the memory the carve leaves: the state is
      well formed and coalesced, and it is what MallocSpec describes. */
  lemma MallocSucceeds(mem0: Memory, head0: Option<nat>, bs: seq<Block>, size: nat, k: nat,
                       mem: Memory, head: Option<nat>)
    requires WellFormed(mem0, head0, bs) && Coalesced(bs) && size < SIZE_T_MODULUS
    requires FreeList(bs) != [] && 0 < size <= SIZE_OF_HEAP
    requires k == ArgMaxFirst(FreeList(bs)) && Align(size) <= FreeList(bs)[k].size + NODE_SIZE
    requires FreeList(bs)[k].free
    requires mem == CarvedMemory(mem0, FreeList(bs), k, Align(size))
    requires head == CarvedHead(head0, FreeList(bs), k, Align(size))
    ensures MallocSpec(bs, size).0 == Allocated(FreeList(bs)[k].off + HEADER_SIZE)
    ensures WellFormed(mem, head, MallocSpec(bs, size).1) && Coalesced(MallocSpec(bs, size).1)
  {
    MallocCarves(bs, size, k);
    CarvePreserves(bs, FreeIndex(bs, k), Align(size));
    CarveStep(mem0, head0, bs, k, Align(size));
  }

  // ---------------------------------------------------------------- free step

  /** my_free's magic check: a header with the magic number sits at offset
      `o` exactly when an allocated block starts there, and its size field is
      that block's size. */
  lemma MagicCheck(mem: Memory, head: Option<nat>, bs: seq<Block>, o: nat)
    requires WellFormed(mem, head, bs)
    ensures MagicAt(mem, o) == MAGIC_NUMBER <==> AllocAt(bs, o).Some?
    ensures AllocAt(bs, o).Some? ==> SizeAt(mem, o) == bs[AllocAt(bs, o).value].size
  {
    if AllocAt(bs, o).Some? {
      assert HeaderAt(mem, bs[AllocAt(bs, o).value]);
    } else if o in mem {
      assert !IsMagic(mem[o]);
    }
  }

  /** The insertion scan of my_free stops at the first node past the freed
      block: the nodes of the free blocks before block i lie below its
      offset, those after it above. */
  lemma FreeSlot(bs: seq<Block>, i: nat)
    requires Contiguous(bs) && i < |bs| && !bs[i].free
    ensures var l, c := FreeList(bs), |FreeList(bs[..i])|;
            && c <= |l|
            && (forall d :: 0 <= d < c ==> End(l[d]) <= bs[i].off)
            && (forall d :: c <= d < |l| ==> End(bs[i]) <= l[d].off)
            && (c == |l| <==> FreeList(bs[i + 1..]) == [])
  {
    var l, a, b := FreeList(bs), FreeList(bs[..i]), FreeList(bs[i + 1..]);
    ReleaseFreeList(bs, i);
    FreeBelow(bs, i);
    FreeAbove(bs, i);
    assert l == a + b;
    assert forall d :: 0 <= d < |a| ==> l[d] == a[d];
    assert forall d :: |a| <= d < |l| ==> l[d] == b[d - |a|];
  }

  /** The free blocks before block i end before it starts. */
  lemma FreeBelow(bs: seq<Block>, i: nat)
    requires Contiguous(bs) && i < |bs|
    ensures var a := FreeList(bs[..i]); forall d :: 0 <= d < |a| ==> End(a[d]) <= bs[i].off
  {
    var a := FreeList(bs[..i]);
    forall d | 0 <= d < |a| ensures End(a[d]) <= bs[i].off {
      FreeListMember(bs[..i], a[d]);
      ContiguousBefore(bs, i, a[d]);
    }
  }

  /** The free blocks after block i start after it ends. */
  lemma FreeAbove(bs: seq<Block>, i: nat)
    requires Contiguous(bs) && i < |bs|
    ensures var b := FreeList(bs[i + 1..]); forall d :: 0 <= d < |b| ==> End(bs[i]) <= b[d].off
  {
    var b := FreeList(bs[i + 1..]);
    forall d | 0 <= d < |b| ensures End(bs[i]) <= b[d].off {
      FreeListMember(bs[i + 1..], b[d]);
      ContiguousAfter(bs, i, b[d]);
    }
  }

  /** The released block joins the free list in address order. */
  lemma InsertNodes(mem: Memory, head: Option<nat>, bs: seq<Block>, i: nat)
    requires Tiled(bs) && ListIs(mem, head, FreeList(bs))
    requires i < |bs| && !bs[i].free && FreeList(bs[i + 1..]) != []
    ensures var l, c := FreeList(bs), |FreeList(bs[..i])|;
            && c < |l|
            && ListIs(InsertedMemory(mem, l, c, bs[i].off, bs[i].size),
                      if c == 0 then Some(bs[i].off) else head, FreeList(bs[i := Release(bs[i])]))
  {
    var l, c, r := FreeList(bs), |FreeList(bs[..i])|, Release(bs[i]);
    FreeSlot(bs, i);
    ReleaseFreeList(bs, i);
    FreeListApart(bs);
    assert l[..c] == FreeList(bs[..i]) && l[c..] == FreeList(bs[i + 1..]);
    assert FreeList(bs[i := r]) == l[..c] + [r] + l[c..];
    ListInsert(mem, head, l, c, r);
  }

  /** my_free overwrites only the freed block's header and, below the head,
      the node of free block t before it: every other header survives, and
      no magic header is left at either offset. */
  lemma InsertHeaders(mem: Memory, mem': Memory, bs: seq<Block>, i: nat, t: nat)
    requires Tiled(bs) && HeadersMatch(mem, bs) && HeadersLive(mem, bs)
    requires i < |bs| && !bs[i].free && t < |bs| && (t == i || bs[t].free)
    requires forall q :: q != bs[i].off && q != bs[t].off ==>
               (q in mem' <==> q in mem) && (q in mem ==> mem'[q] == mem[q])
    requires bs[i].off in mem' && !IsMagic(mem'[bs[i].off])
    requires bs[t].off in mem' && !IsMagic(mem'[bs[t].off])
    ensures HeadersMatch(mem', bs[i := Release(bs[i])]) && HeadersLive(mem', bs[i := Release(bs[i])])
  {
    var r := Release(bs[i]);
    assert bs[i := r] == bs[..i] + [r] + bs[i + 1..];
    InsertKeepsHeaders(mem, mem', bs, i, t);
    HeadersMatchSplice(mem, mem', bs, i, i + 1, [r]);
    InsertKeepsLive(mem, mem', bs, i, t);
    HeadersLiveSplice(mem, mem', bs, i, i + 1, [r]);
  }

  /** The headers of the other allocated blocks are not at either offset
      my_free writes. */
  lemma InsertKeepsHeaders(mem: Memory, mem': Memory, bs: seq<Block>, i: nat, t: nat)
    requires Contiguous(bs) && HeadersMatch(mem, bs)
    requires i < |bs| && !bs[i].free && t < |bs| && (t == i || bs[t].free)
    requires forall q :: q != bs[i].off && q != bs[t].off ==>
               (q in mem' <==> q in mem) && (q in mem ==> mem'[q] == mem[q])
    ensures forall d :: 0 <= d < |bs| && (d < i || i + 1 <= d) && !bs[d].free ==>
              bs[d].off in mem' && mem'[bs[d].off] == mem[bs[d].off]
  {
    forall d | 0 <= d < |bs| && (d < i || i + 1 <= d) && !bs[d].free
      ensures bs[d].off in mem' && mem'[bs[d].off] == mem[bs[d].off]
    {
      assert HeaderAt(mem, bs[d]);
      BlockApart(bs, d, i);
      if t != i {
        BlockApart(bs, d, t);
      }
    }
  }

  /** Every magic header left after my_free's writes is an old one, not
      that of block i. */
  lemma InsertKeepsLive(mem: Memory, mem': Memory, bs: seq<Block>, i: nat, t: nat)
    requires i < |bs| && !bs[i].free && t < |bs|
    requires forall q :: q != bs[i].off && q != bs[t].off ==>
               (q in mem' <==> q in mem) && (q in mem ==> mem'[q] == mem[q])
    requires bs[i].off in mem' && !IsMagic(mem'[bs[i].off])
    requires bs[t].off in mem' && !IsMagic(mem'[bs[t].off])
    ensures forall q :: q in mem' && IsMagic(mem'[q]) ==>
              AllocAt([Release(bs[i])], q).Some? || (q in mem && mem'[q] == mem[q] && AllocAt(bs[i..i + 1], q).None?)
  {
    assert bs[i..i + 1] == [bs[i]];
    forall q | q in mem' && IsMagic(mem'[q])
      ensures AllocAt([Release(bs[i])], q).Some? || (q in mem && mem'[q] == mem[q] && AllocAt(bs[i..i + 1], q).None?)
    {
      assert q != bs[i].off && q != bs[t].off;
      assert [bs[i]][1..] == [];
    }
  }

  /** Releasing block i in place keeps the arena tiled. */
  lemma ReleaseTiled(bs: seq<Block>, i: nat)
    requires Tiled(bs) && i < |bs| && !bs[i].free
    ensures Tiled(bs[i := Release(bs[i])])
  {
    var r := Release(bs[i]);
    assert bs[i := r] == bs[..i] + [r] + bs[i + 1..];
    SpliceTiled(bs, i, i + 1, [r]);
  }

  /** The insertion of my_free, before coalesce, keeps the concrete state
      well formed: it represents the blocks with block i released. */
  lemma InsertStep(mem: Memory, head: Option<nat>, bs: seq<Block>, i: nat)
    requires WellFormed(mem, head, bs) && i < |bs| && !bs[i].free && FreeList(bs[i + 1..]) != []
    ensures var l, c := FreeList(bs), |FreeList(bs[..i])|;
            && c < |l|
            && WellFormed(InsertedMemory(mem, l, c, bs[i].off, bs[i].size),
                          if c == 0 then Some(bs[i].off) else head, bs[i := Release(bs[i])])
  {
    var l, c, o := FreeList(bs), |FreeList(bs[..i])|, bs[i].off;
    InsertNodes(mem, head, bs, i);
    ReleaseTiled(bs, i);
    var t := if c == 0 then i else FreeIndex(bs, c - 1);
    var mem' := InsertedMemory(mem, l, c, o, bs[i].size);
    FreeSlot(bs, i);
    InsertedFrame(mem, l, c, o, bs[i].size);
    assert bs[t].off == (if c == 0 then o else l[c - 1].off);
    InsertHeaders(mem, mem', bs, i, t);
  }

  /** The very first free of a heap with no free node: block i, alone in
      the free list, is the new head. */
  lemma InsertAlone(mem: Memory, head: Option<nat>, bs: seq<Block>, i: nat)
    requires WellFormed(mem, head, bs) && FreeList(bs) == [] && i < |bs| && !bs[i].free
    ensures WellFormed(mem[bs[i].off := FreeNode(bs[i].size, None)], Some(bs[i].off), bs[i := Release(bs[i])])
  {
    var r := Release(bs[i]);
    var mem' := mem[bs[i].off := FreeNode(bs[i].size, None)];
    ReleaseFreeList(bs, i);
    assert FreeList(bs[i := r]) == [r];
    assert NodeAt(mem', [r], 0);
    ReleaseTiled(bs, i);
    InsertHeaders(mem, mem', bs, i, i);
  }

  /** The outcome of my_free on a released block i, case by case. */
  lemma FreeOutcome(bs: seq<Block>, p: nat, i: nat)
    requires Tiled(bs) && Coalesced(bs) && p >= HEADER_SIZE && AllocAt(bs, p - HEADER_SIZE) == Some(i)
    ensures FreeList(bs) == [] ==> FreeSpec(bs, p).0 == Freed && FreeSpec(bs, p).1 == bs[i := Release(bs[i])]
    ensures FreeList(bs) != [] && FreeList(bs[i + 1..]) == [] ==>
              FreeSpec(bs, p).0 == NullDereference && FreeSpec(bs, p).1 == bs
    ensures FreeList(bs) != [] && FreeList(bs[i + 1..]) != [] ==>
              FreeSpec(bs, p).0 == Freed && FreeSpec(bs, p).1 == MergeRuns(bs[i := Release(bs[i])])
    ensures Coalesced(FreeSpec(bs, p).1)
  {
    FreePreserves(bs, p);
  }

  // ---------------------------------------------------------------- the heap

  class Heap {
    /** The arena's descriptors, by offset. */
    var mem: Memory
    /** start_of_free_list. */
    var head: Option<nat>
    /** The blocks the arena holds. */
    ghost var blocks: seq<Block>

    ghost predicate Valid()
      reads this
    {
      WellFormed(mem, head, blocks) && Coalesced(blocks)
    }

    /** A fresh heap, initialised as by init_heap. */
    constructor ()
      ensures Valid() && blocks == [Block(0, true, SIZE_OF_HEAP - NODE_SIZE)]
      ensures head == Some(0) && mem == map[0 := FreeNode(SIZE_OF_HEAP - NODE_SIZE, None)]
    {
      new;
      InitHeap();
    }

    /** init_heap: a fresh arena holding one free node, at offset 0, that
        spans it. */
    method InitHeap()
      modifies this
      ensures Valid() && blocks == [Block(0, true, SIZE_OF_HEAP - NODE_SIZE)]
      ensures head == Some(0) && mem == map[0 := FreeNode(SIZE_OF_HEAP - NODE_SIZE, None)]
    {
      mem := map[0 := FreeNode(SIZE_OF_HEAP - NODE_SIZE, None)];
      head := Some(0);
      blocks := [Block(0, true, SIZE_OF_HEAP - NODE_SIZE)];
      assert FreeList(blocks) == blocks by { assert blocks[1..] == []; }
      assert NodeAt(mem, FreeList(blocks), 0);
    }

    /** The merge step of coalesce: the node at `c`, free block j, absorbs
        the adjacent node at `t` after it. */
    method MergeWithNext(c: nat, t: nat, ghost j: nat)
      requires WellFormed(mem, head, blocks) && j + 1 < |blocks| && blocks[j].free && blocks[j + 1].free
      requires c == blocks[j].off && t == blocks[j + 1].off
      modifies this
      ensures mem == MergedMemory(old(mem), old(blocks), j) && head == old(head)
      ensures blocks == MergeAdjacent(old(blocks), j)
      ensures WellFormed(mem, head, blocks)
    {
      MergeStep(mem, head, blocks, j);
      mem := mem[c := FreeNode(SizeAt(mem, c) + SizeAt(mem, t) + NODE_SIZE, NextAt(mem, t))];
      blocks := MergeAdjacent(blocks, j);
    }

    /** The worst-fit scan of my_malloc: walks the whole list and keeps the
        first node of largest size, and the node before it (the head itself
        when the head is chosen). */
    method FindWorstFit() returns (prev: nat, best: nat, ghost k: nat)
      requires WellFormed(mem, head, blocks) && head.Some?
      ensures var l := FreeList(blocks);
              && l != [] && k == ArgMaxFirst(l) && best == l[k].off
              && prev == l[if k == 0 then 0 else k - 1].off
    {
      ghost var l := FreeList(blocks);
      var curr := head;
      best := head.value;
      prev := best;
      k := 0;
      ghost var c: nat := 0;
      assert |l[..1]| == 1;
      while curr.Some?
        invariant c <= |l| && curr == (if c < |l| then Some(l[c].off) else None)
        invariant k == ArgMaxFirst(l[..if c < |l| then c + 1 else |l|])
        invariant k < |l| && best == l[k].off && prev == l[if k == 0 then 0 else k - 1].off
        decreases |l| - c
      {
        ScanStep(mem, head, l, c, k);
        var nxt := NextAt(mem, curr.value);
        if nxt.Some? && SizeAt(mem, nxt.value) > SizeAt(mem, best) {
          prev := curr.value;
          best := nxt.value;
          k := c + 1;
        }
        curr := nxt;
        c := c + 1;
      }
      assert l[..|l|] == l;
    }

    /** my_malloc: the guards in the source's order, the worst-fit scan, and
        the carve of the chosen node, unlinking it or replacing it by the
        split-off remainder. The remainder of a split below the head points
        where the chosen node pointed, and a block taken whole records its
        whole size (Findings.CarvedMemoryAsWritten models the source's
        version of both writes). */
    method Malloc(size: nat) returns (r: MallocResult)
      requires Valid() && size < SIZE_T_MODULUS
      modifies this
      ensures Valid() && r == MallocSpec(old(blocks), size).0 && blocks == MallocSpec(old(blocks), size).1
    {
      MallocGuards(blocks, size);
      if head.None? {
        return Refused(NoFreeChunks);
      }
      if size > SIZE_OF_HEAP {
        return Refused(SizeExceedsHeap);
      } else if size == 0 {
        return Refused(ZeroSize);
      }
      var needed := Align(size);
      var prev, best, k := FindWorstFit();
      CarveReads(mem, head, blocks, k);
      if needed > SizeAt(mem, best) + NODE_SIZE {
        MallocNoFit(blocks, size, k);
        return Refused(NoChunkBigEnough);
      }
      r := CarveBest(size, prev, best, k);
    }

    /** The carve of my_malloc once the worst fit `best` (the k-th free
        node, `prev` its predecessor) is known to be large enough. */
    method CarveBest(size: nat, prev: nat, best: nat, ghost k: nat) returns (r: MallocResult)
      requires Valid() && 0 < size <= SIZE_OF_HEAP
      requires FreeList(blocks) != [] && k == ArgMaxFirst(FreeList(blocks))
      requires best == FreeList(blocks)[k].off
      requires prev == FreeList(blocks)[if k == 0 then 0 else k - 1].off
      requires Align(size) <= FreeList(blocks)[k].size + NODE_SIZE
      modifies this
      ensures Valid() && r == MallocSpec(old(blocks), size).0 && blocks == MallocSpec(old(blocks), size).1
    {
      var needed := Align(size);
      CarveReady(mem, head, blocks, size, k, prev, best);
      ghost var mem0, head0, bs0 := mem, head, blocks;
      CarveChunk(prev, best, needed, FreeList(bs0), k);
      MallocSucceeds(mem0, head0, bs0, size, k, mem, head);
      blocks := MallocSpec(bs0, size).1;
      r := Allocated(best + HEADER_SIZE);
    }

    /** The carve of my_malloc, given what it has read: the chosen node
        `best` (the k-th of `l`, after `prev`) is unlinked or replaced by the
        remainder of a split, and its header is written. */
    method CarveChunk(prev: nat, best: nat, needed: nat, ghost l: seq<Block>, ghost k: nat)
      requires CarveInputs(mem, head, l, k, prev, best, needed)
      modifies this
      ensures mem == CarvedMemory(old(mem), l, k, needed) && head == CarvedHead(old(head), l, k, needed)
      ensures blocks == old(blocks)
    {
      ghost var mem0 := mem;
      var bsize := SizeAt(mem, best);
      var prevNext := NextAt(mem, best);
      if best == head.value {
        if needed > bsize {
          head := prevNext;
        } else {
          mem := mem[best + needed := FreeNode(bsize - needed, prevNext)];
          head := Some(best + needed);
        }
      } else {
        if needed > bsize {
          mem := mem[prev := FreeNode(SizeAt(mem, prev), prevNext)];
        } else {
          mem := mem[best + needed := FreeNode(bsize - needed, prevNext)];
          assert SizeAt(mem, prev) == SizeAt(mem0, prev);
          mem := mem[prev := FreeNode(SizeAt(mem, prev), Some(best + needed))];
        }
      }
      mem := mem[best := Header(if needed > bsize then bsize + NODE_SIZE - HEADER_SIZE else needed - HEADER_SIZE,
                                MAGIC_NUMBER)];
    }

    /** my_free: the magic-number check on the header before `p`, the
        insertion of the released block into the address-ordered free list
        (as the new head, or after the last node below it), and coalesce. A
        heap with no free node takes the block as its only node and returns
        without coalescing. */
    method Free(p: nat) returns (r: FreeResult)
      requires Valid()
      modifies this
      ensures Valid() && r == FreeSpec(old(blocks), p).0 && blocks == FreeSpec(old(blocks), p).1
    {
      if p < HEADER_SIZE {
        return InvalidFreeAddress;
      }
      var o := p - HEADER_SIZE;
      MagicCheck(mem, head, blocks, o);
      if MagicAt(mem, o) != MAGIC_NUMBER {
        return InvalidFreeAddress;
      }
      ghost var i := AllocAt(blocks, o).value;
      ghost var bs0 := blocks;
      FreeOutcome(bs0, p, i);
      var nodeSize := SizeAt(mem, o) - HEADER_SIZE + NODE_SIZE;
      if head.None? {
        InsertAlone(mem, head, blocks, i);
        mem := mem[o := FreeNode(nodeSize, None)];
        head := Some(o);
        blocks := blocks[i := Release(blocks[i])];
        return Freed;
      }
      var prev, curr, c := FindSlot(o, i);
      if curr.None? {
        return NullDereference;
      }
      LinkFreed(o, nodeSize, prev, curr.value, i, c);
      Coalesce();
      return Freed;
    }

    /** The insertion of my_free: the released block i, at `o`, goes in
        front of the node `next`, the c-th of the list; it becomes the head
        when `next` is the head, and otherwise `prev`, the node before
        `next`, is linked to it. */
    method LinkFreed(o: nat, nodeSize: nat, prev: nat, next: nat, ghost i: nat, ghost c: nat)
      requires WellFormed(mem, head, blocks) && i < |blocks| && !blocks[i].free
      requires o == blocks[i].off && nodeSize == blocks[i].size && FreeList(blocks[i + 1..]) != []
      requires c == |FreeList(blocks[..i])| && c < |FreeList(blocks)| && next == FreeList(blocks)[c].off
      requires prev == FreeList(blocks)[if c == 0 then 0 else c - 1].off
      modifies this
      ensures blocks == old(blocks)[i := Release(old(blocks)[i])]
      ensures WellFormed(mem, head, blocks)
    {
      ghost var l := FreeList(blocks);
      InsertStep(mem, head, blocks, i);
      FreeListApart(blocks);
      assert NodeAt(mem, l, 0);
      assert c > 0 ==> End(l[0]) <= l[c].off;
      if next == head.value {
        mem := mem[o := FreeNode(nodeSize, head)];
        head := Some(o);
      } else {
        mem := mem[prev := FreeNode(SizeAt(mem, prev), Some(o))];
        mem := mem[o := FreeNode(nodeSize, Some(next))];
      }
      blocks := blocks[i := Release(blocks[i])];
    }

    /** The insertion scan of my_free: walks the list while the cursor is
        below `o`, the offset of allocated block i. It stops at the first
        node above `o`, with `prev` the node before it (the head itself when
        the head is above `o`); a cursor that runs off the list (`curr`
        None) is where the source goes on to dereference NULL. */
    method FindSlot(o: nat, ghost i: nat) returns (prev: nat, curr: Option<nat>, ghost c: nat)
      requires WellFormed(mem, head, blocks) && head.Some?
      requires i < |blocks| && !blocks[i].free && o == blocks[i].off
      ensures var l := FreeList(blocks);
              && c == |FreeList(blocks[..i])| && 0 < |l| && c <= |l|
              && (forall d :: 0 <= d < c ==> l[d].off < o)
              && (curr.None? <==> FreeList(blocks[i + 1..]) == [])
              && (curr.Some? ==> c < |l| && curr.value == l[c].off && o < curr.value)
              && prev == l[if c == 0 then 0 else c - 1].off
    {
      ghost var l := FreeList(blocks);
      FreeSlot(blocks, i);
      prev := head.value;
      curr := head;
      c := 0;
      while curr.Some? && curr.value < o
        invariant c <= |l| && curr == (if c < |l| then Some(l[c].off) else None)
        invariant 0 < |l| && prev == l[if c == 0 then 0 else c - 1].off
        invariant forall d :: 0 <= d < c ==> l[d].off < o
        decreases |l| - c
      {
        assert NodeAt(mem, l, c);
        prev := curr.value;
        curr := NextAt(mem, curr.value);
        c := c + 1;
      }
    }

    /** coalesce: one pass along the free list; a node whose end is its
        successor absorbs it and is examined again. */
    method Coalesce()
      requires WellFormed(mem, head, blocks)
      modifies this
      ensures WellFormed(mem, head, blocks) && blocks == MergeRuns(old(blocks))
    {
      var curr := head;
      HeadIsCursor(mem, head, blocks);
      CoalesceStart(blocks);
      ghost var j: nat := NextFree(blocks, 0);
      while curr.Some?
        invariant WellFormed(mem, head, blocks)
        invariant j <= |blocks| && curr == Cursor(blocks, j) && (j < |blocks| ==> blocks[j].free)
        invariant MergeRuns(old(blocks)) == blocks[..j] + MergeRuns(blocks[j..])
        decreases |blocks| - j + (if curr.Some? then 1 else 0)
      {
        CoalesceAt(blocks, j);
        var c := curr.value;
        NodeOfBlock(mem, head, blocks, j);
        var next := NextAt(mem, c);
        if next.Some? && c + NODE_SIZE + SizeAt(mem, c) == next.value {
          MergeRunsAt(blocks, j);
          MergeWithNext(c, next.value, j);
        } else {
          CoalesceSkip(blocks, j, MergeRuns(old(blocks)));
          curr := next;
          j := NextFree(blocks, j + 1);
        }
      }
      CoalesceDone(blocks, j, MergeRuns(old(blocks)));
    }
  }

  /** When the cursor runs off the list, every block has been passed. */
  lemma CoalesceDone(bs: seq<Block>, j: nat, target: seq<Block>)
    requires j <= |bs| && Cursor(bs, j).None? && (j < |bs| ==> bs[j].free)
    requires target == bs[..j] + MergeRuns(bs[j..])
    ensures target == bs
  {
    if j < |bs| {
      CursorStep(bs, j);
    }
    assert bs[j..] == [] && bs[..j] == bs;
  }

  /** The loop of coalesce starts at the first free block. */
  lemma CoalesceStart(bs: seq<Block>)
    ensures var n := NextFree(bs, 0);
            && Cursor(bs, 0) == Cursor(bs, n)
            && MergeRuns(bs) == bs[..n] + MergeRuns(bs[n..])
  {
    var n := NextFree(bs, 0);
    CursorIsNextFree(bs, 0);
    CursorIsNextFree(bs, n);
    MergeRunsKeepsPrefix(bs, 0, n);
    assert bs[0..] == bs && bs[..n] == bs[0..n];
  }

  /** The loop of coalesce stands at free block j: the node there is the
      cursor, and its successor is adjacent exactly when block j+1 is free. */
  lemma CoalesceAt(bs: seq<Block>, j: nat)
    requires Contiguous(bs) && j <= |bs| && Cursor(bs, j).Some? && (j < |bs| ==> bs[j].free)
    ensures j < |bs| && Cursor(bs, j) == Some(bs[j].off)
    ensures (Cursor(bs, j + 1).Some? && bs[j].off + NODE_SIZE + bs[j].size == Cursor(bs, j + 1).value)
            <==> j + 1 < |bs| && bs[j + 1].free
    ensures j + 1 < |bs| && bs[j + 1].free ==> Cursor(bs, j + 1) == Some(bs[j + 1].off)
  {
    CursorStep(bs, j);
    CursorAdjacent(bs, j);
  }

  /** A node not adjacent to its successor is left alone: the loop moves on
      to the next free block, and coalescing keeps the blocks in between. */
  lemma CoalesceSkip(bs: seq<Block>, j: nat, target: seq<Block>)
    requires Contiguous(bs) && j < |bs| && bs[j].free && !(j + 1 < |bs| && bs[j + 1].free)
    requires target == bs[..j] + MergeRuns(bs[j..])
    ensures var n := NextFree(bs, j + 1);
            && Cursor(bs, j + 1) == Cursor(bs, n)
            && target == bs[..n] + MergeRuns(bs[n..])
  {
    var n := NextFree(bs, j + 1);
    CursorIsNextFree(bs, j + 1);
    CursorIsNextFree(bs, n);
    MergeRunsKeepsPrefix(bs, j, n);
    assert bs[..n] == bs[..j] + bs[j..n];
  }

  /** A merge at block j is what MergeRuns does first on the suffix from j. */
  lemma MergeRunsAt(bs: seq<Block>, j: nat)
    requires j + 1 < |bs| && bs[j].free && bs[j + 1].free
    ensures MergeAdjacent(bs, j)[..j] == bs[..j]
    ensures MergeRuns(bs[j..]) == MergeRuns(MergeAdjacent(bs, j)[j..])
    ensures Cursor(MergeAdjacent(bs, j), j) == Some(bs[j].off)
  {
    var s := bs[j..];
    var r := MergeAdjacent(bs, j);
    assert s[0] == bs[j] && s[1] == bs[j + 1];
    assert MergeAdjacent(s, 0) == r[j..] by {
      assert s[2..] == bs[j + 2..];
    }
    CursorStep(r, j);
  }
}
