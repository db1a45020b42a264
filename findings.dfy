/** Two writes of my_malloc's carve (malloc_free.c:85-120), modelled as the
    source makes them, each with an input on which it departs from what the
    rest of the allocator relies on. The rest of the model uses the corrected
    writes: BlockModel.Carve and Allocator.CarvedMemory. */
module Findings {
  import opened HeapLayout
  import opened BlockModel
  import opened Arena
  import opened Allocator
  import opened Replay

  // ---------------------------------------------------------------- header of a node taken whole

  /** The blocks my_malloc makes of the chosen node as the source writes
      them: the header records needed - sizeof(header_t) even when the node is
      taken whole, so a node up to 8 bytes larger than `needed` loses its
      tail. The blocks still end where the node ended exactly when the node is
      split or `needed` is its whole footprint. */
  function CarveAsWritten(b: Block, needed: nat): (r: seq<Block>)
    requires b.free && HEADER_SIZE <= needed <= Footprint(b)
    ensures 0 < |r| <= 2 && r[0].off == b.off && !r[0].free && Footprint(r[0]) == needed
    ensures End(r[|r| - 1]) == End(b) <==> needed <= b.size || needed == Footprint(b)
  {
    if needed > b.size then [Block(b.off, false, needed - HEADER_SIZE)] else Carve(b, needed)
  }

  /** my_malloc on the block view with the source's carve. */
  function MallocAsWritten(bs: seq<Block>, size: nat): (r: (MallocResult, seq<Block>))
    requires size < SIZE_T_MODULUS
    ensures r.0 == MallocSpec(bs, size).0
    ensures r.0.Refused? ==> r.1 == bs
  {
    var fl := FreeList(bs);
    if fl == [] || size > SIZE_OF_HEAP || size == 0 then MallocSpec(bs, size)
    else
      var k := ArgMaxFirst(fl);
      if Align(size) > fl[k].size + NODE_SIZE then MallocSpec(bs, size)
      else
        var i := FreeIndex(bs, k);
        (MallocSpec(bs, size).0, bs[..i] + CarveAsWritten(bs[i], Align(size)) + bs[i + 1..])
  }

  /** On a fresh arena, my_malloc(4070) takes the one node whole (align gives
      4088 > 4080) and records 4072 in the header: the block ends 8 bytes
      before the end of the arena, and the arena is no longer tiled. Freed,
      the block becomes a node of 4072 bytes, and the largest request,
      4080, is refused although nothing is allocated. */
  lemma WholeChunkLosesTail()
    ensures MallocAsWritten(FRESH, 4070).0 == Allocated(HEADER_SIZE)
    ensures var a := MallocAsWritten(FRESH, 4070).1;
            && a == [Block(0, false, 4072)]
            && End(a[0]) == SIZE_OF_HEAP - 8 && !Tiled(a)
            && FreeSpec(a, HEADER_SIZE).0 == Freed
            && FreeSpec(a, HEADER_SIZE).1 == [Block(0, true, 4072)]
            && MallocSpec(FreeSpec(a, HEADER_SIZE).1, 4080).0 == Refused(NoChunkBigEnough)
  {
    assert Align(4070) == 4088;
    assert FreeList(FRESH) == FRESH;
    assert ArgMaxFirst(FRESH) == 0 && FreeIndex(FRESH, 0) == 0;
    var a := [Block(0, false, 4072)];
    assert MallocAsWritten(FRESH, 4070).1 == a;
    assert AllocAt(a, 0) == Some(0) && FreeList(a) == [];
    var f := [Block(0, true, 4072)];
    assert FreeSpec(a, HEADER_SIZE).1 == f;
    assert FreeList(f) == f && ArgMaxFirst(f) == 0 && Align(4080) == 4096;
  }

  // ---------------------------------------------------------------- next of a remainder below the head

  /** The memory after the carve as the source writes it. The remainder of a
      split of the head gets the chosen node's `next`; the remainder of a
      split below the head gets its size only, and its `next` is whatever
      the arena held there. The header records needed - sizeof(header_t).
      Where neither write matters (the head is chosen or the node is taken
      whole, and the node is split or `needed` is its whole footprint) the
      memory is that of the corrected carve. */
  function CarvedMemoryAsWritten(mem: Memory, l: seq<Block>, k: nat, needed: nat): (m: Memory)
    requires k < |l| && l[k].free && HEADER_SIZE <= needed <= Footprint(l[k])
    ensures m.Keys == CarvedMemory(mem, l, k, needed).Keys
    ensures (k == 0 || needed > l[k].size) && (needed <= l[k].size || needed == Footprint(l[k])) ==>
              m == CarvedMemory(mem, l, k, needed)
  {
    var b := l[k];
    var split := b.off + needed;
    var m1 :=
      if needed > b.size then mem
      else if k == 0 then mem[split := FreeNode(b.size - needed, NextOff(l, k))]
      else mem[split := FreeNode(b.size - needed, NextAt(mem, split))];
    var m2 :=
      if k == 0 then m1
      else m1[l[k - 1].off := FreeNode(l[k - 1].size, if needed > b.size then NextOff(l, k) else Some(split))];
    m2[b.off := Header(needed - HEADER_SIZE, MAGIC_NUMBER)]
  }

  /** The arena after my_malloc(8), my_malloc(8), my_malloc(2000),
      my_malloc(8), my_free(16), my_free(64) from a fresh heap
      (Scenarios.LostNodeSetup): free nodes at 0, 48 and 2088, the one at 48
      the largest. */
  const LOST_BLOCKS: seq<Block> :=
    [Block(0, true, 8), Block(24, false, 8), Block(48, true, 2000), Block(2064, false, 8), Block(2088, true, 1992)]

  /** The descriptors those calls leave: the last one written at each offset.
      Offset 72 lies inside the 2000-byte payload, which no call writes. */
  const LOST_MEMORY: Memory :=
    map[0 := FreeNode(8, Some(48)), 24 := Header(8, MAGIC_NUMBER), 48 := FreeNode(2000, Some(2088)),
        2064 := Header(8, MAGIC_NUMBER), 2088 := FreeNode(1992, None)]

  /** The free list of LOST_BLOCKS and the node worst fit picks from it. */
  lemma LostFreeList()
    ensures FreeList(LOST_BLOCKS) == [Block(0, true, 8), Block(48, true, 2000), Block(2088, true, 1992)]
    ensures ArgMaxFirst(FreeList(LOST_BLOCKS)) == 1 && FreeIndex(LOST_BLOCKS, 1) == 2
  {
  }

  /** The blocks after the next my_malloc(8). */
  lemma LostSplit()
    ensures MallocSpec(LOST_BLOCKS, 8).1 ==
      [Block(0, true, 8), Block(24, false, 8), Block(48, false, 8), Block(72, true, 1976), Block(2064, false, 8), Block(2088, true, 1992)]
  {
    LostFreeList();
    assert Align(8) == 24;
    var nb := [Block(0, true, 8), Block(24, false, 8), Block(48, false, 8), Block(72, true, 1976), Block(2064, false, 8), Block(2088, true, 1992)];
    assert LOST_BLOCKS[..2] + Carve(Block(48, true, 2000), 24) + LOST_BLOCKS[3..] == nb;
    MallocPicks(LOST_BLOCKS, 8, 1, 2, nb);
  }

  /** LOST_BLOCKS tile the arena, with no two free neighbours. */
  lemma LostTiled()
    ensures Tiled(LOST_BLOCKS) && Coalesced(LOST_BLOCKS)
  {
  }

  /** The list from offset 0 in LOST_MEMORY is the free list of LOST_BLOCKS. */
  lemma LostList()
    ensures ListIs(LOST_MEMORY, Some(0), FreeList(LOST_BLOCKS))
  {
    LostFreeList();
    var l := [Block(0, true, 8), Block(48, true, 2000), Block(2088, true, 1992)];
    assert NodeAt(LOST_MEMORY, l, 0) && NodeAt(LOST_MEMORY, l, 1) && NodeAt(LOST_MEMORY, l, 2);
  }

  /** The two allocated blocks carry their headers, and no other offset
      holds the magic number. */
  lemma LostHeaders()
    ensures HeadersMatch(LOST_MEMORY, LOST_BLOCKS) && HeadersLive(LOST_MEMORY, LOST_BLOCKS)
  {
    assert HeaderAt(LOST_MEMORY, LOST_BLOCKS[1]) && HeaderAt(LOST_MEMORY, LOST_BLOCKS[3]);
    assert AllocAt(LOST_BLOCKS, 24) == Some(1) && AllocAt(LOST_BLOCKS, 2064) == Some(3);
  }

  /** LOST_MEMORY is a well-formed arena for LOST_BLOCKS, with head 0. */
  lemma LostStateValid()
    ensures WellFormed(LOST_MEMORY, Some(0), LOST_BLOCKS) && Coalesced(LOST_BLOCKS)
  {
    LostTiled();
    LostList();
    LostHeaders();
  }

  /** The next my_malloc(8) picks the node at 48, the second of the list, and
      splits it; the source leaves the remainder at 72 pointing nowhere, so
      the list from the head holds the nodes at 0 and 72 only, while the
      blocks have a third free one (at 2088, 1992 bytes) that no later
      my_malloc can reach. */
  lemma LostNodeAsWritten()
    ensures FreeList(LOST_BLOCKS)[1].off == 48 && ArgMaxFirst(FreeList(LOST_BLOCKS)) == 1
    ensures Align(8) == 24
    ensures var m := CarvedMemoryAsWritten(LOST_MEMORY, FreeList(LOST_BLOCKS), 1, Align(8));
            && ListIs(m, Some(0), [Block(0, true, 8), Block(72, true, 1976)])
            && FreeList(MallocSpec(LOST_BLOCKS, 8).1) ==
                 [Block(0, true, 8), Block(72, true, 1976), Block(2088, true, 1992)]
  {
    LostFreeList();
    var l := [Block(0, true, 8), Block(48, true, 2000), Block(2088, true, 1992)];
    assert Align(8) == 24;
    var m := CarvedMemoryAsWritten(LOST_MEMORY, l, 1, 24);
    assert 72 !in LOST_MEMORY;
    var l' := [Block(0, true, 8), Block(72, true, 1976)];
    assert NodeAt(m, l', 0) && NodeAt(m, l', 1);
    LostSplit();
    assert FreeList([Block(0, true, 8), Block(24, false, 8), Block(48, false, 8), Block(72, true, 1976), Block(2064, false, 8), Block(2088, true, 1992)])
      == [Block(0, true, 8), Block(72, true, 1976), Block(2088, true, 1992)];
  }

  /** With the corrected carve the same call leaves a well-formed arena: the
      list from the head is the whole free list, the node at 2088 included. */
  lemma LostNodeKept()
    ensures var l := FreeList(LOST_BLOCKS);
            && ArgMaxFirst(l) == 1 && Align(8) <= l[1].size + NODE_SIZE
            && WellFormed(CarvedMemory(LOST_MEMORY, l, 1, Align(8)), CarvedHead(Some(0), l, 1, Align(8)),
                          MallocSpec(LOST_BLOCKS, 8).1)
  {
    var l := [Block(0, true, 8), Block(48, true, 2000), Block(2088, true, 1992)];
    LostFreeList();
    assert Align(8) == 24;
    LostStateValid();
    MallocSucceeds(LOST_MEMORY, Some(0), LOST_BLOCKS, 8, 1,
                   CarvedMemory(LOST_MEMORY, l, 1, 24), CarvedHead(Some(0), l, 1, 24));
  }
}
