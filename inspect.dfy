/** The read-only checkers of main.c: audit and scan_allocated_list walk the
    arena block by block from offset 0 with a cursor on the free list, and
    scan_free_list follows the list. All three only read the heap; their
    printing is left out, and what they would print is returned instead. */
module Inspect {
  import opened HeapLayout
  import opened BlockModel
  import opened Arena
  import opened Allocator

  // ---------------------------------------------------------------- the walk

  /** What a walk of the arena finds: the blocks it met and the offset where
      it stopped, or the offset of a block taken as allocated whose header
      does not carry the magic number (where the source's assert aborts). */
  datatype WalkResult = Walked(blocks: seq<Block>, end: nat) | BadMagic(at: nat)

  /** The blocks `seen` put in front of the rest of a walk. */
  function Prepend(seen: seq<Block>, r: WalkResult): WalkResult
  {
    match r
    case Walked(bs, e) => Walked(seen + bs, e)
    case BadMagic(a) => BadMagic(a)
  }

  /** The walk of audit from offset `ptr` with free-list cursor `cursor`. A
      block at the cursor is free: the walk steps over its node and moves the
      cursor to the node's `next`. Any other block is allocated and must
      carry the magic number. The walk goes on while it is inside the arena. */
  function Walk(mem: Memory, ptr: nat, cursor: Option<nat>): WalkResult
    decreases SIZE_OF_HEAP - ptr
  {
    if ptr >= SIZE_OF_HEAP then Walked([], ptr)
    else if cursor == Some(ptr) then
      Prepend([Block(ptr, true, SizeAt(mem, ptr))], Walk(mem, ptr + SizeAt(mem, ptr) + NODE_SIZE, NextAt(mem, ptr)))
    else if MagicAt(mem, ptr) != MAGIC_NUMBER then BadMagic(ptr)
    else
      Prepend([Block(ptr, false, SizeAt(mem, ptr))], Walk(mem, ptr + SizeAt(mem, ptr) + HEADER_SIZE, cursor))
  }

  /** audit's final check: the walk met no bad header and ended exactly at
      the end of the arena. */
  predicate AuditPasses(r: WalkResult)
  {
    r.Walked? && r.end == SIZE_OF_HEAP
  }

  lemma PrependAssoc(a: seq<Block>, b: seq<Block>, r: WalkResult)
    ensures Prepend(a, Prepend(b, r)) == Prepend(a + b, r)
  {
    if r.Walked? {
      assert a + (b + r.blocks) == (a + b) + r.blocks;
    }
  }

  /** Whatever the memory holds, a walk that gets through is a contiguous run
      of blocks from `ptr` to where it stopped, past the end of the arena, and
      every block it took as allocated carries the magic number. */
  lemma {:induction false} WalkShape(mem: Memory, ptr: nat, cursor: Option<nat>)
    ensures var r := Walk(mem, ptr, cursor);
            r.Walked? ==>
              && Contiguous(r.blocks) && r.end >= SIZE_OF_HEAP
              && (r.blocks == [] <==> ptr >= SIZE_OF_HEAP)
              && (r.blocks == [] ==> r.end == ptr)
              && (r.blocks != [] ==> r.blocks[0].off == ptr && End(r.blocks[|r.blocks| - 1]) == r.end)
              && forall j :: 0 <= j < |r.blocks| && !r.blocks[j].free ==> MagicAt(mem, r.blocks[j].off) == MAGIC_NUMBER
    decreases SIZE_OF_HEAP - ptr
  {
    if ptr < SIZE_OF_HEAP && (cursor == Some(ptr) || MagicAt(mem, ptr) == MAGIC_NUMBER) {
      var free := cursor == Some(ptr);
      var b := Block(ptr, free, SizeAt(mem, ptr));
      var next := if free then NextAt(mem, ptr) else cursor;
      WalkShape(mem, End(b), next);
      var rest := Walk(mem, End(b), next);
      assert Walk(mem, ptr, cursor) == Prepend([b], rest);
      if rest.Walked? {
        var ws := [b] + rest.blocks;
        assert forall j :: 1 <= j < |ws| ==> ws[j] == rest.blocks[j - 1];
        assert ws[|ws| - 1] == if rest.blocks == [] then b else rest.blocks[|rest.blocks| - 1];
      }
    }
  }

  /** A passing audit has seen a tiling of the arena. */
  lemma AuditSound(mem: Memory, head: Option<nat>)
    requires AuditPasses(Walk(mem, 0, head))
    ensures Tiled(Walk(mem, 0, head).blocks)
  {
    WalkShape(mem, 0, head);
  }

  /** Offset of block j, or the end of the arena past the last block. */
  function OffsetOf(bs: seq<Block>, j: nat): nat
    requires j <= |bs|
  {
    if j < |bs| then bs[j].off else SIZE_OF_HEAP
  }

  /** On a well-formed heap the walk from block j, with the cursor on the
      first free block at j or later, meets exactly the blocks from j on. */
  lemma {:induction false} WalkFrom(mem: Memory, head: Option<nat>, bs: seq<Block>, j: nat)
    requires WellFormed(mem, head, bs) && j <= |bs|
    ensures Walk(mem, OffsetOf(bs, j), Cursor(bs, j)) == Walked(bs[j..], SIZE_OF_HEAP)
    decreases |bs| - j
  {
    if j < |bs| {
      WalkStep(mem, head, bs, j);
      WalkFrom(mem, head, bs, j + 1);
      assert bs[j..] == [bs[j]] + bs[j + 1..];
    } else {
      assert bs[j..] == [];
    }
  }

  /** One block of the walk over a well-formed heap: the walk reads block j
      as it is and moves to block j+1 with the cursor past it. */
  lemma WalkStep(mem: Memory, head: Option<nat>, bs: seq<Block>, j: nat)
    requires WellFormed(mem, head, bs) && j < |bs|
    ensures Walk(mem, OffsetOf(bs, j), Cursor(bs, j)) ==
              Prepend([bs[j]], Walk(mem, OffsetOf(bs, j + 1), Cursor(bs, j + 1)))
  {
    InArena(bs, j);
    CursorStep(bs, j);
    if bs[j].free {
      NodeOfBlock(mem, head, bs, j);
    } else {
      assert HeaderAt(mem, bs[j]);
      CursorPast(bs, j);
    }
  }

  /** Block j lies inside the arena and block j+1 starts where it ends. */
  lemma InArena(bs: seq<Block>, j: nat)
    requires Tiled(bs) && j < |bs|
    ensures bs[j].off < SIZE_OF_HEAP && OffsetOf(bs, j + 1) == End(bs[j])
  {
    var last := |bs| - 1;
    if j < last {
      ContiguousOrdered(bs, j, last);
    }
  }

  /** The cursor past an allocated block is not at that block. */
  lemma CursorPast(bs: seq<Block>, j: nat)
    requires Contiguous(bs) && j < |bs| && !bs[j].free
    ensures Cursor(bs, j + 1) != Some(bs[j].off)
  {
    CursorIsNextFree(bs, j + 1);
    var n := NextFree(bs, j + 1);
    if n < |bs| {
      ContiguousOrdered(bs, j, n);
    }
  }

  /** audit accepts every well-formed heap, and it meets exactly its blocks. */
  lemma AuditAccepts(mem: Memory, head: Option<nat>, bs: seq<Block>)
    requires WellFormed(mem, head, bs)
    ensures Walk(mem, 0, head) == Walked(bs, SIZE_OF_HEAP)
    ensures AuditPasses(Walk(mem, 0, head))
  {
    HeadIsCursor(mem, head, bs);
    WalkFrom(mem, head, bs, 0);
    assert bs[0..] == bs;
  }

  // ---------------------------------------------------------------- audit

  /** audit: the walk from offset 0 with the cursor at the list head. It
      returns the blocks it would print, or where its magic assertion fails;
      its last assertion is AuditPasses of the result. */
  method Audit(h: Heap) returns (r: WalkResult)
    ensures r == Walk(h.mem, 0, h.head)
  {
    var ptr: nat := 0;
    var cursor := h.head;
    var seen: seq<Block> := [];
    assert Walk(h.mem, 0, h.head) == Prepend(seen, Walk(h.mem, ptr, cursor));
    while ptr < SIZE_OF_HEAP
      invariant Walk(h.mem, 0, h.head) == Prepend(seen, Walk(h.mem, ptr, cursor))
      decreases SIZE_OF_HEAP - ptr
    {
      var size := SizeAt(h.mem, ptr);
      if cursor == Some(ptr) {
        var b := Block(ptr, true, size);
        PrependAssoc(seen, [b], Walk(h.mem, ptr + size + NODE_SIZE, NextAt(h.mem, ptr)));
        seen := seen + [b];
        cursor := NextAt(h.mem, ptr);
        ptr := ptr + size + NODE_SIZE;
      } else {
        if MagicAt(h.mem, ptr) != MAGIC_NUMBER {
          return BadMagic(ptr);
        }
        var b := Block(ptr, false, size);
        PrependAssoc(seen, [b], Walk(h.mem, ptr + size + HEADER_SIZE, cursor));
        seen := seen + [b];
        ptr := ptr + size + HEADER_SIZE;
      }
    }
    assert seen + [] == seen;
    return Walked(seen, ptr);
  }

  // ---------------------------------------------------------------- scans

  /** The allocated blocks of a sequence, in order. */
  function AllocatedBlocks(bs: seq<Block>): (r: seq<Block>)
    ensures forall b :: b in r <==> b in bs && !b.free
  {
    if bs == [] then []
    else (if bs[0].free then [] else [bs[0]]) + AllocatedBlocks(bs[1..])
  }

  lemma AllocatedBlocksConcat(a: seq<Block>, b: seq<Block>)
    ensures AllocatedBlocks(a + b) == AllocatedBlocks(a) + AllocatedBlocks(b)
  {
    if a == [] {
      assert a + b == b;
    } else {
      assert (a + b)[1..] == a[1..] + b;
      AllocatedBlocksConcat(a[1..], b);
    }
  }

  lemma AllocatedAppend(seen: seq<Block>, b: Block)
    ensures AllocatedBlocks(seen + [b]) == AllocatedBlocks(seen) + (if b.free then [] else [b])
  {
    AllocatedBlocksConcat(seen, [b]);
    assert [b][1..] == [];
  }

  /** scan_allocated_list: the same walk as audit, reporting the allocated
      blocks it meets and asserting their magic number; unlike audit it does
      not check where the walk ends. None is the failed assertion. */
  method ScanAllocatedList(h: Heap) returns (r: Option<seq<Block>>)
    ensures Walk(h.mem, 0, h.head).BadMagic? <==> r.None?
    ensures Walk(h.mem, 0, h.head).Walked? ==> r == Some(AllocatedBlocks(Walk(h.mem, 0, h.head).blocks))
  {
    var ptr: nat := 0;
    var freeBlock := h.head;
    var found: seq<Block> := [];
    ghost var seen: seq<Block> := [];
    assert Walk(h.mem, 0, h.head) == Prepend(seen, Walk(h.mem, ptr, freeBlock));
    while ptr < SIZE_OF_HEAP
      invariant Walk(h.mem, 0, h.head) == Prepend(seen, Walk(h.mem, ptr, freeBlock))
      invariant found == AllocatedBlocks(seen)
      decreases SIZE_OF_HEAP - ptr
    {
      var size := SizeAt(h.mem, ptr);
      if freeBlock == Some(ptr) {
        var b := Block(ptr, true, size);
        PrependAssoc(seen, [b], Walk(h.mem, ptr + size + NODE_SIZE, NextAt(h.mem, ptr)));
        AllocatedAppend(seen, b);
        seen := seen + [b];
        freeBlock := NextAt(h.mem, ptr);
        ptr := ptr + size + NODE_SIZE;
      } else {
        if MagicAt(h.mem, ptr) != MAGIC_NUMBER {
          return None;
        }
        var b := Block(ptr, false, size);
        PrependAssoc(seen, [b], Walk(h.mem, ptr + size + HEADER_SIZE, freeBlock));
        AllocatedAppend(seen, b);
        seen := seen + [b];
        found := found + [b];
        ptr := ptr + size + HEADER_SIZE;
      }
    }
    assert seen + [] == seen;
    return Some(found);
  }

  /** On a well-formed heap scan_allocated_list reports exactly the
      allocated blocks, in address order. */
  lemma ScanFindsAllocated(mem: Memory, head: Option<nat>, bs: seq<Block>)
    requires WellFormed(mem, head, bs)
    ensures Walk(mem, 0, head).Walked? && AllocatedBlocks(Walk(mem, 0, head).blocks) == AllocatedBlocks(bs)
  {
    AuditAccepts(mem, head, bs);
  }

  /** One node of the free list as scan_free_list reads it: the nodes
      reported so far grow by that node, and `next` leads to the one after. */
  lemma ScanNode(mem: Memory, head: Option<nat>, l: seq<Block>, c: nat)
    requires ListIs(mem, head, l) && c < |l| && l[c].free
    ensures l[..c] + [Block(l[c].off, true, SizeAt(mem, l[c].off))] == l[..c + 1]
    ensures NextAt(mem, l[c].off) == (if c + 1 < |l| then Some(l[c + 1].off) else None)
  {
    assert NodeAt(mem, l, c);
    assert l[..c + 1] == l[..c] + [l[c]];
  }

  /** Every node of the free list is a free block. */
  lemma FreeListFree(bs: seq<Block>, c: nat)
    requires c < |FreeList(bs)|
    ensures FreeList(bs)[c].free
  {
    var l := FreeList(bs);
    assert l[c] in l;
    FreeListMember(bs, l[c]);
  }

  /** scan_free_list: follows the list from its head until `next` is NULL,
      reporting every node. On a malformed list the source may loop forever,
      so the walk is modelled on heaps whose list is the free blocks, where it
      reports exactly those blocks in address order. */
  method ScanFreeList(h: Heap) returns (nodes: seq<Block>)
    requires ListIs(h.mem, h.head, FreeList(h.blocks))
    ensures nodes == FreeList(h.blocks)
  {
    ghost var l := FreeList(h.blocks);
    var mem, curr := h.mem, h.head;
    ghost var head := curr;
    nodes := [];
    ghost var c: nat := 0;
    while curr.Some?
      invariant c <= |l|
      invariant curr == (if c < |l| then Some(l[c].off) else None)
      invariant nodes == l[..c]
      decreases |l| - c
    {
      FreeListFree(h.blocks, c);
      ScanNode(mem, head, l, c);
      nodes := nodes + [Block(curr.value, true, SizeAt(mem, curr.value))];
      curr := NextAt(mem, curr.value);
      c := c + 1;
    }
    assert l[..|l|] == l;
  }
}
