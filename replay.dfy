/** Replaying the calls of a test on the block view. A scenario is a list of
    my_malloc / my_free calls; Play applies them one after another with the
    specification functions that Allocator.Heap's Malloc and Free are proved
    to implement, and records every call's outcome. */
module Replay {
  import opened HeapLayout
  import opened BlockModel

  // ---------------------------------------------------------------- replay

  /** A call of the test code. A malloc argument is any C integer: my_malloc
      receives it converted to size_t. */
  datatype Call = MallocCall(size: int) | FreeCall(payload: nat)

  datatype Calls = Done | Then(call: Call, rest: Calls)

  datatype Outcome = MallocDone(m: MallocResult) | FreeDone(f: FreeResult)

  /** The outcomes of a run, ending in the blocks it leaves. */
  datatype Trace = Stop(blocks: seq<Block>) | Step(outcome: Outcome, after: Trace)

  /** The arena as init_heap leaves it. */
  const FRESH: seq<Block> := [Block(0, true, SIZE_OF_HEAP - NODE_SIZE)]

  /** C's conversion of an integer argument to size_t. */
  function ToSizeT(x: int): (s: nat)
    ensures s < SIZE_T_MODULUS && (s - x) % SIZE_T_MODULUS == 0
  {
    x % SIZE_T_MODULUS
  }

  function Play(bs: seq<Block>, calls: Calls): Trace
    decreases calls
  {
    match calls
    case Done => Stop(bs)
    case Then(MallocCall(size), rest) =>
      var m := MallocSpec(bs, ToSizeT(size));
      Step(MallocDone(m.0), Play(m.1, rest))
    case Then(FreeCall(p), rest) =>
      var f := FreeSpec(bs, p);
      Step(FreeDone(f.0), Play(f.1, rest))
  }

  /** The blocks a trace ends with. */
  function Final(t: Trace): seq<Block>
  {
    match t
    case Stop(bs) => bs
    case Step(_, after) => Final(after)
  }

  /** A replay keeps the arena tiled and coalesced, and ends in a heap whose
      free list passes verify_sorted and verify_alternating. */
  lemma {:induction false} PlayPreserves(bs: seq<Block>, calls: Calls)
    requires Tiled(bs) && Coalesced(bs)
    ensures Tiled(Final(Play(bs, calls))) && Coalesced(Final(Play(bs, calls)))
    decreases calls
  {
    match calls
    case Done =>
    case Then(MallocCall(size), rest) =>
      MallocPreserves(bs, ToSizeT(size));
      PlayPreserves(MallocSpec(bs, ToSizeT(size)).1, rest);
    case Then(FreeCall(p), rest) =>
      FreePreserves(bs, p);
      PlayPreserves(FreeSpec(bs, p).1, rest);
  }

  /** The calls of a, then those of b. */
  function Concat(a: Calls, b: Calls): Calls
    decreases a
  {
    match a
    case Done => b
    case Then(c, rest) => Then(c, Concat(rest, b))
  }

  /** A trace continued by replaying b from the blocks it ends with. */
  function Continue(t: Trace, b: Calls): Trace
    decreases t
  {
    match t
    case Stop(bs) => Play(bs, b)
    case Step(o, after) => Step(o, Continue(after, b))
  }

  /** Replaying a and then b is replaying a and continuing with b. */
  lemma {:induction false} PlayConcat(bs: seq<Block>, a: Calls, b: Calls)
    ensures Play(bs, Concat(a, b)) == Continue(Play(bs, a), b)
    decreases a
  {
    match a
    case Done =>
    case Then(MallocCall(size), rest) =>
      PlayConcat(MallocSpec(bs, ToSizeT(size)).1, rest, b);
    case Then(FreeCall(p), rest) =>
      PlayConcat(FreeSpec(bs, p).1, rest, b);
  }

  /** Replaying one my_malloc call with a size_t argument. */
  lemma PlayMalloc(bs: seq<Block>, size: nat)
    requires size < SIZE_T_MODULUS
    ensures Play(bs, Then(MallocCall(size), Done)) == Step(MallocDone(MallocSpec(bs, size).0), Stop(MallocSpec(bs, size).1))
  {
    assert ToSizeT(size) == size;
  }

  /** Replaying one my_free call. */
  lemma PlayFree(bs: seq<Block>, p: nat)
    ensures Play(bs, Then(FreeCall(p), Done)) == Step(FreeDone(FreeSpec(bs, p).0), Stop(FreeSpec(bs, p).1))
  {
  }

  /** my_malloc of a valid size when the node worst fit picks is big enough:
      the payload is that node's, and the node is carved in place. */
  lemma MallocPicks(bs: seq<Block>, size: nat, k: nat, i: nat, nb: seq<Block>)
    requires 0 < size <= SIZE_OF_HEAP && FreeList(bs) != []
    requires ArgMaxFirst(FreeList(bs)) == k && Align(size) <= FreeList(bs)[k].size + NODE_SIZE
    requires FreeIndex(bs, k) == i
    requires bs[..i] + Carve(bs[i], Align(size)) + bs[i + 1..] == nb
    ensures MallocSpec(bs, size).0 == Allocated(bs[i].off + HEADER_SIZE) && MallocSpec(bs, size).1 == nb
  {
  }

  /** One successful my_malloc in a replay. */
  lemma MallocStep(bs: seq<Block>, size: nat, k: nat, i: nat, nb: seq<Block>)
    requires 0 < size <= SIZE_OF_HEAP && FreeList(bs) != []
    requires ArgMaxFirst(FreeList(bs)) == k && Align(size) <= FreeList(bs)[k].size + NODE_SIZE
    requires FreeIndex(bs, k) == i
    requires bs[..i] + Carve(bs[i], Align(size)) + bs[i + 1..] == nb
    ensures Play(bs, Then(MallocCall(size), Done)) == Step(MallocDone(Allocated(bs[i].off + HEADER_SIZE)), Stop(nb))
  {
    PlayMalloc(bs, size);
    MallocPicks(bs, size, k, i, nb);
  }

  /** One successful my_free in a replay, given the block it releases, a free
      block above it and the coalesced result. */
  lemma FreeStep(bs: seq<Block>, p: nat, i: nat, r: seq<Block>, nb: seq<Block>)
    requires p >= HEADER_SIZE && AllocAt(bs, p - HEADER_SIZE) == Some(i)
    requires FreeList(bs[i + 1..]) != []
    requires bs[i := Release(bs[i])] == r && MergeRuns(r) == nb
    ensures Play(bs, Then(FreeCall(p), Done)) == Step(FreeDone(Freed), Stop(nb))
  {
    FreeListConcat(bs[..i + 1], bs[i + 1..]);
    assert bs == bs[..i + 1] + bs[i + 1..];
    PlayFree(bs, p);
  }

  /** One my_free in a replay when the free list is empty: the block becomes
      the only node, without coalescing. */
  lemma FreeAloneStep(bs: seq<Block>, p: nat, i: nat, nb: seq<Block>)
    requires p >= HEADER_SIZE && AllocAt(bs, p - HEADER_SIZE) == Some(i)
    requires FreeList(bs) == [] && bs[i := Release(bs[i])] == nb
    ensures Play(bs, Then(FreeCall(p), Done)) == Step(FreeDone(Freed), Stop(nb))
  {
    PlayFree(bs, p);
  }
}
