/** The arena as the allocator's C code sees it: a descriptor (node_t or
    header_t) at some offsets, and the free list threaded through the nodes by
    their `next` fields. The map keeps every descriptor ever written, as the
    arena's bytes do: nothing is removed when a node is absorbed by a merge.
    WellFormed ties this concrete state to the block sequence of BlockModel. */
module Arena {
  import opened HeapLayout
  import opened BlockModel

  type Memory = map<nat, Desc>

  // ---------------------------------------------------------------- reads

  /** The `size` field read at offset `o`; both descriptors start with it.
      Bytes never written read as zero (the arena is fresh anonymous memory). */
  function SizeAt(mem: Memory, o: nat): nat
  {
    if o in mem then mem[o].size else 0
  }

  /** The `next` field read at offset `o`. */
  function NextAt(mem: Memory, o: nat): Option<nat>
  {
    if o in mem && mem[o].FreeNode? then mem[o].next else None
  }

  /** The `magic` field read at offset `o`. */
  function MagicAt(mem: Memory, o: nat): int
  {
    if o in mem && mem[o].Header? then mem[o].magic else 0
  }

  // ---------------------------------------------------------------- free list

  /** Offset of the node after the k-th one, None at the end of the list. */
  function NextOff(l: seq<Block>, k: nat): Option<nat>
    requires k < |l|
  {
    if k + 1 < |l| then Some(l[k + 1].off) else None
  }

  /** Offset of the first node, None for the empty list. */
  function Head(l: seq<Block>): Option<nat>
  {
    if l == [] then None else Some(l[0].off)
  }

  /** The node after the j-th is the head of the list after it. */
  lemma NextOffHead(l: seq<Block>, j: nat)
    requires j < |l|
    ensures NextOff(l, j) == Head(l[j + 1..])
  {
    if j + 1 < |l| {
      assert l[j + 1..][0] == l[j + 1];
    }
  }

  /** The k-th node of `l` is stored at its offset with its size and a `next`
      that points at the (k+1)-th. */
  ghost predicate NodeAt(mem: Memory, l: seq<Block>, k: nat)
    requires k < |l|
  {
    l[k].off in mem && mem[l[k].off] == FreeNode(l[k].size, NextOff(l, k))
  }

  /** The linked list from `head` is exactly `l`. */
  ghost predicate ListIs(mem: Memory, head: Option<nat>, l: seq<Block>)
  {
    && head == Head(l)
    && forall k :: 0 <= k < |l| ==> NodeAt(mem, l, k)
  }

  // ---------------------------------------------------------------- headers

  ghost predicate HeaderAt(mem: Memory, b: Block)
  {
    b.off in mem && mem[b.off] == Header(b.size, MAGIC_NUMBER)
  }

  predicate IsMagic(d: Desc)
  {
    d.Header? && d.magic == MAGIC_NUMBER
  }

  /** Every allocated block carries its header. */
  ghost predicate HeadersMatch(mem: Memory, bs: seq<Block>)
  {
    forall j :: 0 <= j < |bs| && !bs[j].free ==> HeaderAt(mem, bs[j])
  }

  /** A header with the magic number sits only at an allocated block: stale
      descriptors never pass my_free's check. */
  ghost predicate HeadersLive(mem: Memory, bs: seq<Block>)
  {
    forall o :: o in mem && IsMagic(mem[o]) ==> AllocAt(bs, o).Some?
  }

  /** The concrete state (mem, head) represents the blocks `bs`. */
  ghost predicate WellFormed(mem: Memory, head: Option<nat>, bs: seq<Block>)
  {
    && Tiled(bs)
    && ListIs(mem, head, FreeList(bs))
    && HeadersMatch(mem, bs)
    && HeadersLive(mem, bs)
  }

  // ---------------------------------------------------------------- offsets

  /** Distinct blocks of a contiguous sequence do not overlap. */
  lemma BlockApart(bs: seq<Block>, d: nat, i: nat)
    requires Contiguous(bs) && d < |bs| && i < |bs| && d != i
    ensures End(bs[d]) <= bs[i].off || End(bs[i]) <= bs[d].off
  {
    if d < i {
      ContiguousOrdered(bs, d, i);
    } else {
      ContiguousOrdered(bs, i, d);
    }
  }

  // ---------------------------------------------------------------- splicing

  /** Replacing the nodes `l[a..b]` by `mid`: the list is intact when the
      nodes kept were not overwritten, the new nodes are stored, and the
      node before them (if any) points at what now follows it. */
  lemma ListSplice(mem: Memory, mem': Memory, head: Option<nat>, head': Option<nat>,
                   l: seq<Block>, a: nat, b: nat, mid: seq<Block>, l': seq<Block>)
    requires ListIs(mem, head, l) && a <= b <= |l| && l' == l[..a] + mid + l[b..]
    requires forall d :: 0 <= d < |l| && (d + 1 < a || b <= d) ==>
               l[d].off in mem && l[d].off in mem' && mem'[l[d].off] == mem[l[d].off]
    requires forall k :: a <= k < a + |mid| ==> NodeAt(mem', l', k)
    requires a > 0 ==> NodeAt(mem', l', a - 1)
    requires head' == Head(l')
    ensures ListIs(mem', head', l')
  {
    forall k | 0 <= k < |l'| ensures NodeAt(mem', l', k) {
      if k + 1 < a {
        assert l'[k] == l[k] && l'[k + 1] == l[k + 1];
        assert NodeAt(mem, l, k);
      } else if k + 1 == a {
      } else if k < a + |mid| {
      } else {
        var d := k - a - |mid| + b;
        assert l'[k] == l[d];
        if k + 1 < |l'| {
          assert l'[k + 1] == l[d + 1];
        }
        assert NodeAt(mem, l, d);
      }
    }
  }

  /** AllocAt on a concatenation finds a block iff one of the parts has it. */
  lemma {:induction false} AllocAtConcat(a: seq<Block>, b: seq<Block>, o: nat)
    ensures AllocAt(a + b, o).Some? <==> AllocAt(a, o).Some? || AllocAt(b, o).Some?
  {
    if a == [] {
      assert a + b == b;
    } else {
      assert (a + b)[0] == a[0] && (a + b)[1..] == a[1..] + b;
      AllocAtConcat(a[1..], b, o);
    }
  }

  /** Replacing `bs[i..j]` by `c`: the headers of the allocated blocks kept
      must survive and those of `c` must be written. */
  lemma HeadersMatchSplice(mem: Memory, mem': Memory, bs: seq<Block>, i: nat, j: nat, c: seq<Block>)
    requires HeadersMatch(mem, bs) && i <= j <= |bs|
    requires forall d :: 0 <= d < |bs| && (d < i || j <= d) && !bs[d].free ==>
               bs[d].off in mem' && mem'[bs[d].off] == mem[bs[d].off]
    requires forall d :: 0 <= d < |c| && !c[d].free ==> HeaderAt(mem', c[d])
    ensures HeadersMatch(mem', bs[..i] + c + bs[j..])
  {
    var r := bs[..i] + c + bs[j..];
    forall t | 0 <= t < |r| && !r[t].free ensures HeaderAt(mem', r[t]) {
      if t < i {
        assert r[t] == bs[t] && HeaderAt(mem, bs[t]);
      } else if t < i + |c| {
        assert r[t] == c[t - i];
      } else {
        assert r[t] == bs[t - i - |c| + j] && HeaderAt(mem, bs[t - i - |c| + j]);
      }
    }
  }

  /** Replacing `bs[i..j]` by `c`: every magic header must be a header of
      `c`, or an old one that did not belong to the replaced blocks. */
  lemma HeadersLiveSplice(mem: Memory, mem': Memory, bs: seq<Block>, i: nat, j: nat, c: seq<Block>)
    requires HeadersLive(mem, bs) && i <= j <= |bs|
    requires forall o :: o in mem' && IsMagic(mem'[o]) ==>
               AllocAt(c, o).Some? || (o in mem && mem'[o] == mem[o] && AllocAt(bs[i..j], o).None?)
    ensures HeadersLive(mem', bs[..i] + c + bs[j..])
  {
    forall o | o in mem' && IsMagic(mem'[o]) ensures AllocAt(bs[..i] + c + bs[j..], o).Some? {
      AllocAtConcat(bs[..i] + c, bs[j..], o);
      AllocAtConcat(bs[..i], c, o);
      if AllocAt(c, o).None? {
        assert bs == bs[..i] + bs[i..j] + bs[j..];
        AllocAtConcat(bs[..i] + bs[i..j], bs[j..], o);
        AllocAtConcat(bs[..i], bs[i..j], o);
      }
    }
  }

  // ---------------------------------------------------------------- cursors

  /** Where a cursor that has walked the free list up to block j points: the
      first free block at index j or later. */
  function Cursor(bs: seq<Block>, j: nat): Option<nat>
    requires j <= |bs|
  {
    Head(FreeList(bs[j..]))
  }

  /** Index of the first free block at index j or later (|bs| if none). */
  function NextFree(bs: seq<Block>, j: nat): (n: nat)
    requires j <= |bs|
    ensures j <= n <= |bs| && (n < |bs| ==> bs[n].free)
    ensures forall t :: j <= t < n ==> !bs[t].free
    decreases |bs| - j
  {
    if j == |bs| || bs[j].free then j else NextFree(bs, j + 1)
  }

  /** A cursor steps over an allocated block and stops at a free one. */
  lemma CursorStep(bs: seq<Block>, j: nat)
    requires j < |bs|
    ensures Cursor(bs, j) == if bs[j].free then Some(bs[j].off) else Cursor(bs, j + 1)
  {
    assert bs[j..][0] == bs[j] && bs[j..][1..] == bs[j + 1..];
  }

  /** The cursor at j is the first free block at j or later. */
  lemma {:induction false} CursorIsNextFree(bs: seq<Block>, j: nat)
    requires j <= |bs|
    ensures Cursor(bs, j) == if NextFree(bs, j) < |bs| then Some(bs[NextFree(bs, j)].off) else None
    decreases |bs| - j
  {
    if j < |bs| {
      CursorStep(bs, j);
      if !bs[j].free {
        CursorIsNextFree(bs, j + 1);
      }
    } else {
      assert bs[j..] == [];
    }
  }

  /** Where block j, when free, sits in the free list. */
  lemma BlockNode(bs: seq<Block>, j: nat)
    requires j < |bs| && bs[j].free
    ensures var l, k := FreeList(bs), |FreeList(bs[..j])|;
            && k < |l| && l[k] == bs[j]
            && l[..k] == FreeList(bs[..j])
            && l[k + 1..] == FreeList(bs[j + 1..])
  {
    assert bs == bs[..j] + bs[j..];
    FreeListConcat(bs[..j], bs[j..]);
    assert bs[j..][0] == bs[j] && bs[j..][1..] == bs[j + 1..];
    assert FreeList(bs[j..]) == [bs[j]] + FreeList(bs[j + 1..]);
  }

  /** Rewriting the k-th node of a list so that it stands for itself and
      the node after it (same offset, that node's `next`) leaves the list
      with the two replaced by `m`. */
  lemma ListMerge(mem: Memory, head: Option<nat>, l: seq<Block>, k: nat, m: Block)
    requires ListIs(mem, head, l) && k + 1 < |l| && m.off == l[k].off
    requires forall d :: 0 <= d < |l| && d != k ==> l[d].off != l[k].off
    ensures ListIs(mem[l[k].off := FreeNode(m.size, NextAt(mem, l[k + 1].off))], head, l[..k] + [m] + l[k + 2..])
  {
    var mem' := mem[l[k].off := FreeNode(m.size, NextAt(mem, l[k + 1].off))];
    var l' := l[..k] + [m] + l[k + 2..];
    assert NodeAt(mem, l, k + 1);
    assert |l'| == |l| - 1 && l'[k] == m;
    if k + 1 < |l'| {
      assert l'[k + 1] == l[k + 2];
    }
    assert NodeAt(mem', l', k);
    if k > 0 {
      assert NodeAt(mem, l, k - 1);
      assert l'[k - 1] == l[k - 1];
      assert NodeAt(mem', l', k - 1);
    }
    forall d | 0 <= d < |l| && (d + 1 < k || k + 2 <= d)
      ensures l[d].off in mem && l[d].off in mem' && mem'[l[d].off] == mem[l[d].off]
    {
      assert NodeAt(mem, l, d);
    }
    assert head == Head(l') by {
      assert NodeAt(mem, l, 0);
      assert l'[0] == (if k == 0 then m else l[0]);
    }
    ListSplice(mem, mem', head, head, l, k, k + 2, [m], l');
  }

  /** The memory after linking a free node, at offset `o` with size `size`,
      in front of the c-th node of `l`: as the new head when c == 0,
      otherwise after the (c-1)-th node, whose `next` is rewritten. */
  function InsertedMemory(mem: Memory, l: seq<Block>, c: nat, o: nat, size: nat): Memory
    requires c < |l|
  {
    if c == 0 then mem[o := FreeNode(size, Some(l[0].off))]
    else mem[l[c - 1].off := FreeNode(SizeAt(mem, l[c - 1].off), Some(o))][o := FreeNode(size, Some(l[c].off))]
  }

  /** InsertedMemory writes at `o` and, below the head, at the (c-1)-th
      node, and nowhere else. */
  lemma InsertedFrame(mem: Memory, l: seq<Block>, c: nat, o: nat, size: nat)
    requires c < |l| && (c > 0 ==> l[c - 1].off != o)
    ensures var mem' := InsertedMemory(mem, l, c, o, size);
            && o in mem' && mem'[o] == FreeNode(size, Some(l[c].off))
            && (c > 0 ==> l[c - 1].off in mem' && mem'[l[c - 1].off] == FreeNode(SizeAt(mem, l[c - 1].off), Some(o)))
            && forall q :: q != o && (c == 0 || q != l[c - 1].off) ==>
                 (q in mem' <==> q in mem) && (q in mem ==> mem'[q] == mem[q])
  {
  }

  /** Linking node `r` in front of the c-th node of an address-ordered list,
      when `r` lies between the (c-1)-th and the c-th, leaves the list with
      `r` inserted at position c. */
  lemma ListInsert(mem: Memory, head: Option<nat>, l: seq<Block>, c: nat, r: Block)
    requires ListIs(mem, head, l) && Apart(l) && c < |l|
    requires (c > 0 ==> End(l[c - 1]) <= r.off) && r.off < l[c].off
    ensures ListIs(InsertedMemory(mem, l, c, r.off, r.size),
                   if c == 0 then Some(r.off) else head, l[..c] + [r] + l[c..])
  {
    var o := r.off;
    var mem' := InsertedMemory(mem, l, c, o, r.size);
    var head' := if c == 0 then Some(o) else head;
    var l' := l[..c] + [r] + l[c..];
    if c > 0 {
      assert l[c - 1].off < o;
    }
    InsertedFrame(mem, l, c, o, r.size);
    forall d | 0 <= d < |l| && (d + 1 < c || c <= d)
      ensures l[d].off in mem && l[d].off in mem' && mem'[l[d].off] == mem[l[d].off]
    {
      assert NodeAt(mem, l, d);
      if d + 1 < c {
        assert End(l[d]) <= l[c - 1].off;
      } else if c > 0 {
        assert End(l[c - 1]) <= l[c].off;
        if d > c {
          assert End(l[c]) <= l[d].off;
        }
      } else if d > 0 {
        assert End(l[0]) <= l[d].off;
      }
    }
    assert l'[c] == r && l'[c + 1] == l[c];
    assert NodeAt(mem', l', c);
    if c > 0 {
      assert NodeAt(mem, l, c - 1);
      assert l'[c - 1] == l[c - 1];
      assert NodeAt(mem', l', c - 1);
      assert l'[0] == l[0] && head == Some(l[0].off);
    } else {
      assert l'[0] == r;
    }
    ListSplice(mem, mem', head, head', l, c, c, [r], l');
  }

  /** The node stored for free block j: its size, and the cursor past it as
      its `next`. */
  lemma NodeOfBlock(mem: Memory, head: Option<nat>, bs: seq<Block>, j: nat)
    requires ListIs(mem, head, FreeList(bs)) && j < |bs| && bs[j].free
    ensures bs[j].off in mem && mem[bs[j].off] == FreeNode(bs[j].size, Cursor(bs, j + 1))
    ensures SizeAt(mem, bs[j].off) == bs[j].size && NextAt(mem, bs[j].off) == Cursor(bs, j + 1)
  {
    BlockNode(bs, j);
    var l, k, rest := FreeList(bs), |FreeList(bs[..j])|, FreeList(bs[j + 1..]);
    assert k < |l| && l[k] == bs[j] && l[k + 1..] == rest;
    ListNode(mem, head, l, k, rest);
    assert Cursor(bs, j + 1) == Head(rest);
  }

  /** The k-th node of a list, with the rest of the list after it. */
  lemma ListNode(mem: Memory, head: Option<nat>, l: seq<Block>, k: nat, rest: seq<Block>)
    requires ListIs(mem, head, l) && k < |l| && l[k + 1..] == rest
    ensures l[k].off in mem && mem[l[k].off] == FreeNode(l[k].size, Head(rest))
  {
    assert NodeAt(mem, l, k);
    NextOffHead(l, k);
  }

  /** The list head is the cursor at block 0. */
  lemma HeadIsCursor(mem: Memory, head: Option<nat>, bs: seq<Block>)
    requires ListIs(mem, head, FreeList(bs))
    ensures head == Cursor(bs, 0)
  {
    assert bs[0..] == bs;
  }

  /** In a contiguous sequence, the cursor past free block j points right at
      j's end exactly when the next block is free too. */
  lemma CursorAdjacent(bs: seq<Block>, j: nat)
    requires Contiguous(bs) && j < |bs| && bs[j].free
    ensures Cursor(bs, j + 1) == Some(End(bs[j])) <==> j + 1 < |bs| && bs[j + 1].free
  {
    CursorIsNextFree(bs, j + 1);
    var n := NextFree(bs, j + 1);
    if n < |bs| && n > j + 1 {
      ContiguousOrdered(bs, j + 1, n);
    }
  }
}
