/** The scenarios of tests.c, replayed from a fresh arena. Each scenario
    lemma states the outcome of every call and the blocks left at the end, and
    then the fact its test asserts. Every scenario starts from a fresh arena:
    free_all_chunks returns the arena to it (HeapTests.FreeAllClears) from any
    reachable heap whose last block is free, or that is one block, as all
    the scenarios' heaps are.
    The requests are written with the values the test's expressions have:
    CHUNK_SIZE = SIZE_OF_HEAP / 20 = 204 (TestSizes). */
module Scenarios {
  import opened HeapLayout
  import opened BlockModel
  import opened HeapTests
  import opened Replay
  import opened ScenarioSteps

  /** The request sizes the tests compute, and what align makes of them. */
  lemma TestSizes()
    ensures CHUNK_SIZE == 204 && Align(CHUNK_SIZE) == 224
    ensures SIZE_OF_HEAP / 3 == 1365 && Align(SIZE_OF_HEAP / 3) == 1384
    ensures SIZE_OF_HEAP / 3 + CHUNK_SIZE == 1569 && Align(1569) == 1592
    ensures SIZE_OF_HEAP / 4 == 1024 && Align(SIZE_OF_HEAP / 4) == 1040
    ensures SIZE_OF_HEAP / 2 == 2048 && Align(SIZE_OF_HEAP / 2) == 2064
    ensures CHUNK_SIZE / 2 == 102 && Align(CHUNK_SIZE / 2) == 120
    ensures SIZE_OF_HEAP / 2 - CHUNK_SIZE / 2 == 1946 && Align(1946) == 1968
    ensures SIZE_OF_HEAP - HEADER_SIZE == 4080 && Align(4080) == SIZE_OF_HEAP
    ensures ToSizeT(-1) == SIZE_T_MODULUS - 1
    ensures (SIZE_T_MODULUS - SIZE_OF_HEAP) / 2 == 9223372036854773760
  {
  }

  /** verify_sorted and verify_alternating hold after any sequence of calls
      from a fresh arena, whatever order the chunks are freed in; this covers
      the scenarios of test_sorted_free_list and test_alternating_sequence
      (tests.c:177-224, 349-404). */
  lemma ReplayPassesChecks(calls: Calls)
    ensures Sorted(FreeList(Final(Play(FRESH, calls))))
    ensures Alternating(FreeList(Final(Play(FRESH, calls))))
  {
    assert Tiled(FRESH) && Coalesced(FRESH);
    PlayPreserves(FRESH, calls);
    FreeListSorted(Final(Play(FRESH, calls)));
    AlternatingIffCoalesced(Final(Play(FRESH, calls)));
  }

  /** test_free_chunk_reuse, first case (tests.c:125-137): a third of the heap
      (SIZE_OF_HEAP / 3 = 1365), then a slightly larger chunk (1365 + CHUNK_SIZE
      = 1569); once the first is freed, the next standard chunk is carved from
      it, at the start of the heap (payload 16). */
  lemma ReuseAfterLargerChunk()
    ensures var t := Play(FRESH, Then(MallocCall(1365), Then(MallocCall(1569), Then(FreeCall(16), Then(MallocCall(204), Done)))));
            t == Step(MallocDone(Allocated(16)), Step(MallocDone(Allocated(1400)), Step(FreeDone(Freed), Step(MallocDone(Allocated(16)), Stop([Block(0, false, 208), Block(224, true, 1144), Block(1384, false, 1576), Block(2976, true, 1104)])))))
  {
    var x3 := Then(MallocCall(204), Done);
    var x2 := Concat(Then(FreeCall(16), Done), x3);
    var x1 := Concat(Then(MallocCall(1569), Done), x2);
    var x0 := Concat(Then(MallocCall(1365), Done), x1);
    assert x0 == Then(MallocCall(1365), Then(MallocCall(1569), Then(FreeCall(16), Then(MallocCall(204), Done))));
    Move01(); Move02(); Move03(); Move04();
    PlayConcat(FRESH, Then(MallocCall(1365), Done), x1);
    PlayConcat([Block(0, false, 1368), Block(1384, true, 2696)], Then(MallocCall(1569), Done), x2);
    PlayConcat([Block(0, false, 1368), Block(1384, false, 1576), Block(2976, true, 1104)], Then(FreeCall(16), Done), x3);
  }

  /** test_free_chunk_reuse, second case (tests.c:139-153): two thirds and a
      standard chunk; freeing the two thirds merges them, and the next standard
      chunk is carved at the start of the heap. */
  lemma ReuseAfterTwoThirdsFreed()
    ensures var t := Play(FRESH, Then(MallocCall(1365), Then(MallocCall(1365), Then(MallocCall(204), Then(FreeCall(16), Then(FreeCall(1400), Then(MallocCall(204), Done)))))));
            t == Step(MallocDone(Allocated(16)), Step(MallocDone(Allocated(1400)), Step(MallocDone(Allocated(2784)), Step(FreeDone(Freed), Step(FreeDone(Freed), Step(MallocDone(Allocated(16)), Stop([Block(0, false, 208), Block(224, true, 2528), Block(2768, false, 208), Block(2992, true, 1088)])))))))
  {
    var x5 := Then(MallocCall(204), Done);
    var x4 := Concat(Then(FreeCall(1400), Done), x5);
    var x3 := Concat(Then(FreeCall(16), Done), x4);
    var x2 := Concat(Then(MallocCall(204), Done), x3);
    var x1 := Concat(Then(MallocCall(1365), Done), x2);
    var x0 := Concat(Then(MallocCall(1365), Done), x1);
    assert x0 == Then(MallocCall(1365), Then(MallocCall(1365), Then(MallocCall(204), Then(FreeCall(16), Then(FreeCall(1400), Then(MallocCall(204), Done))))));
    Move01(); Move05(); Move06(); Move07(); Move08(); Move09();
    PlayConcat(FRESH, Then(MallocCall(1365), Done), x1);
    PlayConcat([Block(0, false, 1368), Block(1384, true, 2696)], Then(MallocCall(1365), Done), x2);
    PlayConcat([Block(0, false, 1368), Block(1384, false, 1368), Block(2768, true, 1312)], Then(MallocCall(204), Done), x3);
    PlayConcat([Block(0, false, 1368), Block(1384, false, 1368), Block(2768, false, 208), Block(2992, true, 1088)], Then(FreeCall(16), Done), x4);
    PlayConcat([Block(0, true, 1368), Block(1384, false, 1368), Block(2768, false, 208), Block(2992, true, 1088)], Then(FreeCall(1400), Done), x5);
  }

  lemma ReuseQuarterGapHeadLeaves()
    ensures FreeList([Block(0, false, 1024), Block(1040, true, 1024), Block(2080, false, 1024), Block(3120, false, 208), Block(3344, true, 736)])[0].off == Align(SIZE_OF_HEAP / 4)
  {
  }

  /** test_free_chunk_reuse, third case (tests.c:155-165): three quarter-heap
      chunks and a standard one; freeing the second makes the free list's head
      the block at align(SIZE_OF_HEAP / 4) = 1040. */
  lemma ReuseQuarterGapHead()
    ensures var t := Play(FRESH, Then(MallocCall(1024), Then(MallocCall(1024), Then(MallocCall(1024), Then(MallocCall(204), Then(FreeCall(1056), Done))))));
            t == Step(MallocDone(Allocated(16)), Step(MallocDone(Allocated(1056)), Step(MallocDone(Allocated(2096)), Step(MallocDone(Allocated(3136)), Step(FreeDone(Freed), Stop([Block(0, false, 1024), Block(1040, true, 1024), Block(2080, false, 1024), Block(3120, false, 208), Block(3344, true, 736)]))))))
            && FreeList(Final(t))[0].off == Align(SIZE_OF_HEAP / 4)
  {
    var x4 := Then(FreeCall(1056), Done);
    var x3 := Concat(Then(MallocCall(204), Done), x4);
    var x2 := Concat(Then(MallocCall(1024), Done), x3);
    var x1 := Concat(Then(MallocCall(1024), Done), x2);
    var x0 := Concat(Then(MallocCall(1024), Done), x1);
    assert x0 == Then(MallocCall(1024), Then(MallocCall(1024), Then(MallocCall(1024), Then(MallocCall(204), Then(FreeCall(1056), Done)))));
    Move10(); Move11(); Move12(); Move13(); Move14();
    PlayConcat(FRESH, Then(MallocCall(1024), Done), x1);
    PlayConcat([Block(0, false, 1024), Block(1040, true, 3040)], Then(MallocCall(1024), Done), x2);
    PlayConcat([Block(0, false, 1024), Block(1040, false, 1024), Block(2080, true, 2000)], Then(MallocCall(1024), Done), x3);
    PlayConcat([Block(0, false, 1024), Block(1040, false, 1024), Block(2080, false, 1024), Block(3120, true, 960)], Then(MallocCall(204), Done), x4);
    ReuseQuarterGapHeadLeaves();
  }

  /** test_free_chunk_reuse, third case continued (tests.c:166-170): the next
      standard chunk is carved from that block (payload 1056). */
  lemma ReuseQuarterGap()
    ensures var t := Play(FRESH, Then(MallocCall(1024), Then(MallocCall(1024), Then(MallocCall(1024), Then(MallocCall(204), Then(FreeCall(1056), Then(MallocCall(204), Done)))))));
            t == Step(MallocDone(Allocated(16)), Step(MallocDone(Allocated(1056)), Step(MallocDone(Allocated(2096)), Step(MallocDone(Allocated(3136)), Step(FreeDone(Freed), Step(MallocDone(Allocated(1056)), Stop([Block(0, false, 1024), Block(1040, false, 208), Block(1264, true, 800), Block(2080, false, 1024), Block(3120, false, 208), Block(3344, true, 736)])))))))
  {
    var x5 := Then(MallocCall(204), Done);
    var x4 := Concat(Then(FreeCall(1056), Done), x5);
    var x3 := Concat(Then(MallocCall(204), Done), x4);
    var x2 := Concat(Then(MallocCall(1024), Done), x3);
    var x1 := Concat(Then(MallocCall(1024), Done), x2);
    var x0 := Concat(Then(MallocCall(1024), Done), x1);
    assert x0 == Then(MallocCall(1024), Then(MallocCall(1024), Then(MallocCall(1024), Then(MallocCall(204), Then(FreeCall(1056), Then(MallocCall(204), Done))))));
    Move10(); Move11(); Move12(); Move13(); Move14(); Move15();
    PlayConcat(FRESH, Then(MallocCall(1024), Done), x1);
    PlayConcat([Block(0, false, 1024), Block(1040, true, 3040)], Then(MallocCall(1024), Done), x2);
    PlayConcat([Block(0, false, 1024), Block(1040, false, 1024), Block(2080, true, 2000)], Then(MallocCall(1024), Done), x3);
    PlayConcat([Block(0, false, 1024), Block(1040, false, 1024), Block(2080, false, 1024), Block(3120, true, 960)], Then(MallocCall(204), Done), x4);
    PlayConcat([Block(0, false, 1024), Block(1040, false, 1024), Block(2080, false, 1024), Block(3120, false, 208), Block(3344, true, 736)], Then(FreeCall(1056), Done), x5);
  }

  lemma SplitMovesHeadLeaves()
    ensures FreeList([Block(0, false, 208), Block(224, true, 3856)])[0].off == Align(CHUNK_SIZE)
  {
  }

  /** test_splitting_free_chunks, first case (tests.c:231-237): one standard
      chunk moves the head from 0 to align(CHUNK_SIZE) = 224. */
  lemma SplitMovesHead()
    ensures var t := Play(FRESH, Then(MallocCall(204), Done));
            t == Step(MallocDone(Allocated(16)), Stop([Block(0, false, 208), Block(224, true, 3856)]))
            && FreeList(Final(t))[0].off == Align(CHUNK_SIZE)
  {
    var x0 := Then(MallocCall(204), Done);
    assert x0 == Then(MallocCall(204), Done);
    Move16();
    SplitMovesHeadLeaves();
  }

  lemma SplitAfterHalfHeapLeaves()
    ensures FreeList([Block(0, false, 2048), Block(2064, false, 208), Block(2288, true, 1792)])[0].off == Align(SIZE_OF_HEAP / 2) + Align(CHUNK_SIZE)
  {
  }

  /** test_splitting_free_chunks, second case (tests.c:243-253): half the heap
      and a standard chunk move the head to align(2048) + align(204) = 2288. */
  lemma SplitAfterHalfHeap()
    ensures var t := Play(FRESH, Then(MallocCall(2048), Then(MallocCall(204), Done)));
            t == Step(MallocDone(Allocated(16)), Step(MallocDone(Allocated(2080)), Stop([Block(0, false, 2048), Block(2064, false, 208), Block(2288, true, 1792)])))
            && FreeList(Final(t))[0].off == Align(SIZE_OF_HEAP / 2) + Align(CHUNK_SIZE)
  {
    var x1 := Then(MallocCall(204), Done);
    var x0 := Concat(Then(MallocCall(2048), Done), x1);
    assert x0 == Then(MallocCall(2048), Then(MallocCall(204), Done));
    Move17(); Move18();
    PlayConcat(FRESH, Then(MallocCall(2048), Done), x1);
    SplitAfterHalfHeapLeaves();
  }

  lemma SplitFreedHalfLeaves()
    ensures FreeList([Block(0, true, 2048), Block(2064, false, 208), Block(2288, true, 1792)])[0].off == 0
  {
  }

  /** test_splitting_free_chunks, second case continued (tests.c:254-256):
      freeing the half makes the head 0. */
  lemma SplitFreedHalf()
    ensures var t := Play(FRESH, Then(MallocCall(2048), Then(MallocCall(204), Then(FreeCall(16), Done))));
            t == Step(MallocDone(Allocated(16)), Step(MallocDone(Allocated(2080)), Step(FreeDone(Freed), Stop([Block(0, true, 2048), Block(2064, false, 208), Block(2288, true, 1792)]))))
            && FreeList(Final(t))[0].off == 0
  {
    var x2 := Then(FreeCall(16), Done);
    var x1 := Concat(Then(MallocCall(204), Done), x2);
    var x0 := Concat(Then(MallocCall(2048), Done), x1);
    assert x0 == Then(MallocCall(2048), Then(MallocCall(204), Then(FreeCall(16), Done)));
    Move17(); Move18(); Move19();
    PlayConcat(FRESH, Then(MallocCall(2048), Done), x1);
    PlayConcat([Block(0, false, 2048), Block(2064, true, 2016)], Then(MallocCall(204), Done), x2);
    SplitFreedHalfLeaves();
  }

  lemma SplitAfterFreedHalfLeaves()
    ensures FreeList([Block(0, false, 208), Block(224, true, 1824), Block(2064, false, 208), Block(2288, true, 1792)])[0].off == Align(CHUNK_SIZE)
  {
  }

  /** test_splitting_free_chunks, second case continued (tests.c:257-264): a
      standard chunk carved from the freed half moves the head to 224. */
  lemma SplitAfterFreedHalf()
    ensures var t := Play(FRESH, Then(MallocCall(2048), Then(MallocCall(204), Then(FreeCall(16), Then(MallocCall(204), Done)))));
            t == Step(MallocDone(Allocated(16)), Step(MallocDone(Allocated(2080)), Step(FreeDone(Freed), Step(MallocDone(Allocated(16)), Stop([Block(0, false, 208), Block(224, true, 1824), Block(2064, false, 208), Block(2288, true, 1792)])))))
            && FreeList(Final(t))[0].off == Align(CHUNK_SIZE)
  {
    var x3 := Then(MallocCall(204), Done);
    var x2 := Concat(Then(FreeCall(16), Done), x3);
    var x1 := Concat(Then(MallocCall(204), Done), x2);
    var x0 := Concat(Then(MallocCall(2048), Done), x1);
    assert x0 == Then(MallocCall(2048), Then(MallocCall(204), Then(FreeCall(16), Then(MallocCall(204), Done))));
    Move17(); Move18(); Move19(); Move20();
    PlayConcat(FRESH, Then(MallocCall(2048), Done), x1);
    PlayConcat([Block(0, false, 2048), Block(2064, true, 2016)], Then(MallocCall(204), Done), x2);
    PlayConcat([Block(0, false, 2048), Block(2064, false, 208), Block(2288, true, 1792)], Then(FreeCall(16), Done), x3);
    SplitAfterFreedHalfLeaves();
  }

  lemma SplitMaximalChunkLeaves()
    ensures FreeList([Block(0, false, 4080)]) == []
  {
  }

  /** test_splitting_free_chunks, third case (tests.c:266-274): the largest
      request the heap can hold, SIZE_OF_HEAP - sizeof(header_t) = 4080, takes
      the one free block whole and leaves the free list empty. */
  lemma SplitMaximalChunk()
    ensures var t := Play(FRESH, Then(MallocCall(4080), Done));
            t == Step(MallocDone(Allocated(16)), Stop([Block(0, false, 4080)]))
            && FreeList(Final(t)) == []
  {
    var x0 := Then(MallocCall(4080), Done);
    assert x0 == Then(MallocCall(4080), Done);
    Move21();
    SplitMaximalChunkLeaves();
  }

  lemma SplitReuseWholeLeaves()
    ensures |FreeList([Block(0, false, 2048), Block(2064, false, 208), Block(2288, true, 1792)])| == 1
  {
  }

  /** test_splitting_free_chunks, fourth case (tests.c:276-288): after half the
      heap, a standard chunk and the half freed, a second half-heap request
      takes the freed block whole, leaving one free node. */
  lemma SplitReuseWhole()
    ensures var t := Play(FRESH, Then(MallocCall(2048), Then(MallocCall(204), Then(FreeCall(16), Then(MallocCall(2048), Done)))));
            t == Step(MallocDone(Allocated(16)), Step(MallocDone(Allocated(2080)), Step(FreeDone(Freed), Step(MallocDone(Allocated(16)), Stop([Block(0, false, 2048), Block(2064, false, 208), Block(2288, true, 1792)])))))
            && |FreeList(Final(t))| == 1
  {
    var x3 := Then(MallocCall(2048), Done);
    var x2 := Concat(Then(FreeCall(16), Done), x3);
    var x1 := Concat(Then(MallocCall(204), Done), x2);
    var x0 := Concat(Then(MallocCall(2048), Done), x1);
    assert x0 == Then(MallocCall(2048), Then(MallocCall(204), Then(FreeCall(16), Then(MallocCall(2048), Done))));
    Move17(); Move18(); Move19(); Move22();
    PlayConcat(FRESH, Then(MallocCall(2048), Done), x1);
    PlayConcat([Block(0, false, 2048), Block(2064, true, 2016)], Then(MallocCall(204), Done), x2);
    PlayConcat([Block(0, false, 2048), Block(2064, false, 208), Block(2288, true, 1792)], Then(FreeCall(16), Done), x3);
    SplitReuseWholeLeaves();
  }

  /** test_coalesce, first case (tests.c:300-311): five standard chunks, and
      free_all_chunks leaves a single free node spanning the arena. */
  lemma CoalesceFreeAll()
    ensures var t := Play(FRESH, Then(MallocCall(204), Then(MallocCall(204), Then(MallocCall(204), Then(MallocCall(204), Then(MallocCall(204), Done))))));
            t == Step(MallocDone(Allocated(16)), Step(MallocDone(Allocated(240)), Step(MallocDone(Allocated(464)), Step(MallocDone(Allocated(688)), Step(MallocDone(Allocated(912)), Stop([Block(0, false, 208), Block(224, false, 208), Block(448, false, 208), Block(672, false, 208), Block(896, false, 208), Block(1120, true, 2960)]))))))
            && FreeEach(Final(t), Payloads(Final(t))).0 == Freed && FreeEach(Final(t), Payloads(Final(t))).1 == FRESH
  {
    var x4 := Then(MallocCall(204), Done);
    var x3 := Concat(Then(MallocCall(204), Done), x4);
    var x2 := Concat(Then(MallocCall(204), Done), x3);
    var x1 := Concat(Then(MallocCall(204), Done), x2);
    var x0 := Concat(Then(MallocCall(204), Done), x1);
    assert x0 == Then(MallocCall(204), Then(MallocCall(204), Then(MallocCall(204), Then(MallocCall(204), Then(MallocCall(204), Done)))));
    Move16(); Move23(); Move24(); Move25(); Move26();
    PlayConcat(FRESH, Then(MallocCall(204), Done), x1);
    PlayConcat([Block(0, false, 208), Block(224, true, 3856)], Then(MallocCall(204), Done), x2);
    PlayConcat([Block(0, false, 208), Block(224, false, 208), Block(448, true, 3632)], Then(MallocCall(204), Done), x3);
    PlayConcat([Block(0, false, 208), Block(224, false, 208), Block(448, false, 208), Block(672, true, 3408)], Then(MallocCall(204), Done), x4);
    assert Tiled(FRESH) && Coalesced(FRESH);
    PlayPreserves(FRESH, x0);
    FreeAllClears([Block(0, false, 208), Block(224, false, 208), Block(448, false, 208), Block(672, false, 208), Block(896, false, 208), Block(1120, true, 2960)]);
  }

  lemma CoalesceFourOfFiveLeaves()
    ensures |FreeList([Block(0, true, 432), Block(448, false, 208), Block(672, true, 3408)])| == 2
  {
  }

  /** test_coalesce, second case (tests.c:313-328): freeing the first two and
      the last two of five standard chunks leaves two free nodes; the last free
      merges the fourth chunk with both neighbours, which needs coalesce to
      look at a node again after it has absorbed its successor. */
  lemma CoalesceFourOfFive()
    ensures var t := Play(FRESH, Then(MallocCall(204), Then(MallocCall(204), Then(MallocCall(204), Then(MallocCall(204), Then(MallocCall(204), Then(FreeCall(16), Then(FreeCall(240), Then(FreeCall(688), Then(FreeCall(912), Done))))))))));
            t == Step(MallocDone(Allocated(16)), Step(MallocDone(Allocated(240)), Step(MallocDone(Allocated(464)), Step(MallocDone(Allocated(688)), Step(MallocDone(Allocated(912)), Step(FreeDone(Freed), Step(FreeDone(Freed), Step(FreeDone(Freed), Step(FreeDone(Freed), Stop([Block(0, true, 432), Block(448, false, 208), Block(672, true, 3408)]))))))))))
            && |FreeList(Final(t))| == 2
  {
    var x8 := Then(FreeCall(912), Done);
    var x7 := Concat(Then(FreeCall(688), Done), x8);
    var x6 := Concat(Then(FreeCall(240), Done), x7);
    var x5 := Concat(Then(FreeCall(16), Done), x6);
    var x4 := Concat(Then(MallocCall(204), Done), x5);
    var x3 := Concat(Then(MallocCall(204), Done), x4);
    var x2 := Concat(Then(MallocCall(204), Done), x3);
    var x1 := Concat(Then(MallocCall(204), Done), x2);
    var x0 := Concat(Then(MallocCall(204), Done), x1);
    assert x0 == Then(MallocCall(204), Then(MallocCall(204), Then(MallocCall(204), Then(MallocCall(204), Then(MallocCall(204), Then(FreeCall(16), Then(FreeCall(240), Then(FreeCall(688), Then(FreeCall(912), Done)))))))));
    Move16(); Move23(); Move24(); Move25(); Move26(); Move27(); Move28(); Move29(); Move30();
    PlayConcat(FRESH, Then(MallocCall(204), Done), x1);
    PlayConcat([Block(0, false, 208), Block(224, true, 3856)], Then(MallocCall(204), Done), x2);
    PlayConcat([Block(0, false, 208), Block(224, false, 208), Block(448, true, 3632)], Then(MallocCall(204), Done), x3);
    PlayConcat([Block(0, false, 208), Block(224, false, 208), Block(448, false, 208), Block(672, true, 3408)], Then(MallocCall(204), Done), x4);
    PlayConcat([Block(0, false, 208), Block(224, false, 208), Block(448, false, 208), Block(672, false, 208), Block(896, true, 3184)], Then(MallocCall(204), Done), x5);
    PlayConcat([Block(0, false, 208), Block(224, false, 208), Block(448, false, 208), Block(672, false, 208), Block(896, false, 208), Block(1120, true, 2960)], Then(FreeCall(16), Done), x6);
    PlayConcat([Block(0, true, 208), Block(224, false, 208), Block(448, false, 208), Block(672, false, 208), Block(896, false, 208), Block(1120, true, 2960)], Then(FreeCall(240), Done), x7);
    PlayConcat([Block(0, true, 432), Block(448, false, 208), Block(672, false, 208), Block(896, false, 208), Block(1120, true, 2960)], Then(FreeCall(688), Done), x8);
    CoalesceFourOfFiveLeaves();
  }

  lemma CoalesceThreeOfFiveLeaves()
    ensures |FreeList([Block(0, true, 208), Block(224, false, 208), Block(448, true, 432), Block(896, false, 208), Block(1120, true, 2960)])| == 3
  {
  }

  /** test_coalesce, third case (tests.c:330-344): freeing chunks 0, 2 and 3 of
      five leaves three free nodes. */
  lemma CoalesceThreeOfFive()
    ensures var t := Play(FRESH, Then(MallocCall(204), Then(MallocCall(204), Then(MallocCall(204), Then(MallocCall(204), Then(MallocCall(204), Then(FreeCall(16), Then(FreeCall(464), Then(FreeCall(688), Done)))))))));
            t == Step(MallocDone(Allocated(16)), Step(MallocDone(Allocated(240)), Step(MallocDone(Allocated(464)), Step(MallocDone(Allocated(688)), Step(MallocDone(Allocated(912)), Step(FreeDone(Freed), Step(FreeDone(Freed), Step(FreeDone(Freed), Stop([Block(0, true, 208), Block(224, false, 208), Block(448, true, 432), Block(896, false, 208), Block(1120, true, 2960)])))))))))
            && |FreeList(Final(t))| == 3
  {
    var x7 := Then(FreeCall(688), Done);
    var x6 := Concat(Then(FreeCall(464), Done), x7);
    var x5 := Concat(Then(FreeCall(16), Done), x6);
    var x4 := Concat(Then(MallocCall(204), Done), x5);
    var x3 := Concat(Then(MallocCall(204), Done), x4);
    var x2 := Concat(Then(MallocCall(204), Done), x3);
    var x1 := Concat(Then(MallocCall(204), Done), x2);
    var x0 := Concat(Then(MallocCall(204), Done), x1);
    assert x0 == Then(MallocCall(204), Then(MallocCall(204), Then(MallocCall(204), Then(MallocCall(204), Then(MallocCall(204), Then(FreeCall(16), Then(FreeCall(464), Then(FreeCall(688), Done))))))));
    Move16(); Move23(); Move24(); Move25(); Move26(); Move27(); Move31(); Move32();
    PlayConcat(FRESH, Then(MallocCall(204), Done), x1);
    PlayConcat([Block(0, false, 208), Block(224, true, 3856)], Then(MallocCall(204), Done), x2);
    PlayConcat([Block(0, false, 208), Block(224, false, 208), Block(448, true, 3632)], Then(MallocCall(204), Done), x3);
    PlayConcat([Block(0, false, 208), Block(224, false, 208), Block(448, false, 208), Block(672, true, 3408)], Then(MallocCall(204), Done), x4);
    PlayConcat([Block(0, false, 208), Block(224, false, 208), Block(448, false, 208), Block(672, false, 208), Block(896, true, 3184)], Then(MallocCall(204), Done), x5);
    PlayConcat([Block(0, false, 208), Block(224, false, 208), Block(448, false, 208), Block(672, false, 208), Block(896, false, 208), Block(1120, true, 2960)], Then(FreeCall(16), Done), x6);
    PlayConcat([Block(0, true, 208), Block(224, false, 208), Block(448, false, 208), Block(672, false, 208), Block(896, false, 208), Block(1120, true, 2960)], Then(FreeCall(464), Done), x7);
    CoalesceThreeOfFiveLeaves();
  }

  /** test_worst_fit, first case (tests.c:408-422): with the first of two
      standard chunks freed, a smaller request (CHUNK_SIZE / 2 = 102) goes to
      the larger block after the second chunk, above it. */
  lemma WorstFitSkipsSmallBlock()
    ensures var t := Play(FRESH, Then(MallocCall(204), Then(MallocCall(204), Then(FreeCall(16), Then(MallocCall(102), Done)))));
            t == Step(MallocDone(Allocated(16)), Step(MallocDone(Allocated(240)), Step(FreeDone(Freed), Step(MallocDone(Allocated(464)), Stop([Block(0, true, 208), Block(224, false, 208), Block(448, false, 104), Block(568, true, 3512)])))))
  {
    var x3 := Then(MallocCall(102), Done);
    var x2 := Concat(Then(FreeCall(16), Done), x3);
    var x1 := Concat(Then(MallocCall(204), Done), x2);
    var x0 := Concat(Then(MallocCall(204), Done), x1);
    assert x0 == Then(MallocCall(204), Then(MallocCall(204), Then(FreeCall(16), Then(MallocCall(102), Done))));
    Move16(); Move23(); Move33(); Move34();
    PlayConcat(FRESH, Then(MallocCall(204), Done), x1);
    PlayConcat([Block(0, false, 208), Block(224, true, 3856)], Then(MallocCall(204), Done), x2);
    PlayConcat([Block(0, false, 208), Block(224, false, 208), Block(448, true, 3632)], Then(FreeCall(16), Done), x3);
  }

  /** test_worst_fit, second case (tests.c:424-453), and the third case of
      test_alternating_sequence (tests.c:384-399): a free half-heap block in
      the middle takes the next three standard chunks (payloads 240, 464 and
      688, between chunks 0 and 2), and the fourth goes past chunk 2 (2528). */
  lemma WorstFitFillsMiddle()
    ensures var t := Play(FRESH, Then(MallocCall(204), Then(MallocCall(2048), Then(MallocCall(204), Then(FreeCall(240), Then(MallocCall(204), Then(MallocCall(204), Then(MallocCall(204), Then(MallocCall(204), Done)))))))));
            t == Step(MallocDone(Allocated(16)), Step(MallocDone(Allocated(240)), Step(MallocDone(Allocated(2304)), Step(FreeDone(Freed), Step(MallocDone(Allocated(240)), Step(MallocDone(Allocated(464)), Step(MallocDone(Allocated(688)), Step(MallocDone(Allocated(2528)), Stop([Block(0, false, 208), Block(224, false, 208), Block(448, false, 208), Block(672, false, 208), Block(896, true, 1376), Block(2288, false, 208), Block(2512, false, 208), Block(2736, true, 1344)])))))))))
  {
    var x7 := Then(MallocCall(204), Done);
    var x6 := Concat(Then(MallocCall(204), Done), x7);
    var x5 := Concat(Then(MallocCall(204), Done), x6);
    var x4 := Concat(Then(MallocCall(204), Done), x5);
    var x3 := Concat(Then(FreeCall(240), Done), x4);
    var x2 := Concat(Then(MallocCall(204), Done), x3);
    var x1 := Concat(Then(MallocCall(2048), Done), x2);
    var x0 := Concat(Then(MallocCall(204), Done), x1);
    assert x0 == Then(MallocCall(204), Then(MallocCall(2048), Then(MallocCall(204), Then(FreeCall(240), Then(MallocCall(204), Then(MallocCall(204), Then(MallocCall(204), Then(MallocCall(204), Done))))))));
    Move16(); Move35(); Move36(); Move37(); Move38(); Move39(); Move40(); Move41();
    PlayConcat(FRESH, Then(MallocCall(204), Done), x1);
    PlayConcat([Block(0, false, 208), Block(224, true, 3856)], Then(MallocCall(2048), Done), x2);
    PlayConcat([Block(0, false, 208), Block(224, false, 2048), Block(2288, true, 1792)], Then(MallocCall(204), Done), x3);
    PlayConcat([Block(0, false, 208), Block(224, false, 2048), Block(2288, false, 208), Block(2512, true, 1568)], Then(FreeCall(240), Done), x4);
    PlayConcat([Block(0, false, 208), Block(224, true, 2048), Block(2288, false, 208), Block(2512, true, 1568)], Then(MallocCall(204), Done), x5);
    PlayConcat([Block(0, false, 208), Block(224, false, 208), Block(448, true, 1824), Block(2288, false, 208), Block(2512, true, 1568)], Then(MallocCall(204), Done), x6);
    PlayConcat([Block(0, false, 208), Block(224, false, 208), Block(448, false, 208), Block(672, true, 1600), Block(2288, false, 208), Block(2512, true, 1568)], Then(MallocCall(204), Done), x7);
  }

  /** test_malloc_bad_size, first case (tests.c:465-470): 2 * SIZE_OF_HEAP is
      refused. */
  lemma BadSizeTwiceHeap()
    ensures var t := Play(FRESH, Then(MallocCall(8192), Done));
            t == Step(MallocDone(Refused(SizeExceedsHeap)), Stop([Block(0, true, 4080)]))
  {
    var x0 := Then(MallocCall(8192), Done);
    assert x0 == Then(MallocCall(8192), Done);
    Move42();
  }

  /** test_malloc_bad_size, second case (tests.c:472-480): two requests of
      SIZE_OF_HEAP / 2 - CHUNK_SIZE / 2 = 1946 leave a 144-byte node, too small
      for a standard chunk. */
  lemma BadSizeNoRoom()
    ensures var t := Play(FRESH, Then(MallocCall(1946), Then(MallocCall(1946), Then(MallocCall(204), Done))));
            t == Step(MallocDone(Allocated(16)), Step(MallocDone(Allocated(1984)), Step(MallocDone(Refused(NoChunkBigEnough)), Stop([Block(0, false, 1952), Block(1968, false, 1952), Block(3936, true, 144)]))))
  {
    var x2 := Then(MallocCall(204), Done);
    var x1 := Concat(Then(MallocCall(1946), Done), x2);
    var x0 := Concat(Then(MallocCall(1946), Done), x1);
    assert x0 == Then(MallocCall(1946), Then(MallocCall(1946), Then(MallocCall(204), Done)));
    Move43(); Move44(); Move45();
    PlayConcat(FRESH, Then(MallocCall(1946), Done), x1);
    PlayConcat([Block(0, false, 1952), Block(1968, true, 2112)], Then(MallocCall(1946), Done), x2);
  }

  /** test_malloc_bad_size, last three cases (tests.c:482-502): -1 and
      -SIZE_OF_HEAP / 2 reach my_malloc as huge size_t values (2^64 - 1 and
      (2^64 - 4096) / 2, SIZE_OF_HEAP being a size_t), which exceed the heap;
      0 is refused as well. */
  lemma BadSizeWrapped()
    ensures var t := Play(FRESH, Then(MallocCall(-1), Then(MallocCall(9223372036854773760), Then(MallocCall(0), Done))));
            t == Step(MallocDone(Refused(SizeExceedsHeap)), Step(MallocDone(Refused(SizeExceedsHeap)), Step(MallocDone(Refused(ZeroSize)), Stop([Block(0, true, 4080)]))))
  {
    var x2 := Then(MallocCall(0), Done);
    var x1 := Concat(Then(MallocCall(9223372036854773760), Done), x2);
    var x0 := Concat(Then(MallocCall(-1), Done), x1);
    assert x0 == Then(MallocCall(-1), Then(MallocCall(9223372036854773760), Then(MallocCall(0), Done)));
    Move46(); Move47(); Move48();
    PlayConcat(FRESH, Then(MallocCall(-1), Done), x1);
    PlayConcat(FRESH, Then(MallocCall(9223372036854773760), Done), x2);
  }

  /** A fresh arena's node taken whole by a request of 4070 bytes (align gives
      4088, more than the node's 4080), freed, and taken again by the largest
      request, 4080 bytes: with the header recording the whole node, both
      requests succeed. The source's header records 4072 (Findings.
      WholeChunkLosesTail), and the second request is refused. */
  lemma WholeChunkReused()
    ensures var t := Play(FRESH, Then(MallocCall(4070), Then(FreeCall(16), Then(MallocCall(4080), Done))));
            t == Step(MallocDone(Allocated(16)), Step(FreeDone(Freed), Step(MallocDone(Allocated(16)), Stop([Block(0, false, 4080)]))))
  {
    var x2 := Then(MallocCall(4080), Done);
    var x1 := Concat(Then(FreeCall(16), Done), x2);
    var x0 := Concat(Then(MallocCall(4070), Done), x1);
    assert x0 == Then(MallocCall(4070), Then(FreeCall(16), Then(MallocCall(4080), Done)));
    Move49(); Move50(); Move21();
    PlayConcat(FRESH, Then(MallocCall(4070), Done), x1);
    PlayConcat([Block(0, false, 4080)], Then(FreeCall(16), Done), x2);
  }

  /** The calls that lead to Findings.LOST_BLOCKS: three free nodes, and the
      largest one, at offset 48, is not the head. */
  lemma LostNodeSetup()
    ensures var t := Play(FRESH, Then(MallocCall(8), Then(MallocCall(8), Then(MallocCall(2000), Then(MallocCall(8), Then(FreeCall(16), Then(FreeCall(64), Done)))))));
            t == Step(MallocDone(Allocated(16)), Step(MallocDone(Allocated(40)), Step(MallocDone(Allocated(64)), Step(MallocDone(Allocated(2080)), Step(FreeDone(Freed), Step(FreeDone(Freed), Stop([Block(0, true, 8), Block(24, false, 8), Block(48, true, 2000), Block(2064, false, 8), Block(2088, true, 1992)])))))))
  {
    var x5 := Then(FreeCall(64), Done);
    var x4 := Concat(Then(FreeCall(16), Done), x5);
    var x3 := Concat(Then(MallocCall(8), Done), x4);
    var x2 := Concat(Then(MallocCall(2000), Done), x3);
    var x1 := Concat(Then(MallocCall(8), Done), x2);
    var x0 := Concat(Then(MallocCall(8), Done), x1);
    assert x0 == Then(MallocCall(8), Then(MallocCall(8), Then(MallocCall(2000), Then(MallocCall(8), Then(FreeCall(16), Then(FreeCall(64), Done))))));
    Move51(); Move52(); Move53(); Move54(); Move55(); Move56();
    PlayConcat(FRESH, Then(MallocCall(8), Done), x1);
    PlayConcat([Block(0, false, 8), Block(24, true, 4056)], Then(MallocCall(8), Done), x2);
    PlayConcat([Block(0, false, 8), Block(24, false, 8), Block(48, true, 4032)], Then(MallocCall(2000), Done), x3);
    PlayConcat([Block(0, false, 8), Block(24, false, 8), Block(48, false, 2000), Block(2064, true, 2016)], Then(MallocCall(8), Done), x4);
    PlayConcat([Block(0, false, 8), Block(24, false, 8), Block(48, false, 2000), Block(2064, false, 8), Block(2088, true, 1992)], Then(FreeCall(16), Done), x5);
  }

  lemma LostNodeSplitLeaves()
    ensures |FreeList([Block(0, true, 8), Block(24, false, 8), Block(48, false, 8), Block(72, true, 1976), Block(2064, false, 8), Block(2088, true, 1992)])| == 3
  {
  }

  /** The next request of 8 bytes splits the node at 48, below the head; with
      the remainder's `next` set to the chosen node's, the free list keeps all
      three free blocks (Findings.LostNodeAsWritten shows the source losing
      the last one). */
  lemma LostNodeSplit()
    ensures var t := Play(FRESH, Then(MallocCall(8), Then(MallocCall(8), Then(MallocCall(2000), Then(MallocCall(8), Then(FreeCall(16), Then(FreeCall(64), Then(MallocCall(8), Done))))))));
            t == Step(MallocDone(Allocated(16)), Step(MallocDone(Allocated(40)), Step(MallocDone(Allocated(64)), Step(MallocDone(Allocated(2080)), Step(FreeDone(Freed), Step(FreeDone(Freed), Step(MallocDone(Allocated(64)), Stop([Block(0, true, 8), Block(24, false, 8), Block(48, false, 8), Block(72, true, 1976), Block(2064, false, 8), Block(2088, true, 1992)]))))))))
            && |FreeList(Final(t))| == 3
  {
    var x6 := Then(MallocCall(8), Done);
    var x5 := Concat(Then(FreeCall(64), Done), x6);
    var x4 := Concat(Then(FreeCall(16), Done), x5);
    var x3 := Concat(Then(MallocCall(8), Done), x4);
    var x2 := Concat(Then(MallocCall(2000), Done), x3);
    var x1 := Concat(Then(MallocCall(8), Done), x2);
    var x0 := Concat(Then(MallocCall(8), Done), x1);
    assert x0 == Then(MallocCall(8), Then(MallocCall(8), Then(MallocCall(2000), Then(MallocCall(8), Then(FreeCall(16), Then(FreeCall(64), Then(MallocCall(8), Done)))))));
    Move51(); Move52(); Move53(); Move54(); Move55(); Move56(); Move57();
    PlayConcat(FRESH, Then(MallocCall(8), Done), x1);
    PlayConcat([Block(0, false, 8), Block(24, true, 4056)], Then(MallocCall(8), Done), x2);
    PlayConcat([Block(0, false, 8), Block(24, false, 8), Block(48, true, 4032)], Then(MallocCall(2000), Done), x3);
    PlayConcat([Block(0, false, 8), Block(24, false, 8), Block(48, false, 2000), Block(2064, true, 2016)], Then(MallocCall(8), Done), x4);
    PlayConcat([Block(0, false, 8), Block(24, false, 8), Block(48, false, 2000), Block(2064, false, 8), Block(2088, true, 1992)], Then(FreeCall(16), Done), x5);
    PlayConcat([Block(0, true, 8), Block(24, false, 8), Block(48, false, 2000), Block(2064, false, 8), Block(2088, true, 1992)], Then(FreeCall(64), Done), x6);
    LostNodeSplitLeaves();
  }
}
