/** Single calls of the tests.c scenarios on concrete block sequences, each
    evaluated on the specification functions. Step MoveNN states one call's
    outcome and the blocks it leaves; its helpers state the facts the step
    needs: for my_malloc the node worst fit picks (MoveNNPicked) and the
    carve (MoveNNCarved), for my_free the block found (MoveNNFound) and the
    coalesced result (MoveNNMerged). The comment above each step names the
    scenarios and the position of the call in them. */
module ScenarioSteps {
  import opened HeapLayout
  import opened BlockModel
  import opened Replay

  /** my_malloc(1365) as call 1 of ReuseAfterLargerChunk (tests.c:125-137); also call 1
      of ReuseAfterTwoThirdsFreed (tests.c:139-153). */
  lemma Move01Picked()
    ensures FreeList([Block(0, true, 4080)]) == [Block(0, true, 4080)]
    ensures ArgMaxFirst([Block(0, true, 4080)]) == 0
    ensures FreeIndex([Block(0, true, 4080)], 0) == 0
  {
  }

  lemma Move01Carved()
    ensures [Block(0, true, 4080)][..0] + Carve(Block(0, true, 4080), 1384) + [Block(0, true, 4080)][1..] == [Block(0, false, 1368), Block(1384, true, 2696)]
  {
  }

  lemma Move01()
    ensures Play(FRESH, Then(MallocCall(1365), Done)) ==
            Step(MallocDone(Allocated(16)), Stop([Block(0, false, 1368), Block(1384, true, 2696)]))
  {
    Move01Picked();
    Move01Carved();
    assert Align(1365) == 1384;
    MallocStep([Block(0, true, 4080)], 1365, 0, 0,
      [Block(0, false, 1368), Block(1384, true, 2696)]);
  }

  /** my_malloc(1569) as call 2 of ReuseAfterLargerChunk (tests.c:125-137). */
  lemma Move02Picked()
    ensures FreeList([Block(0, false, 1368), Block(1384, true, 2696)]) == [Block(1384, true, 2696)]
    ensures ArgMaxFirst([Block(1384, true, 2696)]) == 0
    ensures FreeIndex([Block(0, false, 1368), Block(1384, true, 2696)], 0) == 1
  {
  }

  lemma Move02Carved()
    ensures [Block(0, false, 1368), Block(1384, true, 2696)][..1] + Carve(Block(1384, true, 2696), 1592) + [Block(0, false, 1368), Block(1384, true, 2696)][2..] == [Block(0, false, 1368), Block(1384, false, 1576), Block(2976, true, 1104)]
  {
  }

  lemma Move02()
    ensures Play([Block(0, false, 1368), Block(1384, true, 2696)], Then(MallocCall(1569), Done)) ==
            Step(MallocDone(Allocated(1400)), Stop([Block(0, false, 1368), Block(1384, false, 1576), Block(2976, true, 1104)]))
  {
    Move02Picked();
    Move02Carved();
    assert Align(1569) == 1592;
    MallocStep([Block(0, false, 1368), Block(1384, true, 2696)], 1569, 0, 1,
      [Block(0, false, 1368), Block(1384, false, 1576), Block(2976, true, 1104)]);
  }

  /** my_free(16) as call 3 of ReuseAfterLargerChunk (tests.c:125-137). */
  lemma Move03Found()
    ensures AllocAt([Block(0, false, 1368), Block(1384, false, 1576), Block(2976, true, 1104)], 0) == Some(0)
    ensures FreeList([Block(0, false, 1368), Block(1384, false, 1576), Block(2976, true, 1104)][1..]) != []
    ensures [Block(0, false, 1368), Block(1384, false, 1576), Block(2976, true, 1104)][0 := Block(0, true, 1368)] == [Block(0, true, 1368), Block(1384, false, 1576), Block(2976, true, 1104)]
  {
  }

  lemma Move03Merged()
    ensures MergeRuns([Block(0, true, 1368), Block(1384, false, 1576), Block(2976, true, 1104)]) == [Block(0, true, 1368), Block(1384, false, 1576), Block(2976, true, 1104)]
  {
  }

  lemma Move03()
    ensures Play([Block(0, false, 1368), Block(1384, false, 1576), Block(2976, true, 1104)], Then(FreeCall(16), Done)) ==
            Step(FreeDone(Freed), Stop([Block(0, true, 1368), Block(1384, false, 1576), Block(2976, true, 1104)]))
  {
    Move03Found();
    Move03Merged();
    FreeStep([Block(0, false, 1368), Block(1384, false, 1576), Block(2976, true, 1104)], 16, 0,
      [Block(0, true, 1368), Block(1384, false, 1576), Block(2976, true, 1104)],
      [Block(0, true, 1368), Block(1384, false, 1576), Block(2976, true, 1104)]);
  }

  /** my_malloc(204) as call 4 of ReuseAfterLargerChunk (tests.c:125-137). */
  lemma Move04Picked()
    ensures FreeList([Block(0, true, 1368), Block(1384, false, 1576), Block(2976, true, 1104)]) == [Block(0, true, 1368), Block(2976, true, 1104)]
    ensures ArgMaxFirst([Block(0, true, 1368), Block(2976, true, 1104)]) == 0
    ensures FreeIndex([Block(0, true, 1368), Block(1384, false, 1576), Block(2976, true, 1104)], 0) == 0
  {
  }

  lemma Move04Carved()
    ensures [Block(0, true, 1368), Block(1384, false, 1576), Block(2976, true, 1104)][..0] + Carve(Block(0, true, 1368), 224) + [Block(0, true, 1368), Block(1384, false, 1576), Block(2976, true, 1104)][1..] == [Block(0, false, 208), Block(224, true, 1144), Block(1384, false, 1576), Block(2976, true, 1104)]
  {
  }

  lemma Move04()
    ensures Play([Block(0, true, 1368), Block(1384, false, 1576), Block(2976, true, 1104)], Then(MallocCall(204), Done)) ==
            Step(MallocDone(Allocated(16)), Stop([Block(0, false, 208), Block(224, true, 1144), Block(1384, false, 1576), Block(2976, true, 1104)]))
  {
    Move04Picked();
    Move04Carved();
    assert Align(204) == 224;
    MallocStep([Block(0, true, 1368), Block(1384, false, 1576), Block(2976, true, 1104)], 204, 0, 0,
      [Block(0, false, 208), Block(224, true, 1144), Block(1384, false, 1576), Block(2976, true, 1104)]);
  }

  /** my_malloc(1365) as call 2 of ReuseAfterTwoThirdsFreed (tests.c:139-153). */
  lemma Move05Picked()
    ensures FreeList([Block(0, false, 1368), Block(1384, true, 2696)]) == [Block(1384, true, 2696)]
    ensures ArgMaxFirst([Block(1384, true, 2696)]) == 0
    ensures FreeIndex([Block(0, false, 1368), Block(1384, true, 2696)], 0) == 1
  {
  }

  lemma Move05Carved()
    ensures [Block(0, false, 1368), Block(1384, true, 2696)][..1] + Carve(Block(1384, true, 2696), 1384) + [Block(0, false, 1368), Block(1384, true, 2696)][2..] == [Block(0, false, 1368), Block(1384, false, 1368), Block(2768, true, 1312)]
  {
  }

  lemma Move05()
    ensures Play([Block(0, false, 1368), Block(1384, true, 2696)], Then(MallocCall(1365), Done)) ==
            Step(MallocDone(Allocated(1400)), Stop([Block(0, false, 1368), Block(1384, false, 1368), Block(2768, true, 1312)]))
  {
    Move05Picked();
    Move05Carved();
    assert Align(1365) == 1384;
    MallocStep([Block(0, false, 1368), Block(1384, true, 2696)], 1365, 0, 1,
      [Block(0, false, 1368), Block(1384, false, 1368), Block(2768, true, 1312)]);
  }

  /** my_malloc(204) as call 3 of ReuseAfterTwoThirdsFreed (tests.c:139-153). */
  lemma Move06Picked()
    ensures FreeList([Block(0, false, 1368), Block(1384, false, 1368), Block(2768, true, 1312)]) == [Block(2768, true, 1312)]
    ensures ArgMaxFirst([Block(2768, true, 1312)]) == 0
    ensures FreeIndex([Block(0, false, 1368), Block(1384, false, 1368), Block(2768, true, 1312)], 0) == 2
  {
  }

  lemma Move06Carved()
    ensures [Block(0, false, 1368), Block(1384, false, 1368), Block(2768, true, 1312)][..2] + Carve(Block(2768, true, 1312), 224) + [Block(0, false, 1368), Block(1384, false, 1368), Block(2768, true, 1312)][3..] == [Block(0, false, 1368), Block(1384, false, 1368), Block(2768, false, 208), Block(2992, true, 1088)]
  {
  }

  lemma Move06()
    ensures Play([Block(0, false, 1368), Block(1384, false, 1368), Block(2768, true, 1312)], Then(MallocCall(204), Done)) ==
            Step(MallocDone(Allocated(2784)), Stop([Block(0, false, 1368), Block(1384, false, 1368), Block(2768, false, 208), Block(2992, true, 1088)]))
  {
    Move06Picked();
    Move06Carved();
    assert Align(204) == 224;
    MallocStep([Block(0, false, 1368), Block(1384, false, 1368), Block(2768, true, 1312)], 204, 0, 2,
      [Block(0, false, 1368), Block(1384, false, 1368), Block(2768, false, 208), Block(2992, true, 1088)]);
  }

  /** my_free(16) as call 4 of ReuseAfterTwoThirdsFreed (tests.c:139-153). */
  lemma Move07Found()
    ensures AllocAt([Block(0, false, 1368), Block(1384, false, 1368), Block(2768, false, 208), Block(2992, true, 1088)], 0) == Some(0)
    ensures FreeList([Block(0, false, 1368), Block(1384, false, 1368), Block(2768, false, 208), Block(2992, true, 1088)][1..]) != []
    ensures [Block(0, false, 1368), Block(1384, false, 1368), Block(2768, false, 208), Block(2992, true, 1088)][0 := Block(0, true, 1368)] == [Block(0, true, 1368), Block(1384, false, 1368), Block(2768, false, 208), Block(2992, true, 1088)]
  {
  }

  lemma Move07Merged()
    ensures MergeRuns([Block(0, true, 1368), Block(1384, false, 1368), Block(2768, false, 208), Block(2992, true, 1088)]) == [Block(0, true, 1368), Block(1384, false, 1368), Block(2768, false, 208), Block(2992, true, 1088)]
  {
  }

  lemma Move07()
    ensures Play([Block(0, false, 1368), Block(1384, false, 1368), Block(2768, false, 208), Block(2992, true, 1088)], Then(FreeCall(16), Done)) ==
            Step(FreeDone(Freed), Stop([Block(0, true, 1368), Block(1384, false, 1368), Block(2768, false, 208), Block(2992, true, 1088)]))
  {
    Move07Found();
    Move07Merged();
    FreeStep([Block(0, false, 1368), Block(1384, false, 1368), Block(2768, false, 208), Block(2992, true, 1088)], 16, 0,
      [Block(0, true, 1368), Block(1384, false, 1368), Block(2768, false, 208), Block(2992, true, 1088)],
      [Block(0, true, 1368), Block(1384, false, 1368), Block(2768, false, 208), Block(2992, true, 1088)]);
  }

  /** my_free(1400) as call 5 of ReuseAfterTwoThirdsFreed (tests.c:139-153). */
  lemma Move08Found()
    ensures AllocAt([Block(0, true, 1368), Block(1384, false, 1368), Block(2768, false, 208), Block(2992, true, 1088)], 1384) == Some(1)
    ensures FreeList([Block(0, true, 1368), Block(1384, false, 1368), Block(2768, false, 208), Block(2992, true, 1088)][2..]) != []
    ensures [Block(0, true, 1368), Block(1384, false, 1368), Block(2768, false, 208), Block(2992, true, 1088)][1 := Block(1384, true, 1368)] == [Block(0, true, 1368), Block(1384, true, 1368), Block(2768, false, 208), Block(2992, true, 1088)]
  {
  }

  lemma Move08Merged()
    ensures MergeRuns([Block(0, true, 1368), Block(1384, true, 1368), Block(2768, false, 208), Block(2992, true, 1088)]) == [Block(0, true, 2752), Block(2768, false, 208), Block(2992, true, 1088)]
  {
  }

  lemma Move08()
    ensures Play([Block(0, true, 1368), Block(1384, false, 1368), Block(2768, false, 208), Block(2992, true, 1088)], Then(FreeCall(1400), Done)) ==
            Step(FreeDone(Freed), Stop([Block(0, true, 2752), Block(2768, false, 208), Block(2992, true, 1088)]))
  {
    Move08Found();
    Move08Merged();
    FreeStep([Block(0, true, 1368), Block(1384, false, 1368), Block(2768, false, 208), Block(2992, true, 1088)], 1400, 1,
      [Block(0, true, 1368), Block(1384, true, 1368), Block(2768, false, 208), Block(2992, true, 1088)],
      [Block(0, true, 2752), Block(2768, false, 208), Block(2992, true, 1088)]);
  }

  /** my_malloc(204) as call 6 of ReuseAfterTwoThirdsFreed (tests.c:139-153). */
  lemma Move09Picked()
    ensures FreeList([Block(0, true, 2752), Block(2768, false, 208), Block(2992, true, 1088)]) == [Block(0, true, 2752), Block(2992, true, 1088)]
    ensures ArgMaxFirst([Block(0, true, 2752), Block(2992, true, 1088)]) == 0
    ensures FreeIndex([Block(0, true, 2752), Block(2768, false, 208), Block(2992, true, 1088)], 0) == 0
  {
  }

  lemma Move09Carved()
    ensures [Block(0, true, 2752), Block(2768, false, 208), Block(2992, true, 1088)][..0] + Carve(Block(0, true, 2752), 224) + [Block(0, true, 2752), Block(2768, false, 208), Block(2992, true, 1088)][1..] == [Block(0, false, 208), Block(224, true, 2528), Block(2768, false, 208), Block(2992, true, 1088)]
  {
  }

  lemma Move09()
    ensures Play([Block(0, true, 2752), Block(2768, false, 208), Block(2992, true, 1088)], Then(MallocCall(204), Done)) ==
            Step(MallocDone(Allocated(16)), Stop([Block(0, false, 208), Block(224, true, 2528), Block(2768, false, 208), Block(2992, true, 1088)]))
  {
    Move09Picked();
    Move09Carved();
    assert Align(204) == 224;
    MallocStep([Block(0, true, 2752), Block(2768, false, 208), Block(2992, true, 1088)], 204, 0, 0,
      [Block(0, false, 208), Block(224, true, 2528), Block(2768, false, 208), Block(2992, true, 1088)]);
  }

  /** my_malloc(1024) as call 1 of ReuseQuarterGapHead (tests.c:155-165); also call 1 of
      ReuseQuarterGap (tests.c:166-170). */
  lemma Move10Picked()
    ensures FreeList([Block(0, true, 4080)]) == [Block(0, true, 4080)]
    ensures ArgMaxFirst([Block(0, true, 4080)]) == 0
    ensures FreeIndex([Block(0, true, 4080)], 0) == 0
  {
  }

  lemma Move10Carved()
    ensures [Block(0, true, 4080)][..0] + Carve(Block(0, true, 4080), 1040) + [Block(0, true, 4080)][1..] == [Block(0, false, 1024), Block(1040, true, 3040)]
  {
  }

  lemma Move10()
    ensures Play(FRESH, Then(MallocCall(1024), Done)) ==
            Step(MallocDone(Allocated(16)), Stop([Block(0, false, 1024), Block(1040, true, 3040)]))
  {
    Move10Picked();
    Move10Carved();
    assert Align(1024) == 1040;
    MallocStep([Block(0, true, 4080)], 1024, 0, 0,
      [Block(0, false, 1024), Block(1040, true, 3040)]);
  }

  /** my_malloc(1024) as call 2 of ReuseQuarterGapHead (tests.c:155-165); also call 2 of
      ReuseQuarterGap (tests.c:166-170). */
  lemma Move11Picked()
    ensures FreeList([Block(0, false, 1024), Block(1040, true, 3040)]) == [Block(1040, true, 3040)]
    ensures ArgMaxFirst([Block(1040, true, 3040)]) == 0
    ensures FreeIndex([Block(0, false, 1024), Block(1040, true, 3040)], 0) == 1
  {
  }

  lemma Move11Carved()
    ensures [Block(0, false, 1024), Block(1040, true, 3040)][..1] + Carve(Block(1040, true, 3040), 1040) + [Block(0, false, 1024), Block(1040, true, 3040)][2..] == [Block(0, false, 1024), Block(1040, false, 1024), Block(2080, true, 2000)]
  {
  }

  lemma Move11()
    ensures Play([Block(0, false, 1024), Block(1040, true, 3040)], Then(MallocCall(1024), Done)) ==
            Step(MallocDone(Allocated(1056)), Stop([Block(0, false, 1024), Block(1040, false, 1024), Block(2080, true, 2000)]))
  {
    Move11Picked();
    Move11Carved();
    assert Align(1024) == 1040;
    MallocStep([Block(0, false, 1024), Block(1040, true, 3040)], 1024, 0, 1,
      [Block(0, false, 1024), Block(1040, false, 1024), Block(2080, true, 2000)]);
  }

  /** my_malloc(1024) as call 3 of ReuseQuarterGapHead (tests.c:155-165); also call 3 of
      ReuseQuarterGap (tests.c:166-170). */
  lemma Move12Picked()
    ensures FreeList([Block(0, false, 1024), Block(1040, false, 1024), Block(2080, true, 2000)]) == [Block(2080, true, 2000)]
    ensures ArgMaxFirst([Block(2080, true, 2000)]) == 0
    ensures FreeIndex([Block(0, false, 1024), Block(1040, false, 1024), Block(2080, true, 2000)], 0) == 2
  {
  }

  lemma Move12Carved()
    ensures [Block(0, false, 1024), Block(1040, false, 1024), Block(2080, true, 2000)][..2] + Carve(Block(2080, true, 2000), 1040) + [Block(0, false, 1024), Block(1040, false, 1024), Block(2080, true, 2000)][3..] == [Block(0, false, 1024), Block(1040, false, 1024), Block(2080, false, 1024), Block(3120, true, 960)]
  {
  }

  lemma Move12()
    ensures Play([Block(0, false, 1024), Block(1040, false, 1024), Block(2080, true, 2000)], Then(MallocCall(1024), Done)) ==
            Step(MallocDone(Allocated(2096)), Stop([Block(0, false, 1024), Block(1040, false, 1024), Block(2080, false, 1024), Block(3120, true, 960)]))
  {
    Move12Picked();
    Move12Carved();
    assert Align(1024) == 1040;
    MallocStep([Block(0, false, 1024), Block(1040, false, 1024), Block(2080, true, 2000)], 1024, 0, 2,
      [Block(0, false, 1024), Block(1040, false, 1024), Block(2080, false, 1024), Block(3120, true, 960)]);
  }

  /** my_malloc(204) as call 4 of ReuseQuarterGapHead (tests.c:155-165); also call 4 of
      ReuseQuarterGap (tests.c:166-170). */
  lemma Move13Picked()
    ensures FreeList([Block(0, false, 1024), Block(1040, false, 1024), Block(2080, false, 1024), Block(3120, true, 960)]) == [Block(3120, true, 960)]
    ensures ArgMaxFirst([Block(3120, true, 960)]) == 0
    ensures FreeIndex([Block(0, false, 1024), Block(1040, false, 1024), Block(2080, false, 1024), Block(3120, true, 960)], 0) == 3
  {
  }

  lemma Move13Carved()
    ensures [Block(0, false, 1024), Block(1040, false, 1024), Block(2080, false, 1024), Block(3120, true, 960)][..3] + Carve(Block(3120, true, 960), 224) + [Block(0, false, 1024), Block(1040, false, 1024), Block(2080, false, 1024), Block(3120, true, 960)][4..] == [Block(0, false, 1024), Block(1040, false, 1024), Block(2080, false, 1024), Block(3120, false, 208), Block(3344, true, 736)]
  {
  }

  lemma Move13()
    ensures Play([Block(0, false, 1024), Block(1040, false, 1024), Block(2080, false, 1024), Block(3120, true, 960)], Then(MallocCall(204), Done)) ==
            Step(MallocDone(Allocated(3136)), Stop([Block(0, false, 1024), Block(1040, false, 1024), Block(2080, false, 1024), Block(3120, false, 208), Block(3344, true, 736)]))
  {
    Move13Picked();
    Move13Carved();
    assert Align(204) == 224;
    MallocStep([Block(0, false, 1024), Block(1040, false, 1024), Block(2080, false, 1024), Block(3120, true, 960)], 204, 0, 3,
      [Block(0, false, 1024), Block(1040, false, 1024), Block(2080, false, 1024), Block(3120, false, 208), Block(3344, true, 736)]);
  }

  /** my_free(1056) as call 5 of ReuseQuarterGapHead (tests.c:155-165); also call 5 of
      ReuseQuarterGap (tests.c:166-170). */
  lemma Move14Found()
    ensures AllocAt([Block(0, false, 1024), Block(1040, false, 1024), Block(2080, false, 1024), Block(3120, false, 208), Block(3344, true, 736)], 1040) == Some(1)
    ensures FreeList([Block(0, false, 1024), Block(1040, false, 1024), Block(2080, false, 1024), Block(3120, false, 208), Block(3344, true, 736)][2..]) != []
    ensures [Block(0, false, 1024), Block(1040, false, 1024), Block(2080, false, 1024), Block(3120, false, 208), Block(3344, true, 736)][1 := Block(1040, true, 1024)] == [Block(0, false, 1024), Block(1040, true, 1024), Block(2080, false, 1024), Block(3120, false, 208), Block(3344, true, 736)]
  {
  }

  lemma Move14Merged()
    ensures MergeRuns([Block(0, false, 1024), Block(1040, true, 1024), Block(2080, false, 1024), Block(3120, false, 208), Block(3344, true, 736)]) == [Block(0, false, 1024), Block(1040, true, 1024), Block(2080, false, 1024), Block(3120, false, 208), Block(3344, true, 736)]
  {
  }

  lemma Move14()
    ensures Play([Block(0, false, 1024), Block(1040, false, 1024), Block(2080, false, 1024), Block(3120, false, 208), Block(3344, true, 736)], Then(FreeCall(1056), Done)) ==
            Step(FreeDone(Freed), Stop([Block(0, false, 1024), Block(1040, true, 1024), Block(2080, false, 1024), Block(3120, false, 208), Block(3344, true, 736)]))
  {
    Move14Found();
    Move14Merged();
    FreeStep([Block(0, false, 1024), Block(1040, false, 1024), Block(2080, false, 1024), Block(3120, false, 208), Block(3344, true, 736)], 1056, 1,
      [Block(0, false, 1024), Block(1040, true, 1024), Block(2080, false, 1024), Block(3120, false, 208), Block(3344, true, 736)],
      [Block(0, false, 1024), Block(1040, true, 1024), Block(2080, false, 1024), Block(3120, false, 208), Block(3344, true, 736)]);
  }

  /** my_malloc(204) as call 6 of ReuseQuarterGap (tests.c:166-170). */
  lemma Move15Picked()
    ensures FreeList([Block(0, false, 1024), Block(1040, true, 1024), Block(2080, false, 1024), Block(3120, false, 208), Block(3344, true, 736)]) == [Block(1040, true, 1024), Block(3344, true, 736)]
    ensures ArgMaxFirst([Block(1040, true, 1024), Block(3344, true, 736)]) == 0
    ensures FreeIndex([Block(0, false, 1024), Block(1040, true, 1024), Block(2080, false, 1024), Block(3120, false, 208), Block(3344, true, 736)], 0) == 1
  {
  }

  lemma Move15Carved()
    ensures [Block(0, false, 1024), Block(1040, true, 1024), Block(2080, false, 1024), Block(3120, false, 208), Block(3344, true, 736)][..1] + Carve(Block(1040, true, 1024), 224) + [Block(0, false, 1024), Block(1040, true, 1024), Block(2080, false, 1024), Block(3120, false, 208), Block(3344, true, 736)][2..] == [Block(0, false, 1024), Block(1040, false, 208), Block(1264, true, 800), Block(2080, false, 1024), Block(3120, false, 208), Block(3344, true, 736)]
  {
  }

  lemma Move15()
    ensures Play([Block(0, false, 1024), Block(1040, true, 1024), Block(2080, false, 1024), Block(3120, false, 208), Block(3344, true, 736)], Then(MallocCall(204), Done)) ==
            Step(MallocDone(Allocated(1056)), Stop([Block(0, false, 1024), Block(1040, false, 208), Block(1264, true, 800), Block(2080, false, 1024), Block(3120, false, 208), Block(3344, true, 736)]))
  {
    Move15Picked();
    Move15Carved();
    assert Align(204) == 224;
    MallocStep([Block(0, false, 1024), Block(1040, true, 1024), Block(2080, false, 1024), Block(3120, false, 208), Block(3344, true, 736)], 204, 0, 1,
      [Block(0, false, 1024), Block(1040, false, 208), Block(1264, true, 800), Block(2080, false, 1024), Block(3120, false, 208), Block(3344, true, 736)]);
  }

  /** my_malloc(204) as call 1 of SplitMovesHead (tests.c:231-237); also call 1 of
      CoalesceFreeAll (tests.c:300-311), call 1 of CoalesceFourOfFive (tests.c:313-328),
      call 1 of CoalesceThreeOfFive (tests.c:330-344), call 1 of WorstFitSkipsSmallBlock
      (tests.c:408-422), call 1 of WorstFitFillsMiddle (tests.c:424-453). */
  lemma Move16Picked()
    ensures FreeList([Block(0, true, 4080)]) == [Block(0, true, 4080)]
    ensures ArgMaxFirst([Block(0, true, 4080)]) == 0
    ensures FreeIndex([Block(0, true, 4080)], 0) == 0
  {
  }

  lemma Move16Carved()
    ensures [Block(0, true, 4080)][..0] + Carve(Block(0, true, 4080), 224) + [Block(0, true, 4080)][1..] == [Block(0, false, 208), Block(224, true, 3856)]
  {
  }

  lemma Move16()
    ensures Play(FRESH, Then(MallocCall(204), Done)) ==
            Step(MallocDone(Allocated(16)), Stop([Block(0, false, 208), Block(224, true, 3856)]))
  {
    Move16Picked();
    Move16Carved();
    assert Align(204) == 224;
    MallocStep([Block(0, true, 4080)], 204, 0, 0,
      [Block(0, false, 208), Block(224, true, 3856)]);
  }

  /** my_malloc(2048) as call 1 of SplitAfterHalfHeap (tests.c:243-253); also call 1 of
      SplitFreedHalf (tests.c:254-256), call 1 of SplitAfterFreedHalf (tests.c:257-264),
      call 1 of SplitReuseWhole (tests.c:276-288). */
  lemma Move17Picked()
    ensures FreeList([Block(0, true, 4080)]) == [Block(0, true, 4080)]
    ensures ArgMaxFirst([Block(0, true, 4080)]) == 0
    ensures FreeIndex([Block(0, true, 4080)], 0) == 0
  {
  }

  lemma Move17Carved()
    ensures [Block(0, true, 4080)][..0] + Carve(Block(0, true, 4080), 2064) + [Block(0, true, 4080)][1..] == [Block(0, false, 2048), Block(2064, true, 2016)]
  {
  }

  lemma Move17()
    ensures Play(FRESH, Then(MallocCall(2048), Done)) ==
            Step(MallocDone(Allocated(16)), Stop([Block(0, false, 2048), Block(2064, true, 2016)]))
  {
    Move17Picked();
    Move17Carved();
    assert Align(2048) == 2064;
    MallocStep([Block(0, true, 4080)], 2048, 0, 0,
      [Block(0, false, 2048), Block(2064, true, 2016)]);
  }

  /** my_malloc(204) as call 2 of SplitAfterHalfHeap (tests.c:243-253); also call 2 of
      SplitFreedHalf (tests.c:254-256), call 2 of SplitAfterFreedHalf (tests.c:257-264),
      call 2 of SplitReuseWhole (tests.c:276-288). */
  lemma Move18Picked()
    ensures FreeList([Block(0, false, 2048), Block(2064, true, 2016)]) == [Block(2064, true, 2016)]
    ensures ArgMaxFirst([Block(2064, true, 2016)]) == 0
    ensures FreeIndex([Block(0, false, 2048), Block(2064, true, 2016)], 0) == 1
  {
  }

  lemma Move18Carved()
    ensures [Block(0, false, 2048), Block(2064, true, 2016)][..1] + Carve(Block(2064, true, 2016), 224) + [Block(0, false, 2048), Block(2064, true, 2016)][2..] == [Block(0, false, 2048), Block(2064, false, 208), Block(2288, true, 1792)]
  {
  }

  lemma Move18()
    ensures Play([Block(0, false, 2048), Block(2064, true, 2016)], Then(MallocCall(204), Done)) ==
            Step(MallocDone(Allocated(2080)), Stop([Block(0, false, 2048), Block(2064, false, 208), Block(2288, true, 1792)]))
  {
    Move18Picked();
    Move18Carved();
    assert Align(204) == 224;
    MallocStep([Block(0, false, 2048), Block(2064, true, 2016)], 204, 0, 1,
      [Block(0, false, 2048), Block(2064, false, 208), Block(2288, true, 1792)]);
  }

  /** my_free(16) as call 3 of SplitFreedHalf (tests.c:254-256); also call 3 of
      SplitAfterFreedHalf (tests.c:257-264), call 3 of SplitReuseWhole
      (tests.c:276-288). */
  lemma Move19Found()
    ensures AllocAt([Block(0, false, 2048), Block(2064, false, 208), Block(2288, true, 1792)], 0) == Some(0)
    ensures FreeList([Block(0, false, 2048), Block(2064, false, 208), Block(2288, true, 1792)][1..]) != []
    ensures [Block(0, false, 2048), Block(2064, false, 208), Block(2288, true, 1792)][0 := Block(0, true, 2048)] == [Block(0, true, 2048), Block(2064, false, 208), Block(2288, true, 1792)]
  {
  }

  lemma Move19Merged()
    ensures MergeRuns([Block(0, true, 2048), Block(2064, false, 208), Block(2288, true, 1792)]) == [Block(0, true, 2048), Block(2064, false, 208), Block(2288, true, 1792)]
  {
  }

  lemma Move19()
    ensures Play([Block(0, false, 2048), Block(2064, false, 208), Block(2288, true, 1792)], Then(FreeCall(16), Done)) ==
            Step(FreeDone(Freed), Stop([Block(0, true, 2048), Block(2064, false, 208), Block(2288, true, 1792)]))
  {
    Move19Found();
    Move19Merged();
    FreeStep([Block(0, false, 2048), Block(2064, false, 208), Block(2288, true, 1792)], 16, 0,
      [Block(0, true, 2048), Block(2064, false, 208), Block(2288, true, 1792)],
      [Block(0, true, 2048), Block(2064, false, 208), Block(2288, true, 1792)]);
  }

  /** my_malloc(204) as call 4 of SplitAfterFreedHalf (tests.c:257-264). */
  lemma Move20Picked()
    ensures FreeList([Block(0, true, 2048), Block(2064, false, 208), Block(2288, true, 1792)]) == [Block(0, true, 2048), Block(2288, true, 1792)]
    ensures ArgMaxFirst([Block(0, true, 2048), Block(2288, true, 1792)]) == 0
    ensures FreeIndex([Block(0, true, 2048), Block(2064, false, 208), Block(2288, true, 1792)], 0) == 0
  {
  }

  lemma Move20Carved()
    ensures [Block(0, true, 2048), Block(2064, false, 208), Block(2288, true, 1792)][..0] + Carve(Block(0, true, 2048), 224) + [Block(0, true, 2048), Block(2064, false, 208), Block(2288, true, 1792)][1..] == [Block(0, false, 208), Block(224, true, 1824), Block(2064, false, 208), Block(2288, true, 1792)]
  {
  }

  lemma Move20()
    ensures Play([Block(0, true, 2048), Block(2064, false, 208), Block(2288, true, 1792)], Then(MallocCall(204), Done)) ==
            Step(MallocDone(Allocated(16)), Stop([Block(0, false, 208), Block(224, true, 1824), Block(2064, false, 208), Block(2288, true, 1792)]))
  {
    Move20Picked();
    Move20Carved();
    assert Align(204) == 224;
    MallocStep([Block(0, true, 2048), Block(2064, false, 208), Block(2288, true, 1792)], 204, 0, 0,
      [Block(0, false, 208), Block(224, true, 1824), Block(2064, false, 208), Block(2288, true, 1792)]);
  }

  /** my_malloc(4080) as call 1 of SplitMaximalChunk (tests.c:266-274); also call 3 of
      WholeChunkReused. */
  lemma Move21Picked()
    ensures FreeList([Block(0, true, 4080)]) == [Block(0, true, 4080)]
    ensures ArgMaxFirst([Block(0, true, 4080)]) == 0
    ensures FreeIndex([Block(0, true, 4080)], 0) == 0
  {
  }

  lemma Move21Carved()
    ensures [Block(0, true, 4080)][..0] + Carve(Block(0, true, 4080), 4096) + [Block(0, true, 4080)][1..] == [Block(0, false, 4080)]
  {
  }

  lemma Move21()
    ensures Play(FRESH, Then(MallocCall(4080), Done)) ==
            Step(MallocDone(Allocated(16)), Stop([Block(0, false, 4080)]))
  {
    Move21Picked();
    Move21Carved();
    assert Align(4080) == 4096;
    MallocStep([Block(0, true, 4080)], 4080, 0, 0,
      [Block(0, false, 4080)]);
  }

  /** my_malloc(2048) as call 4 of SplitReuseWhole (tests.c:276-288). */
  lemma Move22Picked()
    ensures FreeList([Block(0, true, 2048), Block(2064, false, 208), Block(2288, true, 1792)]) == [Block(0, true, 2048), Block(2288, true, 1792)]
    ensures ArgMaxFirst([Block(0, true, 2048), Block(2288, true, 1792)]) == 0
    ensures FreeIndex([Block(0, true, 2048), Block(2064, false, 208), Block(2288, true, 1792)], 0) == 0
  {
  }

  lemma Move22Carved()
    ensures [Block(0, true, 2048), Block(2064, false, 208), Block(2288, true, 1792)][..0] + Carve(Block(0, true, 2048), 2064) + [Block(0, true, 2048), Block(2064, false, 208), Block(2288, true, 1792)][1..] == [Block(0, false, 2048), Block(2064, false, 208), Block(2288, true, 1792)]
  {
  }

  lemma Move22()
    ensures Play([Block(0, true, 2048), Block(2064, false, 208), Block(2288, true, 1792)], Then(MallocCall(2048), Done)) ==
            Step(MallocDone(Allocated(16)), Stop([Block(0, false, 2048), Block(2064, false, 208), Block(2288, true, 1792)]))
  {
    Move22Picked();
    Move22Carved();
    assert Align(2048) == 2064;
    MallocStep([Block(0, true, 2048), Block(2064, false, 208), Block(2288, true, 1792)], 2048, 0, 0,
      [Block(0, false, 2048), Block(2064, false, 208), Block(2288, true, 1792)]);
  }

  /** my_malloc(204) as call 2 of CoalesceFreeAll (tests.c:300-311); also call 2 of
      CoalesceFourOfFive (tests.c:313-328), call 2 of CoalesceThreeOfFive
      (tests.c:330-344), call 2 of WorstFitSkipsSmallBlock (tests.c:408-422). */
  lemma Move23Picked()
    ensures FreeList([Block(0, false, 208), Block(224, true, 3856)]) == [Block(224, true, 3856)]
    ensures ArgMaxFirst([Block(224, true, 3856)]) == 0
    ensures FreeIndex([Block(0, false, 208), Block(224, true, 3856)], 0) == 1
  {
  }

  lemma Move23Carved()
    ensures [Block(0, false, 208), Block(224, true, 3856)][..1] + Carve(Block(224, true, 3856), 224) + [Block(0, false, 208), Block(224, true, 3856)][2..] == [Block(0, false, 208), Block(224, false, 208), Block(448, true, 3632)]
  {
  }

  lemma Move23()
    ensures Play([Block(0, false, 208), Block(224, true, 3856)], Then(MallocCall(204), Done)) ==
            Step(MallocDone(Allocated(240)), Stop([Block(0, false, 208), Block(224, false, 208), Block(448, true, 3632)]))
  {
    Move23Picked();
    Move23Carved();
    assert Align(204) == 224;
    MallocStep([Block(0, false, 208), Block(224, true, 3856)], 204, 0, 1,
      [Block(0, false, 208), Block(224, false, 208), Block(448, true, 3632)]);
  }

  /** my_malloc(204) as call 3 of CoalesceFreeAll (tests.c:300-311); also call 3 of
      CoalesceFourOfFive (tests.c:313-328), call 3 of CoalesceThreeOfFive
      (tests.c:330-344). */
  lemma Move24Picked()
    ensures FreeList([Block(0, false, 208), Block(224, false, 208), Block(448, true, 3632)]) == [Block(448, true, 3632)]
    ensures ArgMaxFirst([Block(448, true, 3632)]) == 0
    ensures FreeIndex([Block(0, false, 208), Block(224, false, 208), Block(448, true, 3632)], 0) == 2
  {
  }

  lemma Move24Carved()
    ensures [Block(0, false, 208), Block(224, false, 208), Block(448, true, 3632)][..2] + Carve(Block(448, true, 3632), 224) + [Block(0, false, 208), Block(224, false, 208), Block(448, true, 3632)][3..] == [Block(0, false, 208), Block(224, false, 208), Block(448, false, 208), Block(672, true, 3408)]
  {
  }

  lemma Move24()
    ensures Play([Block(0, false, 208), Block(224, false, 208), Block(448, true, 3632)], Then(MallocCall(204), Done)) ==
            Step(MallocDone(Allocated(464)), Stop([Block(0, false, 208), Block(224, false, 208), Block(448, false, 208), Block(672, true, 3408)]))
  {
    Move24Picked();
    Move24Carved();
    assert Align(204) == 224;
    MallocStep([Block(0, false, 208), Block(224, false, 208), Block(448, true, 3632)], 204, 0, 2,
      [Block(0, false, 208), Block(224, false, 208), Block(448, false, 208), Block(672, true, 3408)]);
  }

  /** my_malloc(204) as call 4 of CoalesceFreeAll (tests.c:300-311); also call 4 of
      CoalesceFourOfFive (tests.c:313-328), call 4 of CoalesceThreeOfFive
      (tests.c:330-344). */
  lemma Move25Picked()
    ensures FreeList([Block(0, false, 208), Block(224, false, 208), Block(448, false, 208), Block(672, true, 3408)]) == [Block(672, true, 3408)]
    ensures ArgMaxFirst([Block(672, true, 3408)]) == 0
    ensures FreeIndex([Block(0, false, 208), Block(224, false, 208), Block(448, false, 208), Block(672, true, 3408)], 0) == 3
  {
  }

  lemma Move25Carved()
    ensures [Block(0, false, 208), Block(224, false, 208), Block(448, false, 208), Block(672, true, 3408)][..3] + Carve(Block(672, true, 3408), 224) + [Block(0, false, 208), Block(224, false, 208), Block(448, false, 208), Block(672, true, 3408)][4..] == [Block(0, false, 208), Block(224, false, 208), Block(448, false, 208), Block(672, false, 208), Block(896, true, 3184)]
  {
  }

  lemma Move25()
    ensures Play([Block(0, false, 208), Block(224, false, 208), Block(448, false, 208), Block(672, true, 3408)], Then(MallocCall(204), Done)) ==
            Step(MallocDone(Allocated(688)), Stop([Block(0, false, 208), Block(224, false, 208), Block(448, false, 208), Block(672, false, 208), Block(896, true, 3184)]))
  {
    Move25Picked();
    Move25Carved();
    assert Align(204) == 224;
    MallocStep([Block(0, false, 208), Block(224, false, 208), Block(448, false, 208), Block(672, true, 3408)], 204, 0, 3,
      [Block(0, false, 208), Block(224, false, 208), Block(448, false, 208), Block(672, false, 208), Block(896, true, 3184)]);
  }

  /** my_malloc(204) as call 5 of CoalesceFreeAll (tests.c:300-311); also call 5 of
      CoalesceFourOfFive (tests.c:313-328), call 5 of CoalesceThreeOfFive
      (tests.c:330-344). */
  lemma Move26Picked()
    ensures FreeList([Block(0, false, 208), Block(224, false, 208), Block(448, false, 208), Block(672, false, 208), Block(896, true, 3184)]) == [Block(896, true, 3184)]
    ensures ArgMaxFirst([Block(896, true, 3184)]) == 0
    ensures FreeIndex([Block(0, false, 208), Block(224, false, 208), Block(448, false, 208), Block(672, false, 208), Block(896, true, 3184)], 0) == 4
  {
  }

  lemma Move26Carved()
    ensures [Block(0, false, 208), Block(224, false, 208), Block(448, false, 208), Block(672, false, 208), Block(896, true, 3184)][..4] + Carve(Block(896, true, 3184), 224) + [Block(0, false, 208), Block(224, false, 208), Block(448, false, 208), Block(672, false, 208), Block(896, true, 3184)][5..] == [Block(0, false, 208), Block(224, false, 208), Block(448, false, 208), Block(672, false, 208), Block(896, false, 208), Block(1120, true, 2960)]
  {
  }

  lemma Move26()
    ensures Play([Block(0, false, 208), Block(224, false, 208), Block(448, false, 208), Block(672, false, 208), Block(896, true, 3184)], Then(MallocCall(204), Done)) ==
            Step(MallocDone(Allocated(912)), Stop([Block(0, false, 208), Block(224, false, 208), Block(448, false, 208), Block(672, false, 208), Block(896, false, 208), Block(1120, true, 2960)]))
  {
    Move26Picked();
    Move26Carved();
    assert Align(204) == 224;
    MallocStep([Block(0, false, 208), Block(224, false, 208), Block(448, false, 208), Block(672, false, 208), Block(896, true, 3184)], 204, 0, 4,
      [Block(0, false, 208), Block(224, false, 208), Block(448, false, 208), Block(672, false, 208), Block(896, false, 208), Block(1120, true, 2960)]);
  }

  /** my_free(16) as call 6 of CoalesceFourOfFive (tests.c:313-328); also call 6 of
      CoalesceThreeOfFive (tests.c:330-344). */
  lemma Move27Found()
    ensures AllocAt([Block(0, false, 208), Block(224, false, 208), Block(448, false, 208), Block(672, false, 208), Block(896, false, 208), Block(1120, true, 2960)], 0) == Some(0)
    ensures FreeList([Block(0, false, 208), Block(224, false, 208), Block(448, false, 208), Block(672, false, 208), Block(896, false, 208), Block(1120, true, 2960)][1..]) != []
    ensures [Block(0, false, 208), Block(224, false, 208), Block(448, false, 208), Block(672, false, 208), Block(896, false, 208), Block(1120, true, 2960)][0 := Block(0, true, 208)] == [Block(0, true, 208), Block(224, false, 208), Block(448, false, 208), Block(672, false, 208), Block(896, false, 208), Block(1120, true, 2960)]
  {
  }

  lemma Move27Merged()
    ensures MergeRuns([Block(0, true, 208), Block(224, false, 208), Block(448, false, 208), Block(672, false, 208), Block(896, false, 208), Block(1120, true, 2960)]) == [Block(0, true, 208), Block(224, false, 208), Block(448, false, 208), Block(672, false, 208), Block(896, false, 208), Block(1120, true, 2960)]
  {
  }

  lemma Move27()
    ensures Play([Block(0, false, 208), Block(224, false, 208), Block(448, false, 208), Block(672, false, 208), Block(896, false, 208), Block(1120, true, 2960)], Then(FreeCall(16), Done)) ==
            Step(FreeDone(Freed), Stop([Block(0, true, 208), Block(224, false, 208), Block(448, false, 208), Block(672, false, 208), Block(896, false, 208), Block(1120, true, 2960)]))
  {
    Move27Found();
    Move27Merged();
    FreeStep([Block(0, false, 208), Block(224, false, 208), Block(448, false, 208), Block(672, false, 208), Block(896, false, 208), Block(1120, true, 2960)], 16, 0,
      [Block(0, true, 208), Block(224, false, 208), Block(448, false, 208), Block(672, false, 208), Block(896, false, 208), Block(1120, true, 2960)],
      [Block(0, true, 208), Block(224, false, 208), Block(448, false, 208), Block(672, false, 208), Block(896, false, 208), Block(1120, true, 2960)]);
  }

  /** my_free(240) as call 7 of CoalesceFourOfFive (tests.c:313-328). */
  lemma Move28Found()
    ensures AllocAt([Block(0, true, 208), Block(224, false, 208), Block(448, false, 208), Block(672, false, 208), Block(896, false, 208), Block(1120, true, 2960)], 224) == Some(1)
    ensures FreeList([Block(0, true, 208), Block(224, false, 208), Block(448, false, 208), Block(672, false, 208), Block(896, false, 208), Block(1120, true, 2960)][2..]) != []
    ensures [Block(0, true, 208), Block(224, false, 208), Block(448, false, 208), Block(672, false, 208), Block(896, false, 208), Block(1120, true, 2960)][1 := Block(224, true, 208)] == [Block(0, true, 208), Block(224, true, 208), Block(448, false, 208), Block(672, false, 208), Block(896, false, 208), Block(1120, true, 2960)]
  {
  }

  lemma Move28Merged()
    ensures MergeRuns([Block(0, true, 208), Block(224, true, 208), Block(448, false, 208), Block(672, false, 208), Block(896, false, 208), Block(1120, true, 2960)]) == [Block(0, true, 432), Block(448, false, 208), Block(672, false, 208), Block(896, false, 208), Block(1120, true, 2960)]
  {
  }

  lemma Move28()
    ensures Play([Block(0, true, 208), Block(224, false, 208), Block(448, false, 208), Block(672, false, 208), Block(896, false, 208), Block(1120, true, 2960)], Then(FreeCall(240), Done)) ==
            Step(FreeDone(Freed), Stop([Block(0, true, 432), Block(448, false, 208), Block(672, false, 208), Block(896, false, 208), Block(1120, true, 2960)]))
  {
    Move28Found();
    Move28Merged();
    FreeStep([Block(0, true, 208), Block(224, false, 208), Block(448, false, 208), Block(672, false, 208), Block(896, false, 208), Block(1120, true, 2960)], 240, 1,
      [Block(0, true, 208), Block(224, true, 208), Block(448, false, 208), Block(672, false, 208), Block(896, false, 208), Block(1120, true, 2960)],
      [Block(0, true, 432), Block(448, false, 208), Block(672, false, 208), Block(896, false, 208), Block(1120, true, 2960)]);
  }

  /** my_free(688) as call 8 of CoalesceFourOfFive (tests.c:313-328). */
  lemma Move29Found()
    ensures AllocAt([Block(0, true, 432), Block(448, false, 208), Block(672, false, 208), Block(896, false, 208), Block(1120, true, 2960)], 672) == Some(2)
    ensures FreeList([Block(0, true, 432), Block(448, false, 208), Block(672, false, 208), Block(896, false, 208), Block(1120, true, 2960)][3..]) != []
    ensures [Block(0, true, 432), Block(448, false, 208), Block(672, false, 208), Block(896, false, 208), Block(1120, true, 2960)][2 := Block(672, true, 208)] == [Block(0, true, 432), Block(448, false, 208), Block(672, true, 208), Block(896, false, 208), Block(1120, true, 2960)]
  {
  }

  lemma Move29Merged()
    ensures MergeRuns([Block(0, true, 432), Block(448, false, 208), Block(672, true, 208), Block(896, false, 208), Block(1120, true, 2960)]) == [Block(0, true, 432), Block(448, false, 208), Block(672, true, 208), Block(896, false, 208), Block(1120, true, 2960)]
  {
  }

  lemma Move29()
    ensures Play([Block(0, true, 432), Block(448, false, 208), Block(672, false, 208), Block(896, false, 208), Block(1120, true, 2960)], Then(FreeCall(688), Done)) ==
            Step(FreeDone(Freed), Stop([Block(0, true, 432), Block(448, false, 208), Block(672, true, 208), Block(896, false, 208), Block(1120, true, 2960)]))
  {
    Move29Found();
    Move29Merged();
    FreeStep([Block(0, true, 432), Block(448, false, 208), Block(672, false, 208), Block(896, false, 208), Block(1120, true, 2960)], 688, 2,
      [Block(0, true, 432), Block(448, false, 208), Block(672, true, 208), Block(896, false, 208), Block(1120, true, 2960)],
      [Block(0, true, 432), Block(448, false, 208), Block(672, true, 208), Block(896, false, 208), Block(1120, true, 2960)]);
  }

  /** my_free(912) as call 9 of CoalesceFourOfFive (tests.c:313-328). */
  lemma Move30Found()
    ensures AllocAt([Block(0, true, 432), Block(448, false, 208), Block(672, true, 208), Block(896, false, 208), Block(1120, true, 2960)], 896) == Some(3)
    ensures FreeList([Block(0, true, 432), Block(448, false, 208), Block(672, true, 208), Block(896, false, 208), Block(1120, true, 2960)][4..]) != []
    ensures [Block(0, true, 432), Block(448, false, 208), Block(672, true, 208), Block(896, false, 208), Block(1120, true, 2960)][3 := Block(896, true, 208)] == [Block(0, true, 432), Block(448, false, 208), Block(672, true, 208), Block(896, true, 208), Block(1120, true, 2960)]
  {
  }

  lemma Move30Merged()
    ensures MergeRuns([Block(0, true, 432), Block(448, false, 208), Block(672, true, 208), Block(896, true, 208), Block(1120, true, 2960)]) == [Block(0, true, 432), Block(448, false, 208), Block(672, true, 3408)]
  {
  }

  lemma Move30()
    ensures Play([Block(0, true, 432), Block(448, false, 208), Block(672, true, 208), Block(896, false, 208), Block(1120, true, 2960)], Then(FreeCall(912), Done)) ==
            Step(FreeDone(Freed), Stop([Block(0, true, 432), Block(448, false, 208), Block(672, true, 3408)]))
  {
    Move30Found();
    Move30Merged();
    FreeStep([Block(0, true, 432), Block(448, false, 208), Block(672, true, 208), Block(896, false, 208), Block(1120, true, 2960)], 912, 3,
      [Block(0, true, 432), Block(448, false, 208), Block(672, true, 208), Block(896, true, 208), Block(1120, true, 2960)],
      [Block(0, true, 432), Block(448, false, 208), Block(672, true, 3408)]);
  }

  /** my_free(464) as call 7 of CoalesceThreeOfFive (tests.c:330-344). */
  lemma Move31Found()
    ensures AllocAt([Block(0, true, 208), Block(224, false, 208), Block(448, false, 208), Block(672, false, 208), Block(896, false, 208), Block(1120, true, 2960)], 448) == Some(2)
    ensures FreeList([Block(0, true, 208), Block(224, false, 208), Block(448, false, 208), Block(672, false, 208), Block(896, false, 208), Block(1120, true, 2960)][3..]) != []
    ensures [Block(0, true, 208), Block(224, false, 208), Block(448, false, 208), Block(672, false, 208), Block(896, false, 208), Block(1120, true, 2960)][2 := Block(448, true, 208)] == [Block(0, true, 208), Block(224, false, 208), Block(448, true, 208), Block(672, false, 208), Block(896, false, 208), Block(1120, true, 2960)]
  {
  }

  lemma Move31Merged()
    ensures MergeRuns([Block(0, true, 208), Block(224, false, 208), Block(448, true, 208), Block(672, false, 208), Block(896, false, 208), Block(1120, true, 2960)]) == [Block(0, true, 208), Block(224, false, 208), Block(448, true, 208), Block(672, false, 208), Block(896, false, 208), Block(1120, true, 2960)]
  {
  }

  lemma Move31()
    ensures Play([Block(0, true, 208), Block(224, false, 208), Block(448, false, 208), Block(672, false, 208), Block(896, false, 208), Block(1120, true, 2960)], Then(FreeCall(464), Done)) ==
            Step(FreeDone(Freed), Stop([Block(0, true, 208), Block(224, false, 208), Block(448, true, 208), Block(672, false, 208), Block(896, false, 208), Block(1120, true, 2960)]))
  {
    Move31Found();
    Move31Merged();
    FreeStep([Block(0, true, 208), Block(224, false, 208), Block(448, false, 208), Block(672, false, 208), Block(896, false, 208), Block(1120, true, 2960)], 464, 2,
      [Block(0, true, 208), Block(224, false, 208), Block(448, true, 208), Block(672, false, 208), Block(896, false, 208), Block(1120, true, 2960)],
      [Block(0, true, 208), Block(224, false, 208), Block(448, true, 208), Block(672, false, 208), Block(896, false, 208), Block(1120, true, 2960)]);
  }

  /** my_free(688) as call 8 of CoalesceThreeOfFive (tests.c:330-344). */
  lemma Move32Found()
    ensures AllocAt([Block(0, true, 208), Block(224, false, 208), Block(448, true, 208), Block(672, false, 208), Block(896, false, 208), Block(1120, true, 2960)], 672) == Some(3)
    ensures FreeList([Block(0, true, 208), Block(224, false, 208), Block(448, true, 208), Block(672, false, 208), Block(896, false, 208), Block(1120, true, 2960)][4..]) != []
    ensures [Block(0, true, 208), Block(224, false, 208), Block(448, true, 208), Block(672, false, 208), Block(896, false, 208), Block(1120, true, 2960)][3 := Block(672, true, 208)] == [Block(0, true, 208), Block(224, false, 208), Block(448, true, 208), Block(672, true, 208), Block(896, false, 208), Block(1120, true, 2960)]
  {
  }

  lemma Move32Merged()
    ensures MergeRuns([Block(0, true, 208), Block(224, false, 208), Block(448, true, 208), Block(672, true, 208), Block(896, false, 208), Block(1120, true, 2960)]) == [Block(0, true, 208), Block(224, false, 208), Block(448, true, 432), Block(896, false, 208), Block(1120, true, 2960)]
  {
  }

  lemma Move32()
    ensures Play([Block(0, true, 208), Block(224, false, 208), Block(448, true, 208), Block(672, false, 208), Block(896, false, 208), Block(1120, true, 2960)], Then(FreeCall(688), Done)) ==
            Step(FreeDone(Freed), Stop([Block(0, true, 208), Block(224, false, 208), Block(448, true, 432), Block(896, false, 208), Block(1120, true, 2960)]))
  {
    Move32Found();
    Move32Merged();
    FreeStep([Block(0, true, 208), Block(224, false, 208), Block(448, true, 208), Block(672, false, 208), Block(896, false, 208), Block(1120, true, 2960)], 688, 3,
      [Block(0, true, 208), Block(224, false, 208), Block(448, true, 208), Block(672, true, 208), Block(896, false, 208), Block(1120, true, 2960)],
      [Block(0, true, 208), Block(224, false, 208), Block(448, true, 432), Block(896, false, 208), Block(1120, true, 2960)]);
  }

  /** my_free(16) as call 3 of WorstFitSkipsSmallBlock (tests.c:408-422). */
  lemma Move33Found()
    ensures AllocAt([Block(0, false, 208), Block(224, false, 208), Block(448, true, 3632)], 0) == Some(0)
    ensures FreeList([Block(0, false, 208), Block(224, false, 208), Block(448, true, 3632)][1..]) != []
    ensures [Block(0, false, 208), Block(224, false, 208), Block(448, true, 3632)][0 := Block(0, true, 208)] == [Block(0, true, 208), Block(224, false, 208), Block(448, true, 3632)]
  {
  }

  lemma Move33Merged()
    ensures MergeRuns([Block(0, true, 208), Block(224, false, 208), Block(448, true, 3632)]) == [Block(0, true, 208), Block(224, false, 208), Block(448, true, 3632)]
  {
  }

  lemma Move33()
    ensures Play([Block(0, false, 208), Block(224, false, 208), Block(448, true, 3632)], Then(FreeCall(16), Done)) ==
            Step(FreeDone(Freed), Stop([Block(0, true, 208), Block(224, false, 208), Block(448, true, 3632)]))
  {
    Move33Found();
    Move33Merged();
    FreeStep([Block(0, false, 208), Block(224, false, 208), Block(448, true, 3632)], 16, 0,
      [Block(0, true, 208), Block(224, false, 208), Block(448, true, 3632)],
      [Block(0, true, 208), Block(224, false, 208), Block(448, true, 3632)]);
  }

  /** my_malloc(102) as call 4 of WorstFitSkipsSmallBlock (tests.c:408-422). */
  lemma Move34Picked()
    ensures FreeList([Block(0, true, 208), Block(224, false, 208), Block(448, true, 3632)]) == [Block(0, true, 208), Block(448, true, 3632)]
    ensures ArgMaxFirst([Block(0, true, 208), Block(448, true, 3632)]) == 1
    ensures FreeIndex([Block(0, true, 208), Block(224, false, 208), Block(448, true, 3632)], 1) == 2
  {
  }

  lemma Move34Carved()
    ensures [Block(0, true, 208), Block(224, false, 208), Block(448, true, 3632)][..2] + Carve(Block(448, true, 3632), 120) + [Block(0, true, 208), Block(224, false, 208), Block(448, true, 3632)][3..] == [Block(0, true, 208), Block(224, false, 208), Block(448, false, 104), Block(568, true, 3512)]
  {
  }

  lemma Move34()
    ensures Play([Block(0, true, 208), Block(224, false, 208), Block(448, true, 3632)], Then(MallocCall(102), Done)) ==
            Step(MallocDone(Allocated(464)), Stop([Block(0, true, 208), Block(224, false, 208), Block(448, false, 104), Block(568, true, 3512)]))
  {
    Move34Picked();
    Move34Carved();
    assert Align(102) == 120;
    MallocStep([Block(0, true, 208), Block(224, false, 208), Block(448, true, 3632)], 102, 1, 2,
      [Block(0, true, 208), Block(224, false, 208), Block(448, false, 104), Block(568, true, 3512)]);
  }

  /** my_malloc(2048) as call 2 of WorstFitFillsMiddle (tests.c:424-453). */
  lemma Move35Picked()
    ensures FreeList([Block(0, false, 208), Block(224, true, 3856)]) == [Block(224, true, 3856)]
    ensures ArgMaxFirst([Block(224, true, 3856)]) == 0
    ensures FreeIndex([Block(0, false, 208), Block(224, true, 3856)], 0) == 1
  {
  }

  lemma Move35Carved()
    ensures [Block(0, false, 208), Block(224, true, 3856)][..1] + Carve(Block(224, true, 3856), 2064) + [Block(0, false, 208), Block(224, true, 3856)][2..] == [Block(0, false, 208), Block(224, false, 2048), Block(2288, true, 1792)]
  {
  }

  lemma Move35()
    ensures Play([Block(0, false, 208), Block(224, true, 3856)], Then(MallocCall(2048), Done)) ==
            Step(MallocDone(Allocated(240)), Stop([Block(0, false, 208), Block(224, false, 2048), Block(2288, true, 1792)]))
  {
    Move35Picked();
    Move35Carved();
    assert Align(2048) == 2064;
    MallocStep([Block(0, false, 208), Block(224, true, 3856)], 2048, 0, 1,
      [Block(0, false, 208), Block(224, false, 2048), Block(2288, true, 1792)]);
  }

  /** my_malloc(204) as call 3 of WorstFitFillsMiddle (tests.c:424-453). */
  lemma Move36Picked()
    ensures FreeList([Block(0, false, 208), Block(224, false, 2048), Block(2288, true, 1792)]) == [Block(2288, true, 1792)]
    ensures ArgMaxFirst([Block(2288, true, 1792)]) == 0
    ensures FreeIndex([Block(0, false, 208), Block(224, false, 2048), Block(2288, true, 1792)], 0) == 2
  {
  }

  lemma Move36Carved()
    ensures [Block(0, false, 208), Block(224, false, 2048), Block(2288, true, 1792)][..2] + Carve(Block(2288, true, 1792), 224) + [Block(0, false, 208), Block(224, false, 2048), Block(2288, true, 1792)][3..] == [Block(0, false, 208), Block(224, false, 2048), Block(2288, false, 208), Block(2512, true, 1568)]
  {
  }

  lemma Move36()
    ensures Play([Block(0, false, 208), Block(224, false, 2048), Block(2288, true, 1792)], Then(MallocCall(204), Done)) ==
            Step(MallocDone(Allocated(2304)), Stop([Block(0, false, 208), Block(224, false, 2048), Block(2288, false, 208), Block(2512, true, 1568)]))
  {
    Move36Picked();
    Move36Carved();
    assert Align(204) == 224;
    MallocStep([Block(0, false, 208), Block(224, false, 2048), Block(2288, true, 1792)], 204, 0, 2,
      [Block(0, false, 208), Block(224, false, 2048), Block(2288, false, 208), Block(2512, true, 1568)]);
  }

  /** my_free(240) as call 4 of WorstFitFillsMiddle (tests.c:424-453). */
  lemma Move37Found()
    ensures AllocAt([Block(0, false, 208), Block(224, false, 2048), Block(2288, false, 208), Block(2512, true, 1568)], 224) == Some(1)
    ensures FreeList([Block(0, false, 208), Block(224, false, 2048), Block(2288, false, 208), Block(2512, true, 1568)][2..]) != []
    ensures [Block(0, false, 208), Block(224, false, 2048), Block(2288, false, 208), Block(2512, true, 1568)][1 := Block(224, true, 2048)] == [Block(0, false, 208), Block(224, true, 2048), Block(2288, false, 208), Block(2512, true, 1568)]
  {
  }

  lemma Move37Merged()
    ensures MergeRuns([Block(0, false, 208), Block(224, true, 2048), Block(2288, false, 208), Block(2512, true, 1568)]) == [Block(0, false, 208), Block(224, true, 2048), Block(2288, false, 208), Block(2512, true, 1568)]
  {
  }

  lemma Move37()
    ensures Play([Block(0, false, 208), Block(224, false, 2048), Block(2288, false, 208), Block(2512, true, 1568)], Then(FreeCall(240), Done)) ==
            Step(FreeDone(Freed), Stop([Block(0, false, 208), Block(224, true, 2048), Block(2288, false, 208), Block(2512, true, 1568)]))
  {
    Move37Found();
    Move37Merged();
    FreeStep([Block(0, false, 208), Block(224, false, 2048), Block(2288, false, 208), Block(2512, true, 1568)], 240, 1,
      [Block(0, false, 208), Block(224, true, 2048), Block(2288, false, 208), Block(2512, true, 1568)],
      [Block(0, false, 208), Block(224, true, 2048), Block(2288, false, 208), Block(2512, true, 1568)]);
  }

  /** my_malloc(204) as call 5 of WorstFitFillsMiddle (tests.c:424-453). */
  lemma Move38Picked()
    ensures FreeList([Block(0, false, 208), Block(224, true, 2048), Block(2288, false, 208), Block(2512, true, 1568)]) == [Block(224, true, 2048), Block(2512, true, 1568)]
    ensures ArgMaxFirst([Block(224, true, 2048), Block(2512, true, 1568)]) == 0
    ensures FreeIndex([Block(0, false, 208), Block(224, true, 2048), Block(2288, false, 208), Block(2512, true, 1568)], 0) == 1
  {
  }

  lemma Move38Carved()
    ensures [Block(0, false, 208), Block(224, true, 2048), Block(2288, false, 208), Block(2512, true, 1568)][..1] + Carve(Block(224, true, 2048), 224) + [Block(0, false, 208), Block(224, true, 2048), Block(2288, false, 208), Block(2512, true, 1568)][2..] == [Block(0, false, 208), Block(224, false, 208), Block(448, true, 1824), Block(2288, false, 208), Block(2512, true, 1568)]
  {
  }

  lemma Move38()
    ensures Play([Block(0, false, 208), Block(224, true, 2048), Block(2288, false, 208), Block(2512, true, 1568)], Then(MallocCall(204), Done)) ==
            Step(MallocDone(Allocated(240)), Stop([Block(0, false, 208), Block(224, false, 208), Block(448, true, 1824), Block(2288, false, 208), Block(2512, true, 1568)]))
  {
    Move38Picked();
    Move38Carved();
    assert Align(204) == 224;
    MallocStep([Block(0, false, 208), Block(224, true, 2048), Block(2288, false, 208), Block(2512, true, 1568)], 204, 0, 1,
      [Block(0, false, 208), Block(224, false, 208), Block(448, true, 1824), Block(2288, false, 208), Block(2512, true, 1568)]);
  }

  /** my_malloc(204) as call 6 of WorstFitFillsMiddle (tests.c:424-453). */
  lemma Move39Picked()
    ensures FreeList([Block(0, false, 208), Block(224, false, 208), Block(448, true, 1824), Block(2288, false, 208), Block(2512, true, 1568)]) == [Block(448, true, 1824), Block(2512, true, 1568)]
    ensures ArgMaxFirst([Block(448, true, 1824), Block(2512, true, 1568)]) == 0
    ensures FreeIndex([Block(0, false, 208), Block(224, false, 208), Block(448, true, 1824), Block(2288, false, 208), Block(2512, true, 1568)], 0) == 2
  {
  }

  lemma Move39Carved()
    ensures [Block(0, false, 208), Block(224, false, 208), Block(448, true, 1824), Block(2288, false, 208), Block(2512, true, 1568)][..2] + Carve(Block(448, true, 1824), 224) + [Block(0, false, 208), Block(224, false, 208), Block(448, true, 1824), Block(2288, false, 208), Block(2512, true, 1568)][3..] == [Block(0, false, 208), Block(224, false, 208), Block(448, false, 208), Block(672, true, 1600), Block(2288, false, 208), Block(2512, true, 1568)]
  {
  }

  lemma Move39()
    ensures Play([Block(0, false, 208), Block(224, false, 208), Block(448, true, 1824), Block(2288, false, 208), Block(2512, true, 1568)], Then(MallocCall(204), Done)) ==
            Step(MallocDone(Allocated(464)), Stop([Block(0, false, 208), Block(224, false, 208), Block(448, false, 208), Block(672, true, 1600), Block(2288, false, 208), Block(2512, true, 1568)]))
  {
    Move39Picked();
    Move39Carved();
    assert Align(204) == 224;
    MallocStep([Block(0, false, 208), Block(224, false, 208), Block(448, true, 1824), Block(2288, false, 208), Block(2512, true, 1568)], 204, 0, 2,
      [Block(0, false, 208), Block(224, false, 208), Block(448, false, 208), Block(672, true, 1600), Block(2288, false, 208), Block(2512, true, 1568)]);
  }

  /** my_malloc(204) as call 7 of WorstFitFillsMiddle (tests.c:424-453). */
  lemma Move40Picked()
    ensures FreeList([Block(0, false, 208), Block(224, false, 208), Block(448, false, 208), Block(672, true, 1600), Block(2288, false, 208), Block(2512, true, 1568)]) == [Block(672, true, 1600), Block(2512, true, 1568)]
    ensures ArgMaxFirst([Block(672, true, 1600), Block(2512, true, 1568)]) == 0
    ensures FreeIndex([Block(0, false, 208), Block(224, false, 208), Block(448, false, 208), Block(672, true, 1600), Block(2288, false, 208), Block(2512, true, 1568)], 0) == 3
  {
  }

  lemma Move40Carved()
    ensures [Block(0, false, 208), Block(224, false, 208), Block(448, false, 208), Block(672, true, 1600), Block(2288, false, 208), Block(2512, true, 1568)][..3] + Carve(Block(672, true, 1600), 224) + [Block(0, false, 208), Block(224, false, 208), Block(448, false, 208), Block(672, true, 1600), Block(2288, false, 208), Block(2512, true, 1568)][4..] == [Block(0, false, 208), Block(224, false, 208), Block(448, false, 208), Block(672, false, 208), Block(896, true, 1376), Block(2288, false, 208), Block(2512, true, 1568)]
  {
  }

  lemma Move40()
    ensures Play([Block(0, false, 208), Block(224, false, 208), Block(448, false, 208), Block(672, true, 1600), Block(2288, false, 208), Block(2512, true, 1568)], Then(MallocCall(204), Done)) ==
            Step(MallocDone(Allocated(688)), Stop([Block(0, false, 208), Block(224, false, 208), Block(448, false, 208), Block(672, false, 208), Block(896, true, 1376), Block(2288, false, 208), Block(2512, true, 1568)]))
  {
    Move40Picked();
    Move40Carved();
    assert Align(204) == 224;
    MallocStep([Block(0, false, 208), Block(224, false, 208), Block(448, false, 208), Block(672, true, 1600), Block(2288, false, 208), Block(2512, true, 1568)], 204, 0, 3,
      [Block(0, false, 208), Block(224, false, 208), Block(448, false, 208), Block(672, false, 208), Block(896, true, 1376), Block(2288, false, 208), Block(2512, true, 1568)]);
  }

  /** my_malloc(204) as call 8 of WorstFitFillsMiddle (tests.c:424-453). */
  lemma Move41Picked()
    ensures FreeList([Block(0, false, 208), Block(224, false, 208), Block(448, false, 208), Block(672, false, 208), Block(896, true, 1376), Block(2288, false, 208), Block(2512, true, 1568)]) == [Block(896, true, 1376), Block(2512, true, 1568)]
    ensures ArgMaxFirst([Block(896, true, 1376), Block(2512, true, 1568)]) == 1
    ensures FreeIndex([Block(0, false, 208), Block(224, false, 208), Block(448, false, 208), Block(672, false, 208), Block(896, true, 1376), Block(2288, false, 208), Block(2512, true, 1568)], 1) == 6
  {
  }

  lemma Move41Carved()
    ensures [Block(0, false, 208), Block(224, false, 208), Block(448, false, 208), Block(672, false, 208), Block(896, true, 1376), Block(2288, false, 208), Block(2512, true, 1568)][..6] + Carve(Block(2512, true, 1568), 224) + [Block(0, false, 208), Block(224, false, 208), Block(448, false, 208), Block(672, false, 208), Block(896, true, 1376), Block(2288, false, 208), Block(2512, true, 1568)][7..] == [Block(0, false, 208), Block(224, false, 208), Block(448, false, 208), Block(672, false, 208), Block(896, true, 1376), Block(2288, false, 208), Block(2512, false, 208), Block(2736, true, 1344)]
  {
  }

  lemma Move41()
    ensures Play([Block(0, false, 208), Block(224, false, 208), Block(448, false, 208), Block(672, false, 208), Block(896, true, 1376), Block(2288, false, 208), Block(2512, true, 1568)], Then(MallocCall(204), Done)) ==
            Step(MallocDone(Allocated(2528)), Stop([Block(0, false, 208), Block(224, false, 208), Block(448, false, 208), Block(672, false, 208), Block(896, true, 1376), Block(2288, false, 208), Block(2512, false, 208), Block(2736, true, 1344)]))
  {
    Move41Picked();
    Move41Carved();
    assert Align(204) == 224;
    MallocStep([Block(0, false, 208), Block(224, false, 208), Block(448, false, 208), Block(672, false, 208), Block(896, true, 1376), Block(2288, false, 208), Block(2512, true, 1568)], 204, 1, 6,
      [Block(0, false, 208), Block(224, false, 208), Block(448, false, 208), Block(672, false, 208), Block(896, true, 1376), Block(2288, false, 208), Block(2512, false, 208), Block(2736, true, 1344)]);
  }

  /** my_malloc(8192) as call 1 of BadSizeTwiceHeap (tests.c:465-470). */
  lemma Move42()
    ensures Play(FRESH, Then(MallocCall(8192), Done)) ==
            Step(MallocDone(Refused(SizeExceedsHeap)), Stop([Block(0, true, 4080)]))
  {
    assert ToSizeT(8192) == 8192;
    assert MallocSpec([Block(0, true, 4080)], 8192).0 == Refused(SizeExceedsHeap);
    assert MallocSpec([Block(0, true, 4080)], 8192).1 == [Block(0, true, 4080)];
  }

  /** my_malloc(1946) as call 1 of BadSizeNoRoom (tests.c:472-480). */
  lemma Move43Picked()
    ensures FreeList([Block(0, true, 4080)]) == [Block(0, true, 4080)]
    ensures ArgMaxFirst([Block(0, true, 4080)]) == 0
    ensures FreeIndex([Block(0, true, 4080)], 0) == 0
  {
  }

  lemma Move43Carved()
    ensures [Block(0, true, 4080)][..0] + Carve(Block(0, true, 4080), 1968) + [Block(0, true, 4080)][1..] == [Block(0, false, 1952), Block(1968, true, 2112)]
  {
  }

  lemma Move43()
    ensures Play(FRESH, Then(MallocCall(1946), Done)) ==
            Step(MallocDone(Allocated(16)), Stop([Block(0, false, 1952), Block(1968, true, 2112)]))
  {
    Move43Picked();
    Move43Carved();
    assert Align(1946) == 1968;
    MallocStep([Block(0, true, 4080)], 1946, 0, 0,
      [Block(0, false, 1952), Block(1968, true, 2112)]);
  }

  /** my_malloc(1946) as call 2 of BadSizeNoRoom (tests.c:472-480). */
  lemma Move44Picked()
    ensures FreeList([Block(0, false, 1952), Block(1968, true, 2112)]) == [Block(1968, true, 2112)]
    ensures ArgMaxFirst([Block(1968, true, 2112)]) == 0
    ensures FreeIndex([Block(0, false, 1952), Block(1968, true, 2112)], 0) == 1
  {
  }

  lemma Move44Carved()
    ensures [Block(0, false, 1952), Block(1968, true, 2112)][..1] + Carve(Block(1968, true, 2112), 1968) + [Block(0, false, 1952), Block(1968, true, 2112)][2..] == [Block(0, false, 1952), Block(1968, false, 1952), Block(3936, true, 144)]
  {
  }

  lemma Move44()
    ensures Play([Block(0, false, 1952), Block(1968, true, 2112)], Then(MallocCall(1946), Done)) ==
            Step(MallocDone(Allocated(1984)), Stop([Block(0, false, 1952), Block(1968, false, 1952), Block(3936, true, 144)]))
  {
    Move44Picked();
    Move44Carved();
    assert Align(1946) == 1968;
    MallocStep([Block(0, false, 1952), Block(1968, true, 2112)], 1946, 0, 1,
      [Block(0, false, 1952), Block(1968, false, 1952), Block(3936, true, 144)]);
  }

  /** my_malloc(204) as call 3 of BadSizeNoRoom (tests.c:472-480). */
  lemma Move45()
    ensures Play([Block(0, false, 1952), Block(1968, false, 1952), Block(3936, true, 144)], Then(MallocCall(204), Done)) ==
            Step(MallocDone(Refused(NoChunkBigEnough)), Stop([Block(0, false, 1952), Block(1968, false, 1952), Block(3936, true, 144)]))
  {
    assert ToSizeT(204) == 204;
    assert MallocSpec([Block(0, false, 1952), Block(1968, false, 1952), Block(3936, true, 144)], 204).0 == Refused(NoChunkBigEnough);
    assert MallocSpec([Block(0, false, 1952), Block(1968, false, 1952), Block(3936, true, 144)], 204).1 == [Block(0, false, 1952), Block(1968, false, 1952), Block(3936, true, 144)];
  }

  /** my_malloc(-1) as call 1 of BadSizeWrapped (tests.c:482-502). */
  lemma Move46()
    ensures Play(FRESH, Then(MallocCall(-1), Done)) ==
            Step(MallocDone(Refused(SizeExceedsHeap)), Stop([Block(0, true, 4080)]))
  {
    assert ToSizeT(-1) == 18446744073709551615;
    assert MallocSpec([Block(0, true, 4080)], 18446744073709551615).0 == Refused(SizeExceedsHeap);
    assert MallocSpec([Block(0, true, 4080)], 18446744073709551615).1 == [Block(0, true, 4080)];
  }

  /** my_malloc(9223372036854773760) as call 2 of BadSizeWrapped (tests.c:482-502). */
  lemma Move47()
    ensures Play(FRESH, Then(MallocCall(9223372036854773760), Done)) ==
            Step(MallocDone(Refused(SizeExceedsHeap)), Stop([Block(0, true, 4080)]))
  {
    assert ToSizeT(9223372036854773760) == 9223372036854773760;
    assert MallocSpec([Block(0, true, 4080)], 9223372036854773760).0 == Refused(SizeExceedsHeap);
    assert MallocSpec([Block(0, true, 4080)], 9223372036854773760).1 == [Block(0, true, 4080)];
  }

  /** my_malloc(0) as call 3 of BadSizeWrapped (tests.c:482-502). */
  lemma Move48()
    ensures Play(FRESH, Then(MallocCall(0), Done)) ==
            Step(MallocDone(Refused(ZeroSize)), Stop([Block(0, true, 4080)]))
  {
    assert ToSizeT(0) == 0;
    assert MallocSpec([Block(0, true, 4080)], 0).0 == Refused(ZeroSize);
    assert MallocSpec([Block(0, true, 4080)], 0).1 == [Block(0, true, 4080)];
  }

  /** my_malloc(4070) as call 1 of WholeChunkReused. */
  lemma Move49Picked()
    ensures FreeList([Block(0, true, 4080)]) == [Block(0, true, 4080)]
    ensures ArgMaxFirst([Block(0, true, 4080)]) == 0
    ensures FreeIndex([Block(0, true, 4080)], 0) == 0
  {
  }

  lemma Move49Carved()
    ensures [Block(0, true, 4080)][..0] + Carve(Block(0, true, 4080), 4088) + [Block(0, true, 4080)][1..] == [Block(0, false, 4080)]
  {
  }

  lemma Move49()
    ensures Play(FRESH, Then(MallocCall(4070), Done)) ==
            Step(MallocDone(Allocated(16)), Stop([Block(0, false, 4080)]))
  {
    Move49Picked();
    Move49Carved();
    assert Align(4070) == 4088;
    MallocStep([Block(0, true, 4080)], 4070, 0, 0,
      [Block(0, false, 4080)]);
  }

  /** my_free(16) as call 2 of WholeChunkReused. */
  lemma Move50Found()
    ensures AllocAt([Block(0, false, 4080)], 0) == Some(0)
    ensures FreeList([Block(0, false, 4080)]) == []
    ensures [Block(0, false, 4080)][0 := Block(0, true, 4080)] == [Block(0, true, 4080)]
  {
  }

  lemma Move50()
    ensures Play([Block(0, false, 4080)], Then(FreeCall(16), Done)) ==
            Step(FreeDone(Freed), Stop([Block(0, true, 4080)]))
  {
    Move50Found();
    FreeAloneStep([Block(0, false, 4080)], 16, 0,
      [Block(0, true, 4080)]);
  }

  /** my_malloc(8) as call 1 of LostNodeSetup; also call 1 of LostNodeSplit. */
  lemma Move51Picked()
    ensures FreeList([Block(0, true, 4080)]) == [Block(0, true, 4080)]
    ensures ArgMaxFirst([Block(0, true, 4080)]) == 0
    ensures FreeIndex([Block(0, true, 4080)], 0) == 0
  {
  }

  lemma Move51Carved()
    ensures [Block(0, true, 4080)][..0] + Carve(Block(0, true, 4080), 24) + [Block(0, true, 4080)][1..] == [Block(0, false, 8), Block(24, true, 4056)]
  {
  }

  lemma Move51()
    ensures Play(FRESH, Then(MallocCall(8), Done)) ==
            Step(MallocDone(Allocated(16)), Stop([Block(0, false, 8), Block(24, true, 4056)]))
  {
    Move51Picked();
    Move51Carved();
    assert Align(8) == 24;
    MallocStep([Block(0, true, 4080)], 8, 0, 0,
      [Block(0, false, 8), Block(24, true, 4056)]);
  }

  /** my_malloc(8) as call 2 of LostNodeSetup; also call 2 of LostNodeSplit. */
  lemma Move52Picked()
    ensures FreeList([Block(0, false, 8), Block(24, true, 4056)]) == [Block(24, true, 4056)]
    ensures ArgMaxFirst([Block(24, true, 4056)]) == 0
    ensures FreeIndex([Block(0, false, 8), Block(24, true, 4056)], 0) == 1
  {
  }

  lemma Move52Carved()
    ensures [Block(0, false, 8), Block(24, true, 4056)][..1] + Carve(Block(24, true, 4056), 24) + [Block(0, false, 8), Block(24, true, 4056)][2..] == [Block(0, false, 8), Block(24, false, 8), Block(48, true, 4032)]
  {
  }

  lemma Move52()
    ensures Play([Block(0, false, 8), Block(24, true, 4056)], Then(MallocCall(8), Done)) ==
            Step(MallocDone(Allocated(40)), Stop([Block(0, false, 8), Block(24, false, 8), Block(48, true, 4032)]))
  {
    Move52Picked();
    Move52Carved();
    assert Align(8) == 24;
    MallocStep([Block(0, false, 8), Block(24, true, 4056)], 8, 0, 1,
      [Block(0, false, 8), Block(24, false, 8), Block(48, true, 4032)]);
  }

  /** my_malloc(2000) as call 3 of LostNodeSetup; also call 3 of LostNodeSplit. */
  lemma Move53Picked()
    ensures FreeList([Block(0, false, 8), Block(24, false, 8), Block(48, true, 4032)]) == [Block(48, true, 4032)]
    ensures ArgMaxFirst([Block(48, true, 4032)]) == 0
    ensures FreeIndex([Block(0, false, 8), Block(24, false, 8), Block(48, true, 4032)], 0) == 2
  {
  }

  lemma Move53Carved()
    ensures [Block(0, false, 8), Block(24, false, 8), Block(48, true, 4032)][..2] + Carve(Block(48, true, 4032), 2016) + [Block(0, false, 8), Block(24, false, 8), Block(48, true, 4032)][3..] == [Block(0, false, 8), Block(24, false, 8), Block(48, false, 2000), Block(2064, true, 2016)]
  {
  }

  lemma Move53()
    ensures Play([Block(0, false, 8), Block(24, false, 8), Block(48, true, 4032)], Then(MallocCall(2000), Done)) ==
            Step(MallocDone(Allocated(64)), Stop([Block(0, false, 8), Block(24, false, 8), Block(48, false, 2000), Block(2064, true, 2016)]))
  {
    Move53Picked();
    Move53Carved();
    assert Align(2000) == 2016;
    MallocStep([Block(0, false, 8), Block(24, false, 8), Block(48, true, 4032)], 2000, 0, 2,
      [Block(0, false, 8), Block(24, false, 8), Block(48, false, 2000), Block(2064, true, 2016)]);
  }

  /** my_malloc(8) as call 4 of LostNodeSetup; also call 4 of LostNodeSplit. */
  lemma Move54Picked()
    ensures FreeList([Block(0, false, 8), Block(24, false, 8), Block(48, false, 2000), Block(2064, true, 2016)]) == [Block(2064, true, 2016)]
    ensures ArgMaxFirst([Block(2064, true, 2016)]) == 0
    ensures FreeIndex([Block(0, false, 8), Block(24, false, 8), Block(48, false, 2000), Block(2064, true, 2016)], 0) == 3
  {
  }

  lemma Move54Carved()
    ensures [Block(0, false, 8), Block(24, false, 8), Block(48, false, 2000), Block(2064, true, 2016)][..3] + Carve(Block(2064, true, 2016), 24) + [Block(0, false, 8), Block(24, false, 8), Block(48, false, 2000), Block(2064, true, 2016)][4..] == [Block(0, false, 8), Block(24, false, 8), Block(48, false, 2000), Block(2064, false, 8), Block(2088, true, 1992)]
  {
  }

  lemma Move54()
    ensures Play([Block(0, false, 8), Block(24, false, 8), Block(48, false, 2000), Block(2064, true, 2016)], Then(MallocCall(8), Done)) ==
            Step(MallocDone(Allocated(2080)), Stop([Block(0, false, 8), Block(24, false, 8), Block(48, false, 2000), Block(2064, false, 8), Block(2088, true, 1992)]))
  {
    Move54Picked();
    Move54Carved();
    assert Align(8) == 24;
    MallocStep([Block(0, false, 8), Block(24, false, 8), Block(48, false, 2000), Block(2064, true, 2016)], 8, 0, 3,
      [Block(0, false, 8), Block(24, false, 8), Block(48, false, 2000), Block(2064, false, 8), Block(2088, true, 1992)]);
  }

  /** my_free(16) as call 5 of LostNodeSetup; also call 5 of LostNodeSplit. */
  lemma Move55Found()
    ensures AllocAt([Block(0, false, 8), Block(24, false, 8), Block(48, false, 2000), Block(2064, false, 8), Block(2088, true, 1992)], 0) == Some(0)
    ensures FreeList([Block(0, false, 8), Block(24, false, 8), Block(48, false, 2000), Block(2064, false, 8), Block(2088, true, 1992)][1..]) != []
    ensures [Block(0, false, 8), Block(24, false, 8), Block(48, false, 2000), Block(2064, false, 8), Block(2088, true, 1992)][0 := Block(0, true, 8)] == [Block(0, true, 8), Block(24, false, 8), Block(48, false, 2000), Block(2064, false, 8), Block(2088, true, 1992)]
  {
  }

  lemma Move55Merged()
    ensures MergeRuns([Block(0, true, 8), Block(24, false, 8), Block(48, false, 2000), Block(2064, false, 8), Block(2088, true, 1992)]) == [Block(0, true, 8), Block(24, false, 8), Block(48, false, 2000), Block(2064, false, 8), Block(2088, true, 1992)]
  {
  }

  lemma Move55()
    ensures Play([Block(0, false, 8), Block(24, false, 8), Block(48, false, 2000), Block(2064, false, 8), Block(2088, true, 1992)], Then(FreeCall(16), Done)) ==
            Step(FreeDone(Freed), Stop([Block(0, true, 8), Block(24, false, 8), Block(48, false, 2000), Block(2064, false, 8), Block(2088, true, 1992)]))
  {
    Move55Found();
    Move55Merged();
    FreeStep([Block(0, false, 8), Block(24, false, 8), Block(48, false, 2000), Block(2064, false, 8), Block(2088, true, 1992)], 16, 0,
      [Block(0, true, 8), Block(24, false, 8), Block(48, false, 2000), Block(2064, false, 8), Block(2088, true, 1992)],
      [Block(0, true, 8), Block(24, false, 8), Block(48, false, 2000), Block(2064, false, 8), Block(2088, true, 1992)]);
  }

  /** my_free(64) as call 6 of LostNodeSetup; also call 6 of LostNodeSplit. */
  lemma Move56Found()
    ensures AllocAt([Block(0, true, 8), Block(24, false, 8), Block(48, false, 2000), Block(2064, false, 8), Block(2088, true, 1992)], 48) == Some(2)
    ensures FreeList([Block(0, true, 8), Block(24, false, 8), Block(48, false, 2000), Block(2064, false, 8), Block(2088, true, 1992)][3..]) != []
    ensures [Block(0, true, 8), Block(24, false, 8), Block(48, false, 2000), Block(2064, false, 8), Block(2088, true, 1992)][2 := Block(48, true, 2000)] == [Block(0, true, 8), Block(24, false, 8), Block(48, true, 2000), Block(2064, false, 8), Block(2088, true, 1992)]
  {
  }

  lemma Move56Merged()
    ensures MergeRuns([Block(0, true, 8), Block(24, false, 8), Block(48, true, 2000), Block(2064, false, 8), Block(2088, true, 1992)]) == [Block(0, true, 8), Block(24, false, 8), Block(48, true, 2000), Block(2064, false, 8), Block(2088, true, 1992)]
  {
  }

  lemma Move56()
    ensures Play([Block(0, true, 8), Block(24, false, 8), Block(48, false, 2000), Block(2064, false, 8), Block(2088, true, 1992)], Then(FreeCall(64), Done)) ==
            Step(FreeDone(Freed), Stop([Block(0, true, 8), Block(24, false, 8), Block(48, true, 2000), Block(2064, false, 8), Block(2088, true, 1992)]))
  {
    Move56Found();
    Move56Merged();
    FreeStep([Block(0, true, 8), Block(24, false, 8), Block(48, false, 2000), Block(2064, false, 8), Block(2088, true, 1992)], 64, 2,
      [Block(0, true, 8), Block(24, false, 8), Block(48, true, 2000), Block(2064, false, 8), Block(2088, true, 1992)],
      [Block(0, true, 8), Block(24, false, 8), Block(48, true, 2000), Block(2064, false, 8), Block(2088, true, 1992)]);
  }

  /** my_malloc(8) as call 7 of LostNodeSplit. */
  lemma Move57Picked()
    ensures FreeList([Block(0, true, 8), Block(24, false, 8), Block(48, true, 2000), Block(2064, false, 8), Block(2088, true, 1992)]) == [Block(0, true, 8), Block(48, true, 2000), Block(2088, true, 1992)]
    ensures ArgMaxFirst([Block(0, true, 8), Block(48, true, 2000), Block(2088, true, 1992)]) == 1
    ensures FreeIndex([Block(0, true, 8), Block(24, false, 8), Block(48, true, 2000), Block(2064, false, 8), Block(2088, true, 1992)], 1) == 2
  {
  }

  lemma Move57Carved()
    ensures [Block(0, true, 8), Block(24, false, 8), Block(48, true, 2000), Block(2064, false, 8), Block(2088, true, 1992)][..2] + Carve(Block(48, true, 2000), 24) + [Block(0, true, 8), Block(24, false, 8), Block(48, true, 2000), Block(2064, false, 8), Block(2088, true, 1992)][3..] == [Block(0, true, 8), Block(24, false, 8), Block(48, false, 8), Block(72, true, 1976), Block(2064, false, 8), Block(2088, true, 1992)]
  {
  }

  lemma Move57()
    ensures Play([Block(0, true, 8), Block(24, false, 8), Block(48, true, 2000), Block(2064, false, 8), Block(2088, true, 1992)], Then(MallocCall(8), Done)) ==
            Step(MallocDone(Allocated(64)), Stop([Block(0, true, 8), Block(24, false, 8), Block(48, false, 8), Block(72, true, 1976), Block(2064, false, 8), Block(2088, true, 1992)]))
  {
    Move57Picked();
    Move57Carved();
    assert Align(8) == 24;
    MallocStep([Block(0, true, 8), Block(24, false, 8), Block(48, true, 2000), Block(2064, false, 8), Block(2088, true, 1992)], 8, 1, 2,
      [Block(0, true, 8), Block(24, false, 8), Block(48, false, 8), Block(72, true, 1976), Block(2064, false, 8), Block(2088, true, 1992)]);
  }
}
