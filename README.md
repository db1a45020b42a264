# A verified model of a worst-fit heap allocator

This project models, in Dafny, a teaching allocator that manages a single
4096-byte arena.
- init_heap mmaps the arena and makes it one free node.
- my_malloc picks the largest free node (worst fit, the first of equal
  sizes). It hands out a block whose header carries a magic number, and
  splits off the rest of the node when there is room for another node.
- my_free checks the magic number and links the block into the free list,
  which it keeps in address order. It then coalesces adjacent free nodes.
- The interactive program's audit, scan_allocated_list and scan_free_list
  walk the arena and the list.
- The test helpers verify_sorted and verify_alternating check the free
  list, and free_all_chunks frees every allocated block.

The model works on two levels.

**The block view** (`BlockModel`) sees the arena as the blocks a walk from
offset 0 meets. Each block is an offset, a free flag and the size its
descriptor records.
- `MallocSpec` and `FreeSpec` are the two operations as functions on that
  sequence.
- Two invariants matter: the blocks tile the arena (`Tiled`), and no two
  free blocks are neighbours (`Coalesced`).
- The lemmas about these functions state what the allocator promises:
  - when and why my_malloc refuses;
  - that it picks the worst fit;
  - that both calls keep the invariants;
  - that my_free merges exactly the released block's free neighbours;
  - that freeing what my_malloc returned restores the arena, or crashes in
    the one case the source cannot handle;
  - that free bytes are conserved.

**The arena view** (`Arena`, `Allocator`) is the C code's own state.
- `mem` maps each offset to the descriptor written there, a free-list node
  or an allocated block's header. `head` is `start_of_free_list`.
- The class `Allocator.Heap` holds these fields. Its methods perform the
  source's loops and writes one by one: the worst-fit scan, the carve, the
  insertion scan, the link and the coalesce pass.
- Each method is proved against the block view. `Valid()` ties `(mem, head)`
  to a ghost block sequence:
  - the list from `head` is exactly the free blocks in address order;
  - every allocated block carries its header;
  - no stale magic header lies elsewhere.
  `Malloc` and `Free` end in the state `MallocSpec` and `FreeSpec` give.

The inspection and test code:
- `Inspect` models audit and the two scans as walks of the arena. They are
  proved to accept every valid heap, and to report exactly its blocks.
- `HeapTests` models verify_sorted, verify_alternating and free_all_chunks.
- `Replay` and `Scenarios` replay the calls of each test of tests.c from a
  fresh arena. For each test they state the outcome of every call and the
  fact the test asserts.

Pointers are byte offsets from the start of the arena, and NULL is `None`.
`size_t` arguments are reduced modulo 2^64, so a request of -1 becomes
2^64 - 1, as C converts it. The C code's failure modes become outcomes:
- the magic-number `assert` that aborts becomes `InvalidFreeAddress`;
- the NULL dereference becomes `NullDereference`.

The NULL dereference happens in my_free's insertion scan
(malloc_free.c:148-152). That scan follows the list until it finds a node
above the freed block. When no such node exists, the cursor becomes NULL,
and the loop, whose test `NULL < ptr` is true, reads through it.
`BlockModel.FreeCrash` and `BlockModel.MallocFreeCrash` say exactly when
this happens.

Two writes of my_malloc's carve break the allocator's own invariants. The
model uses corrected versions of both, and records the source's versions
under "Findings".

## Model

| member | source | states |
|---|---|---|
| HeapLayout.Align | malloc_free.c:7-11 | the footprint is a multiple of 8, and when the size_t sum does not wrap it is the least such multiple holding the request plus its 16-byte header |
| BlockModel.FreeList | malloc_free.c:13-32 | the free list is the free blocks in address order; it is no longer than the block sequence |
| BlockModel.FreeListApart | malloc_free.c:143-167 | on a contiguous arena the free nodes are in strictly increasing address order and do not overlap |
| BlockModel.FreeListEmpty | malloc_free.c:38-42 | the free list is empty exactly when no block is free |
| BlockModel.FreeIndex | malloc_free.c:62-73 | the k-th free node is a free block of the arena, at the index returned |
| BlockModel.MergeAdjacent | malloc_free.c:18-25 | one merge step removes one block and one free node, keeps the free bytes, and keeps the tiling; the merged block ends where its successor ended |
| BlockModel.MergeRuns | malloc_free.c:13-32 | coalescing leaves no two free neighbours, never adds blocks, and keeps the first block's offset and kind |
| BlockModel.MergeRunsIdentity | malloc_free.c:13-32 | coalescing an arena that has no free neighbours changes nothing |
| BlockModel.MergeRunsContiguous | malloc_free.c:13-32 | coalescing keeps the blocks contiguous and keeps where the last block ends |
| BlockModel.MergeRunsTiled | malloc_free.c:13-32 | coalescing keeps the arena tiled |
| BlockModel.MergeRunsFreeBytes | malloc_free.c:13-32 | coalescing keeps the total footprint of the free nodes |
| BlockModel.Release | malloc_free.c:132-139 | freeing turns the block into a free node that starts and ends where the block did |
| BlockModel.Released | malloc_free.c:128-171 | the node a release leaves is free and starts where its run starts |
| BlockModel.ReleasedSpan | malloc_free.c:128-171 | that node ends where the last block of its run ended |
| BlockModel.FreeMergesNeighbours | malloc_free.c:128-171 | on an arena with no free neighbours, coalescing after a release merges only the released block with its free neighbours |
| BlockModel.ReleaseMergedValid | malloc_free.c:128-171 | a release on a valid arena leaves it tiled and coalesced |
| BlockModel.ReleaseFreeList | malloc_free.c:143-167 | the released block joins the free list in its address position, between the nodes below and above it |
| BlockModel.ArgMaxFirst | malloc_free.c:62-73 | the index of the chosen node is within the list |
| BlockModel.ArgMaxFirstWorstFit | malloc_free.c:62-73 | the chosen node is a largest one, and every node before it is strictly smaller |
| BlockModel.Carve | malloc_free.c:85-120 | the carve is contiguous within the chosen node and starts with the allocated block; it splits off a free remainder exactly when the footprint leaves room for one, and the allocated block then has exactly the requested footprint |
| BlockModel.MallocRefusals | malloc_free.c:37-80 | my_malloc refuses in four cases, in the source's order: no free node; size above the heap; size 0; no node whose footprint holds the aligned request. A refusal leaves the arena unchanged |
| BlockModel.WorstFitFits | malloc_free.c:75-80 | a request fits the worst-fit node exactly when it fits some node |
| BlockModel.MallocWorstFit | malloc_free.c:60-124 | a successful my_malloc returns the payload of a worst-fit node |
| BlockModel.MallocFreeList | malloc_free.c:85-114 | the free list after my_malloc is the old one, with the chosen node replaced by the remainder, if any |
| BlockModel.MallocBlock | malloc_free.c:116-124 | the allocated block holds at least the request; after a split it wastes fewer than 8 bytes; the blocks before it are unchanged |
| BlockModel.MallocPreserves | malloc_free.c:35-125 | my_malloc keeps the arena tiled and coalesced |
| BlockModel.CarvePreserves | malloc_free.c:85-114 | carving a free block of a valid arena keeps it tiled and coalesced |
| BlockModel.CarveFreeCount | malloc_free.c:89-113 | a carve removes a free node exactly when it takes the whole node |
| BlockModel.CarveFreeAfter | malloc_free.c:89-113 | after a carve, no free node lies past the new block exactly when the whole last node was taken |
| BlockModel.AllocAt | malloc_free.c:130-131 | a found index is an allocated block whose header sits at the offset |
| BlockModel.AllocAtIndex | malloc_free.c:130-131 | no block is found exactly when no allocated block has its header at the offset |
| BlockModel.AllocAtUnique | malloc_free.c:130-131 | every allocated block is found at its own offset |
| BlockModel.FreeLocal | malloc_free.c:128-171 | a successful my_free had a valid address, and its result is the release merged with the free neighbours |
| BlockModel.FreePreserves | malloc_free.c:128-171 | my_free keeps the arena tiled and coalesced |
| BlockModel.FreeInvalid | malloc_free.c:130-131 | my_free refuses exactly the addresses that are not a payload of an allocated block |
| BlockModel.FreeCrash | malloc_free.c:144-152 | freeing a valid block dereferences NULL exactly when the free list is non-empty and has no node above the block |
| BlockModel.MallocedFound | malloc_free.c:122-131 | my_free finds the block my_malloc handed out, and the arena is still valid |
| BlockModel.CarveReleased | malloc_free.c:85-171 | releasing and coalescing a freshly carved block restores the arena before the carve |
| BlockModel.MallocReleased | malloc_free.c:35-171 | my_free finds the block my_malloc handed out, and releasing it restores the earlier arena |
| BlockModel.FreeUndoes | malloc_free.c:128-171 | a valid free whose release merges back to an earlier arena returns that arena, unless it crashes |
| BlockModel.MallocFreeRoundTrip | malloc_free.c:35-171 | my_free of what my_malloc returned is never refused, and when it succeeds the arena is the one before the my_malloc |
| BlockModel.MallocFreeCrash | malloc_free.c:89-152 | that round trip crashes exactly when my_malloc took the whole of the last free node, and that node was not the only one |
| BlockModel.MallocCrashShape | malloc_free.c:85-152 | where the allocated block sits after my_malloc, and when no free node lies above it |
| BlockModel.FreeReturnsBytes | malloc_free.c:128-171 | a successful my_free adds exactly the freed block's footprint to the free bytes |
| BlockModel.MallocTakesBytes | malloc_free.c:85-124 | a successful my_malloc removes exactly the allocated block's footprint from the free bytes |
| Arena.ListSplice | malloc_free.c:85-114 | replacing a run of list nodes by new ones, with the links around them rewritten, gives the spliced list |
| Arena.ListMerge | malloc_free.c:18-25 | rewriting a node to absorb its successor gives the list with the two merged |
| Arena.ListInsert | malloc_free.c:154-167 | linking a node in front of the c-th node gives the list with the node inserted there |
| Arena.NodeOfBlock | malloc_free.c:13-32 | on a well-formed arena, a free block's node records its size, and its next is the next free block |
| Arena.CursorIsNextFree | malloc_free.c:13-32 | a cursor that has walked the list up to block j is at the first free block at or after j |
| Arena.HeadIsCursor | malloc_free.h:27 | start_of_free_list is the first free block |
| Arena.CursorAdjacent | malloc_free.c:18 | the test `curr + sizeof(node_t) + curr->size == curr->next` holds exactly when the next block is free |
| Allocator.MergeStep | malloc_free.c:18-25 | one merge of coalesce keeps the arena well formed for the merged blocks |
| Allocator.CarveStep | malloc_free.c:85-120 | the carve's writes leave a well-formed arena for the carved blocks |
| Allocator.ScanStep | malloc_free.c:65-73 | one step of the worst-fit scan reads the node's size and next |
| Allocator.MallocSucceeds | malloc_free.c:85-124 | the memory and head the carve writes represent the blocks MallocSpec returns |
| Allocator.MagicCheck | malloc_free.c:130-131 | on a well-formed arena, the magic check passes exactly at the header of an allocated block |
| Allocator.InsertStep | malloc_free.c:143-167 | linking the released block into the list keeps the arena well formed |
| Allocator.InsertAlone | malloc_free.c:134-141 | a released block becomes the only node of an empty list, well formed |
| Allocator.Heap.constructor | malloc_free.c:173-184 | a fresh heap holds one free node spanning the arena, with the head at offset 0 |
| Allocator.Heap.InitHeap | malloc_free.c:173-184 | init_heap resets the arena to one free node spanning it |
| Allocator.Heap.MergeWithNext | malloc_free.c:20-24 | the node absorbs its adjacent successor; the arena stays well formed |
| Allocator.Heap.FindWorstFit | malloc_free.c:62-73 | the scan returns the first largest node and the node before it (the head itself when the head is chosen) |
| Allocator.Heap.Malloc | malloc_free.c:35-125 | my_malloc's result and new state are MallocSpec's; the heap stays valid |
| Allocator.Heap.CarveBest | malloc_free.c:82-124 | once the worst fit is large enough, the carve's result is MallocSpec's, and the heap stays valid |
| Allocator.Heap.CarveChunk | malloc_free.c:82-119 | memory and head become CarvedMemory and CarvedHead |
| Allocator.Heap.Free | malloc_free.c:128-171 | my_free's result and new state are FreeSpec's; the heap stays valid |
| Allocator.Heap.FindSlot | malloc_free.c:144-152 | the scan stops at the first node above the block, with the node before it; it runs off the list exactly when no free node lies above the block |
| Allocator.Heap.LinkFreed | malloc_free.c:154-167 | the released block is linked in address order, and the arena is well formed for the released blocks |
| Allocator.Heap.Coalesce | malloc_free.c:13-32 | coalesce leaves the blocks MergeRuns gives, and a well-formed arena |
| Allocator.CoalesceStart | malloc_free.c:15 | the loop starts at the first free block |
| Allocator.CoalesceAt | malloc_free.c:16-18 | at free block j the cursor is that block's node, and it is adjacent to its successor exactly when block j+1 is free |
| Allocator.CoalesceSkip | malloc_free.c:27-30 | a node not adjacent to its successor is passed, and the blocks in between are kept |
| Allocator.CoalesceDone | malloc_free.c:16 | when the cursor runs off the list, all blocks have been passed |
| Allocator.MergeRunsAt | malloc_free.c:18-25 | a merge at block j is the first step of coalescing the suffix from j |
| Inspect.WalkShape | main.c:52-98 | a walk that gets through any memory is a contiguous run past the end of the arena, and every block it took as allocated carries the magic number |
| Inspect.AuditSound | main.c:52-101 | a passing audit has seen a tiling of the arena |
| Inspect.AuditAccepts | main.c:52-101 | audit passes on every well-formed heap, and meets exactly its blocks |
| Inspect.Audit | main.c:52-101 | audit's loop computes the walk from offset 0 with the cursor at the head |
| Inspect.AllocatedBlocks | main.c:21-50 | the allocated blocks of a sequence are exactly its blocks that are not free |
| Inspect.ScanAllocatedList | main.c:21-50 | the scan fails its assertion exactly when the walk meets a bad header; otherwise it reports the walk's allocated blocks |
| Inspect.ScanFindsAllocated | main.c:21-50 | on a well-formed heap the scan reports exactly the allocated blocks, in address order |
| Inspect.ScanFreeList | main.c:8-19 | the scan reports exactly the free list |
| HeapTests.VerifySorted | tests.c:79-94 | verify_sorted returns true exactly when every node with a successor lies below it |
| HeapTests.VerifyAlternating | tests.c:97-112 | verify_alternating returns true exactly when no node ends where its successor starts |
| HeapTests.FreeListSorted | tests.c:79-94 | the free list of a contiguous arena is sorted |
| HeapTests.AlternatingIffCoalesced | tests.c:97-112 | verify_alternating holds exactly on arenas with no two free neighbours |
| HeapTests.ValidHeapPassesChecks | tests.c:79-112 | both checks pass on every valid heap |
| HeapTests.PayloadsAllFree | tests.c:36-70 | free_all_chunks collects no address exactly when every block is free |
| HeapTests.CollectChunks | tests.c:36-70 | the walk overflows the 10-entry table exactly when more than 10 blocks are allocated; otherwise it stores their payload addresses in address order |
| HeapTests.FreeAllChunks | tests.c:36-76 | free_all_chunks overflows, with the heap unchanged, exactly when more than 10 blocks are allocated; otherwise it calls my_free on every payload address in address order |
| HeapTests.FreeEachStep | tests.c:72-75 | the sweep frees the first address, then the rest |
| HeapTests.AllFree | tests.c:36-76 | a valid arena with no allocated block is the fresh arena |
| HeapTests.SweepStep | tests.c:72-75 | a free with a free node above it releases and merges, keeps the arena valid, and leaves fewer addresses to free |
| HeapTests.FreeAllClears | tests.c:36-76 | on a valid heap whose last block is free, or that is one block, every my_free of free_all_chunks succeeds and the arena is the fresh one again |
| HeapTests.FreeWhole | tests.c:36-76 | a block spanning the whole arena is freed into the fresh arena |
| HeapTests.FreeAllCrashes | tests.c:36-76 | on a heap of several blocks whose last block is allocated, the sweep reaches my_free's NULL dereference |
| Replay.ToSizeT | tests.c:482-502 | C's conversion to size_t is a value below 2^64 congruent to the argument |
| Replay.PlayPreserves | tests.c:118-505 | any sequence of calls from a valid arena keeps it tiled and coalesced |
| Replay.PlayConcat | tests.c:118-505 | replaying two call sequences one after the other is replaying their concatenation |
| Scenarios.TestSizes | tests.c:523-530 | CHUNK_SIZE is 204, which align turns into 224; the other sizes the tests request and their footprints |
| Scenarios.ReplayPassesChecks | tests.c:177-404 | after any calls from a fresh arena, verify_sorted and verify_alternating hold |
| Scenarios.ReuseAfterLargerChunk | tests.c:125-137 | each call's outcome and the final blocks: after a third of the heap and a larger chunk, freeing the first lets the next standard chunk be carved at the start of the heap (payload 16) |
| Scenarios.ReuseAfterTwoThirdsFreed | tests.c:139-153 | each call's outcome and the final blocks: freeing two thirds of the heap merges them, and the next standard chunk is carved at payload 16 |
| Scenarios.ReuseQuarterGapHead | tests.c:155-165 | each call's outcome and the final blocks: freeing the second of three quarter-heap chunks makes the free list's head the block at align(1024) = 1040 |
| Scenarios.ReuseQuarterGap | tests.c:166-170 | the next standard chunk is carved from that block, at payload 1056 |
| Scenarios.SplitMovesHead | tests.c:231-237 | one standard chunk moves the free list's head from 0 to align(204) = 224 |
| Scenarios.SplitAfterHalfHeap | tests.c:243-253 | half the heap and then a standard chunk move the head to 2064 + 224 = 2288 |
| Scenarios.SplitFreedHalf | tests.c:254-256 | freeing the half makes the head 0 |
| Scenarios.SplitAfterFreedHalf | tests.c:257-264 | a standard chunk carved from the freed half moves the head to 224 |
| Scenarios.SplitMaximalChunk | tests.c:266-274 | the largest request, 4080, takes the one free node whole and leaves the free list empty |
| Scenarios.SplitReuseWhole | tests.c:276-288 | a second half-heap request takes the freed half whole, which leaves one free node |
| Scenarios.CoalesceFreeAll | tests.c:300-311 | freeing five standard chunks leaves one free node spanning the arena; free_all_chunks on the result leaves the fresh arena |
| Scenarios.CoalesceFourOfFive | tests.c:313-328 | freeing the first two and the last two of five chunks leaves two free nodes; the last free merges with both neighbours |
| Scenarios.CoalesceThreeOfFive | tests.c:330-344 | freeing chunks 0, 2 and 3 of five leaves three free nodes |
| Scenarios.WorstFitSkipsSmallBlock | tests.c:408-422 | with the first of two chunks freed, a smaller request (102) goes to the larger node above the second chunk |
| Scenarios.WorstFitFillsMiddle | tests.c:424-453 | a free half-heap block in the middle takes the next three chunks (payloads 240, 464, 688), and the fourth goes past chunk 2 (payload 2528) |
| Scenarios.BadSizeTwiceHeap | tests.c:465-470 | a request of 2 * SIZE_OF_HEAP is refused as exceeding the heap |
| Scenarios.BadSizeNoRoom | tests.c:472-480 | two requests of 1946 leave a 144-byte node, and a standard chunk is refused for want of a node big enough |
| Scenarios.BadSizeWrapped | tests.c:482-502 | -1 and -SIZE_OF_HEAP / 2 reach my_malloc as size_t values above the heap size and are refused; 0 is refused as zero |
| Scenarios.WholeChunkReused | malloc_free.c:89-119 | with the header recording the whole node: my_malloc(4070) takes the fresh node whole, my_free returns it, and my_malloc(4080) then succeeds at payload 16 |
| Scenarios.LostNodeSetup | malloc_free.c:101-114 | each call's outcome, ending in the blocks Findings.LOST_BLOCKS: three free nodes, the largest at offset 48 below the head |
| Scenarios.LostNodeSplit | malloc_free.c:107-112 | with the corrected carve, the next my_malloc(8) splits the node at 48 and the free list keeps all three free blocks |
| Findings.CarveAsWritten | malloc_free.c:85-120 | the source's carve: the header records needed - 16; the blocks still end where the node ended exactly when the node is split or the request is its whole footprint |
| Findings.MallocAsWritten | malloc_free.c:35-125 | my_malloc with the source's carve: same result as MallocSpec; a refusal leaves the arena unchanged |
| Findings.WholeChunkLosesTail | malloc_free.c:89-119 | on a fresh arena, as written: my_malloc(4070) leaves an untiled arena; after the free, my_malloc(4080) is refused |
| Findings.CarvedMemoryAsWritten | malloc_free.c:101-119 | the source's writes differ from the corrected ones only in the non-head split and the whole-node header |
| Findings.LostFreeList | malloc_free.c:62-73 | the free list of LOST_BLOCKS, and the node worst fit picks from it |
| Findings.LostStateValid | malloc_free.c:128-171 | LOST_MEMORY with head 0 is a well-formed arena for LOST_BLOCKS |
| Findings.LostNodeAsWritten | malloc_free.c:107-112 | as written, the next my_malloc(8) leaves a list of two nodes while the arena has three free blocks |
| Findings.LostNodeKept | malloc_free.c:107-112 | with the corrected carve, the same call leaves a well-formed arena |

## Left out

- Printing: every `printf` of the allocator, of audit and of the scans. The scans are modelled by what they would print.
- mmap and the address arithmetic against `start`. The arena is always there, and pointers are offsets.
- Payload bytes. Memory is a map from a descriptor's offset to the descriptor. Byte-level aliasing between a header's `magic` and a node's `next` is not modelled: an offset holds whichever descriptor was written last there.
- Memory the program never wrote reads as a zero size, a NULL `next` and magic 0. In C it would be whatever the mmapped page holds, which is zero for a fresh anonymous mapping.
- The magic-number `assert`s. They abort the program; here they are outcomes (`InvalidFreeAddress`, `WalkResult.BadMagic`, `None`) that leave the state unchanged.
- The interactive shell of main.c: its commands, reading input, and display_commands. emphasis, success, passed and the test driver test_all only print.
- free_all_chunks writing past its 10-entry table (undefined behaviour in C): it is the outcome `TableOverflow`, which leaves the heap unchanged.
- The scenarios of test_sorted_free_list and test_alternating_sequence are not replayed call by call. Scenarios.ReplayPassesChecks proves their assertions for every sequence of calls.
- Scenarios are stated on MallocSpec and FreeSpec, the block view of the calls. Allocator.Heap.Malloc and Allocator.Heap.Free are proved to have exactly those effects on a valid heap.
- BlockModel.Carve, Allocator.HeaderSize, Allocator.CarvedMemory, Allocator.Heap.CarveChunk, and through them Allocator.Heap.Malloc: carry the corrected versions of the source's two carve writes, the whole-node header size and the `next` of a remainder split below the head. The source's versions are Findings.CarveAsWritten and Findings.CarvedMemoryAsWritten, and are logged under Findings.
- HeapTests.VerifySorted, HeapTests.VerifyAlternating: require the list from the head to be a finite list of nodes, the free list of some blocks or any other. The C loops also run on a cyclic list, where they do not terminate.
- HeapTests.CollectChunks, HeapTests.FreeAllChunks: CollectChunks requires a walk of the arena that gets through, and FreeAllChunks requires a valid heap. On a corrupted arena, free_all_chunks' magic assertion or a non-terminating walk is not modelled.
- Inspect.ScanFreeList: requires the list from the head to be the free list, instead of walking an arbitrary linked structure, which may not terminate.

## Findings

| source | as written | input that shows it | evidently intended | confidence | as-written member | corrected member |
|---|---|---|---|---|---|---|
| malloc_free.c:89-118 | When a node is taken whole (the aligned request exceeds its size by at most 16), the header records `needed_size - sizeof(header_t)`. A node up to 8 bytes larger than needed loses those bytes, and audit's walk no longer ends at the end of the arena. | A fresh heap; my_malloc(4070), my_free of the result, then my_malloc(4080). align(4070) = 4088, the header says 4072, the freed node is 4072, and 4080 is refused with nothing allocated. | The header records the whole node, `size + sizeof(node_t) - sizeof(header_t)`, so that the arena stays tiled and my_malloc(4080) succeeds. | not executed | Findings.WholeChunkLosesTail | Scenarios.WholeChunkReused, BlockModel.MallocPreserves |
| malloc_free.c:107-112 | When a node below the head is split, the remainder gets its size, and the node before it is linked to it, but the remainder's `next` is never written. It keeps whatever the payload bytes held there, here NULL, so every node after it falls off the list. | From a fresh heap: my_malloc 8, 8, 2000 and 8; my_free(16); my_free(64); then my_malloc(8). The worst fit is the node at 48, the second of the list. Its remainder at 72 ends the list, and the 1992-byte node at 2088 is lost. | The remainder takes the chosen node's `next` (`prev_next`), as the head case at line 98 does. | not executed | Findings.LostNodeAsWritten | Findings.LostNodeKept |
