# A Dafny model of vLLM with a unified KV and expert pool

This project models the parts of the repository that hold real state, arithmetic or program
transformation, and proves what they promise. `dafny verify dfyconfig.toml` checks all of it.

**The unified pool.** One buffer per attention layer is cut into pages. A page is a KV block;
F consecutive pages are a super-block, which can hold one expert's weights per layer instead.
`UnifiedPool.Manager` is the pool manager together with the parts of the block pool that call
into it, method by method. `PoolState.Inv` is the invariant that ties everything together: the
free queue against reference counts, the recency list against the queue and the hashes, the
prefix cache, the expert maps and device tables of every layer, the holders, mutual exclusion of
experts and KV, and the bytes themselves: a cached page holds the KV of its hash in every
buffer, and a mapped super-block holds its expert's weights. Buffers are sequences of pages;
KV contents per hash and expert weights are fixed by a configuration. The two central results are
`Manager.Run` (any run of forward passes and KV operations goes through sound states only, each
following from the one before by the step of its operation, choices of victims included, and
spares every live page it is not about) and `Manager.EnsureLoaded` (an exact condition for success when the pages divide evenly,
what the kernel may rely on afterwards, and what a failed load leaves). The value-level steps and
their lemmas are in `PoolState`, `PoolSteps`, `PoolFacts`, `PoolQueries`, `VacatePlan`, `VacateSteps`,
`ExpertRoom`, `ExpertLoad`, `LoadTrace`, `KvVictim`, `BlockOps`, `Freeing` and
`PoolOps`, and `PoolFrames` says of each step what it leaves alone and in which order; `PoolExamples` holds small
pools on which a promise fails. The recency list is also proved on the linked list itself
(`PrefixLru`), against the value functions in `Recency` that the manager uses, and so is the free
queue (`FreeQueue`).

**The build report** (`WeightedTime`, `NinjaReport`, `NinjaLog`): the event sweep that divides
every slice of time among the running tasks, in exact reals, and the reading of the log.

**Graph partition signatures** (`PartitionSignature`): the backward pass, against running the
partitions forward. Renaming may be any map whose real names are not renamed again.

**The sleep-mode allocator** (`ChunkPlan`, `CumemAllocator`, `CumemWorld`, `CumemSession`): the ROCm
branch against a driver in which an arbitrary function decides which calls fail and which addresses
are given out, first for one allocation and then for any interleaving over the table of records
that the Python side keeps.

**Smaller parts**: the collapsing module printer (`Text`, `IndexRanges`, `ModelInspection`), scalar types
(`Bits`, `ScalarTypes`), the bad-word processor (`BadWords`), stream merging (`StreamMerge`), flat logprobs
(`FlatLogprobs`), and data-parallel chunk sizes (`DpChunks`).

## Where the code differs from what it says

- Resetting the prefix cache clears the hashes but not the manager's recency list; the pool is
  sound afterwards exactly when nothing was cached (`BlockOps.ResetKeepsIff`, `ResetExample`).
- An allocation that runs out because of pins keeps the pages it had already taken
  (`Manager.GetNewBlocks`, `PoolExamples.PinnedPagesLost`): the pool is sound afterwards exactly when
  no page could be used. Between forward passes nothing is pinned and it cannot happen.
- When the pages do not divide evenly into super-blocks, the search for a super-block to vacate
  runs past the last page exactly when the best-ranked candidate is not whole
  (`Manager.CheapestKvSuperBlock`, `ExpertRoom.RaggedExample`); the outcome is modelled as an index error.
- A load that fails drops what it loaded but does not bring back the spare experts it evicted for
  earlier misses; after exhaustion only needed and pinned experts are left
  (`Manager.EnsureLoaded`, `PoolExamples.SpareExpertsLost`).
- The manager's text speaks of a per-layer timestamp bias and of scoring by the warmest page; the
  code stamps plain steps and scores by the oldest page unless configured otherwise. Both scores
  are modelled.
- `free_blocks` decrements everything before it queues anything. A block mentioned k >= 2 times is
  appended k times when it has k references, and not at all when it has fewer; freeing one after the
  other would append it once (`Freeing.PassesAreSequentialIff`, `FreePassesSoundIff`, `FreedTwice`). In the
  linked queue such a block is met once, whatever was appended between its mentions is not met at all,
  and the count is too high (`FreeQueue.Queue.AppendN`, `LinkedTwice`, `SkippedOver`).
- A pending allocator error makes every later allocation fail until a Python-level call clears it,
  and mapping with a pending error leaves a handle behind (`Driver.CreateAndMap`, `Driver.Malloc`). Freeing
  passes the requested size, not the aligned one, to the driver, which refuses it for any size that is
  not a multiple of the granularity (`Driver.Free`, `Driver.Lifecycle`, `UnalignedExample`).
- Waking an allocation that is awake raises and replaces its handles by dead ones; the old ones can
  then never be released (`Driver.Wake`, `WokenTwice`, `Session.WakeUp`). Sleeping twice raises
  (`Session.SleepAll`), and freeing a sleeping allocation leaves an error pending (`CumemSession.PendingIff`).
- The Python side keeps the record of an allocation that fails after its callback (`Session.Alloc`), and
  leaving a memory pool never gives its addresses back (`Session.Drop`).
- A buffer without storage can become a partition input through last usage
  (`PartitionSignature.NoneLayoutInputs`), and then the partitions cannot be run if it is defined by an
  earlier one (`ForwardRun`, `StoragelessRunFails`).
- Two modules with equal signatures can be different trees when a child name contains a colon, which
  torch allows (`ModelInspection.ColonsCollide`). Names without dots and colons are the condition of
  the lemmas about groups.
- The largest finite value is wrong for IEEE formats with one exponent bit, and, if the infinity's
  code counts as a value, for IEEE formats with finite values only, which only the raw constructor
  builds; it cannot be computed for formats without mantissa bits under the all-ones NaN
  (`ScalarTypes.MaxIsLargestIff`).
- Slicing flat logprobs backwards fails unless one position or only empty ones are selected
  (`FlatLogprobs.BackwardSliceIff`).
- A sampled token that is also among the top tokens ends up with its top rank; the comment that inserting
  it twice does no harm holds exactly when the two ranks agree (`FlatLogprobs.SampledRankIff`).
- The build report's comment speaks of half a second where the code compares with 500 seconds; the
  warning is not part of this model.

## Model

| member | source | states |
|---|---|---|
| `UnifiedPool.Manager.Run` | scripts/test_unified_pool_logic.py:801-880 | any sequence of forward passes and KV operations from a sound pool: every state on the way is sound and follows from the one before by exactly the step of its operation, with the outcome that step reports: an allocation takes page by page the one preferred at its turn, and a pass gives each miss the super-block preferred at its turn and evicts for it exactly what the tiers say; every live page that no operation of the run frees or writes is still live with the same bytes in every buffer |
| `UnifiedPool.Manager.Perform` | scripts/test_unified_pool_logic.py:815-871 | one operation: skipped exactly when its callers' duties are not met, refused exactly when the free pages are too few, and otherwise the step of the source, with the choices of allocation and eviction; a forward pass completes only if the super-blocks without live KV are at least as many as the needed experts and runs out only if they are fewer; the pool stays sound and every live page it is not about is spared |
| `UnifiedPool.Manager.ForwardPass` | vllm/vllm/model_executor/layers/fused_moe/layer.py:1614-1710 | load, release and tick: the state the kernel sees has every needed expert ready; afterwards the pins are gone and the step counter has moved exactly when the pass completed; the load is followed miss by miss |
| `UnifiedPool.Manager.EnsureLoaded` | vllm/vllm/model_executor/layers/fused_moe/unified_pool.py:997-1065 | on success every needed expert is resident, pinned, named by the device table, stamped with the current step, and its weights are in the buffer; when the pages divide evenly it succeeds exactly when the super-blocks without live KV are at least as many as the experts that are needed or were pinned; miss by miss the super-block preferred is taken, and the load ends with an index error exactly when it reaches a state in which the search is stuck, and else with exhaustion exactly when it reaches one in which every super-block is live or kept; after failure no expert is new, those needed or formerly pinned stay where they were, pins are cleared, and after exhaustion no other expert is left; other layers, reference counts, the queue and the bytes of live pages never change |
| `UnifiedPool.Manager.LoadMisses` | vllm/vllm/model_executor/layers/fused_moe/unified_pool.py:1039-1065 | the loop over the misses, with the same guarantees relative to the state before the call |
| `UnifiedPool.Manager.AbandonLoads` | vllm/vllm/model_executor/layers/fused_moe/unified_pool.py:1058-1065 | the roll-back leaves exactly the state with the experts claimed in this call dropped and the pins cleared, and it is sound |
| `ExpertLoad.TooLittleRoom` | vllm/vllm/model_executor/layers/fused_moe/unified_pool.py:1053-1065 | running out means that the super-blocks without live KV are fewer than the experts that are needed or were pinned |
| `ExpertLoad.OnlyKeptLeft` | vllm/vllm/model_executor/layers/fused_moe/unified_pool.py:1053-1065 | and that no expert but those is left in the layer |
| `PoolExamples.SpareExpertsLost` | vllm/vllm/model_executor/layers/fused_moe/unified_pool.py:1053-1065 | three misses with two super-blocks: the load runs out and the two spare experts evicted on the way are gone |
| `UnifiedPool.Manager.LoadMiss` | vllm/vllm/model_executor/layers/fused_moe/unified_pool.py:1045-1052 | assign, holder, pin and copy of the weights are the one step LoadExpert |
| `UnifiedPool.Manager.PinHit` | vllm/vllm/model_executor/layers/fused_moe/unified_pool.py:1028-1030 | a hit is pinned and becomes the most recent expert |
| `UnifiedPool.Manager.SelectSuperBlockForExpert` | vllm/vllm/model_executor/layers/fused_moe/unified_pool.py:1095-1167 | the super-block returned is vacant for this layer and chosen in order: the lowest shared with other layers only, else the lowest unused, else the colder of a spare expert and cached KV, of which exactly that expert is dropped or that KV vacated; live pages, other layers, pins and needed or pinned experts stay; running out means, and finding room excludes, that every super-block has a live page or one of this layer's needed or pinned experts; an index error occurs exactly when nothing is shared or unused and the best-ranked KV super-block is not whole |
| `UnifiedPool.Manager.SharedSuperBlock` | vllm/vllm/model_executor/layers/fused_moe/unified_pool.py:1120-1131 | the lowest super-block held by other layers only, if there is one |
| `UnifiedPool.Manager.FreeSuperBlock` | vllm/vllm/model_executor/layers/fused_moe/unified_pool.py:1148-1165 | the lowest super-block nobody holds whose pages are all free and unhashed, if there is one |
| `ExpertRoom.GuardSound` | vllm/vllm/model_executor/layers/fused_moe/unified_pool.py:1133-1146 | when free pages minus cached free pages are below F, no super-block is entirely free and unhashed: skipping the scan loses nothing |
| `ExpertRoom.IsCrowded` | vllm/vllm/model_executor/layers/fused_moe/unified_pool.py:1095-1228 | when no tier offers a super-block, every super-block has a live page or a needed or pinned expert |
| `ExpertRoom.NotCrowded` | vllm/vllm/model_executor/layers/fused_moe/unified_pool.py:1095-1228 | a chosen super-block had neither |
| `ExpertRoom.EvenNotRagged` | vllm/vllm/model_executor/layers/fused_moe/unified_pool.py:576-585 | when the pages divide evenly into super-blocks no search settles on one that is not whole |
| `ExpertRoom.RaggedExample` | vllm/vllm/model_executor/layers/fused_moe/unified_pool.py:576-585 | a sound pool of five pages and super-blocks of two in which the search fails although a super-block without live pages exists |
| `UnifiedPool.Manager.EvictForExpert` | vllm/vllm/model_executor/layers/fused_moe/unified_pool.py:1170-1228 | of this layer's coldest spare expert and the cheapest KV super-block the colder is given up, KV on ties; the state afterwards is the one with that expert dropped or that super-block vacated; running out means neither exists; an index error occurs exactly when the best-ranked KV super-block is not whole |
| `UnifiedPool.Manager.ColdestOwnExpert` | vllm/vllm/model_executor/layers/fused_moe/unified_pool.py:1177-1187 | the coldest expert of the layer that is neither needed nor pinned |
| `UnifiedPool.Manager.CheapestKvSuperBlock` | vllm/vllm/model_executor/layers/fused_moe/unified_pool.py:1231-1311 | the super-block with most of the n coldest cached pages, ties by its coldest page and then by which was seen first, among those not reserved, held, pinned or live; n is the smallest multiple of F (or the whole list) whose pages hold a candidate; no choice exactly when every cached page is in a super-block that is passed over; an index error exactly when the one it settles on is not whole |
| `PoolQueries.TopUnique` | vllm/vllm/model_executor/layers/fused_moe/unified_pool.py:1231-1311 | the super-block settled on is determined by the state |
| `UnifiedPool.Manager.PickBest` | vllm/vllm/model_executor/layers/fused_moe/unified_pool.py:1293-1307 | the best-ranked candidate of the tallies, the first seen among equals; none exactly when all are passed over |
| `UnifiedPool.Manager.Tally` | vllm/vllm/model_executor/layers/fused_moe/unified_pool.py:1273-1291 | the tallies of the next F cached pages |
| `UnifiedPool.Manager.Inspect` | vllm/vllm/model_executor/layers/fused_moe/unified_pool.py:576-585 | whether a candidate is passed over; running past the last page happens only for a super-block that is not whole |
| `UnifiedPool.Manager.WarmestPrefixStep` | vllm/vllm/model_executor/layers/fused_moe/unified_pool.py:1313-1325 | the step of the warmest cached page of a super-block, and -1 if it has none |
| `UnifiedPool.Manager.VacateKvSuperBlock` | vllm/vllm/model_executor/layers/fused_moe/unified_pool.py:683-751 | no page of the super-block stays cached; surviving prefixes keep hash, order and step; no live byte changes; with relocation on, the pages killed are the coldest of all that were at risk and no more than found no free hole; with it off, exactly the cached pages of the super-block are killed; and exactly who goes where: the pages are served warmest first, equally warm ones in page order, with the free holes in queue order and then the coldest pages elsewhere as long as these are strictly colder |
| `VacateSteps.PinnedAreSafe` | vllm/vllm/model_executor/layers/fused_moe/unified_pool.py:753-809 | no page of a pinned super-block dies or is written over, nothing moves into the super-block that is vacated, and what moves goes to a free page or over one that dies |
| `VacateSteps.SortIsServed` | vllm/vllm/model_executor/layers/fused_moe/unified_pool.py:700-722 | the pages to vacate are sorted warmest first, and equally warm ones stay in page order |
| `UnifiedPool.Manager.RelocatePages` | vllm/vllm/model_executor/layers/fused_moe/unified_pool.py:724-751 | the relocation loop follows the plan: free holes first, then strictly colder victims, then eviction in place |
| `VacatePlan.KilledAreColdest` | vllm/vllm/model_executor/layers/fused_moe/unified_pool.py:683-751 | under the plan no page at stake that is killed is warmer than one that survives |
| `VacatePlan.PlanDone` | vllm/vllm/model_executor/layers/fused_moe/unified_pool.py:716-751 | the finished plan, which looked at the first holes and candidates only, is the exchange over all of them |
| `VacatePlan.KilledCount` | vllm/vllm/model_executor/layers/fused_moe/unified_pool.py:683-751 | as many pages are killed as exceed the free holes |
| `UnifiedPool.Manager.CollectFreePages` | vllm/vllm/model_executor/layers/fused_moe/unified_pool.py:780-809 | the first free, unhashed pages outside the super-block, outside expert-held and pinned ones, in queue order |
| `UnifiedPool.Manager.DisplaceablePagesColdestFirst` | vllm/vllm/model_executor/layers/fused_moe/unified_pool.py:753-778 | the coldest cached pages outside the super-block and outside pinned ones |
| `UnifiedPool.Manager.RelocateKvPage` | vllm/vllm/model_executor/layers/fused_moe/unified_pool.py:840-865 | bytes in every buffer, hash, cache entry and place in the recency list move together |
| `UnifiedPool.Manager.EvictPrefixGlobally` | vllm/vllm/model_executor/layers/fused_moe/unified_pool.py:660-680 | the hash goes from the page, the cache and the recency list; the page stays queued |
| `UnifiedPool.Manager.BroadcastDropAllLayers` | vllm/vllm/model_executor/layers/fused_moe/unified_pool.py:627-658 | every holder's mapping goes, and the assertion that no pinned super-block is dropped cannot fire; every other expert of every layer keeps its place, its step and its place in the order |
| `UnifiedPool.Manager.DropLayerMapping` | vllm/vllm/model_executor/layers/fused_moe/unified_pool.py:600-625 | one layer's mapping and holder entry go, the others stay |
| `UnifiedPool.LayerPool.Assign` | vllm/vllm/model_executor/layers/fused_moe/unified_pool.py:448-461 | both maps, the recency list and the device table agree on the new expert |
| `UnifiedPool.LayerPool.Drop` | vllm/vllm/model_executor/layers/fused_moe/unified_pool.py:463-473 | both maps, the recency list and the device table lose the expert |
| `UnifiedPool.LayerPool.Bump` | vllm/vllm/model_executor/layers/fused_moe/unified_pool.py:475-483 | the expert becomes the most recent |
| `UnifiedPool.Manager.constructor` | vllm/vllm/model_executor/layers/fused_moe/unified_pool.py:500-551 | the fresh pool is sound: all pages but the null page queued in ascending order, nothing cached, mapped or pinned, the switches as given |
| `UnifiedPool.Manager.GetNewBlocks` | vllm/vllm/v1/core/block_pool.py:337-377 | refused exactly when fewer than n pages are free; succeeds exactly when n free pages lie outside pinned super-blocks; page by page the one preferred is taken, with all experts of its super-block, and the state afterwards is exactly that; the pages granted were free, are distinct, lose their hash and get one reference; everything else of the KV side, all bytes, pins and pinned experts stay; after running out half way all usable pages are off the queue, and the pool is sound exactly when there was none; the pages that are left in the queue stand as they stood, and only experts in the super-blocks of the pages taken are gone |
| `KvVictim.NoPinsAllUsable` | vllm/vllm/v1/core/block_pool.py:337-377 | with nothing pinned every free page can be used |
| `KvVictim.LeakIffTaken` | vllm/vllm/model_executor/layers/fused_moe/unified_pool.py:1359-1379 | a selection that stopped half way leaves the pool sound exactly when it had taken no page |
| `PoolExamples.PinnedPagesLost` | vllm/vllm/model_executor/layers/fused_moe/unified_pool.py:1359-1379 | a sound pool with a pinned expert in which every selection that runs out loses the only usable page |
| `UnifiedPool.Manager.SelectKvVictimBlocks` | vllm/vllm/model_executor/layers/fused_moe/unified_pool.py:1359-1379 | distinct usable pages, each the one preferred at its turn; fewer than asked for only when all usable pages were taken; the queue loses exactly these and keeps its order |
| `UnifiedPool.Manager.PickOneKvVictim` | vllm/vllm/model_executor/layers/fused_moe/unified_pool.py:1381-1452 | the first truly free page of the queue if any; else the first page of the super-block of the coldest unpinned expert or the coldest unpinned prefix, whichever is colder, expert on ties; all experts of its super-block go with it; fails exactly when every free page is in a pinned super-block; pinned experts are never dropped |
| `UnifiedPool.Manager.OldestGlobalExpert` | vllm/vllm/model_executor/layers/fused_moe/unified_pool.py:1330-1356 | the super-block of a coldest expert over all layers among those no layer pins |
| `UnifiedPool.Manager.TakePageEvictingExpert` | vllm/vllm/model_executor/layers/fused_moe/unified_pool.py:1475-1497 | all experts of the super-block go, one of its pages is taken, the other pages stay free |
| `UnifiedPool.Manager.TakePrefixPage` | vllm/vllm/model_executor/layers/fused_moe/unified_pool.py:1454-1473 | the page leaves queue and recency list at once, and all other pages keep their order in both |
| `UnifiedPool.Manager.OnKvAllocation` | vllm/vllm/model_executor/layers/fused_moe/unified_pool.py:869-882 | the allocation callback never has anything to drop |
| `KvVictim.LiveNotHeld` | vllm/vllm/model_executor/layers/fused_moe/unified_pool.py:627-658 | a super-block with a live page holds no expert and is not pinned |
| `UnifiedPool.Manager.FreeBlocks` | vllm/vllm/v1/core/block_pool.py:463-489 | any list of blocks of the pool: decrement, queue what reached zero, stamp what is cached, as three passes; when every block of the list has a reference per mention, the blocks that lost their last one are appended to the queue in the order of the list, and the cached ones among them to the recency list |
| `Freeing.PassesAreSequentialIff` | vllm/vllm/v1/core/block_pool.py:463-489 | the three passes do what freeing one block after the other does, exactly when no block mentioned k >= 2 times has between 1 and k references |
| `Freeing.FreePassesSoundIff` | vllm/vllm/v1/core/block_pool.py:463-489 | the three passes keep the pool sound exactly when every block of the list has more references than mentions, or one of each |
| `Freeing.FreedTwice` | vllm/vllm/v1/core/block_pool.py:463-489 | a block with two references named twice is appended twice to the queue, with three not at all |
| `FreeQueue.Queue.AppendN` | vllm/vllm/v1/core/kv_cache_utils.py:323-346 | for any list of blocks: following the links from the head meets the old blocks and then the list with everything between two mentions of a block jumped over, the count grows by the length of the list, and links and count agree exactly when no block is repeated; without a repetition the list is appended to the queue of the pool model |
| `FreeQueue.JumpAll` | vllm/vllm/v1/core/kv_cache_utils.py:323-346 | nothing is jumped over exactly when nothing is repeated |
| `FreeQueue.Queue.PopLeft` | vllm/vllm/v1/core/kv_cache_utils.py:210-246 | pops the first block met from the head; at the end it notices when the count does not say zero |
| `FreeQueue.Queue.Remove` | vllm/vllm/v1/core/kv_cache_utils.py:280-299 | takes a block out of the middle, leaving the others as they stood, as the pool model does, and refuses exactly the blocks that are not in the queue |
| `FreeQueue.Queue.AllFree` | vllm/vllm/v1/core/kv_cache_utils.py:348-366 | lists the blocks met from the head, whatever the links back say |
| `FreeQueue.LinkedTwice` | vllm/vllm/v1/core/kv_cache_utils.py:323-346 | a block appended twice is popped once, and the second pop finds the count out of step |
| `FreeQueue.SkippedOver` | vllm/vllm/v1/core/kv_cache_utils.py:323-346 | a block between two mentions of another is not in the queue at all |
| `Freeing.FreeAllKeeps` | vllm/vllm/v1/core/block_pool.py:463-489 | freeing one after the other keeps the pool sound for every list of references that exist, and touches no other count |
| `UnifiedPool.Manager.TouchBlocks` | vllm/vllm/v1/core/block_pool.py:437-461 | every block gains a reference per mention and the free ones leave the queue, the others keeping their order |
| `PoolFrames.RemovedInPlace` | vllm/vllm/v1/core/kv_cache_utils.py:280-299 | taking a page out of the queue closes the gap and moves nothing else |
| `PoolFrames.TakeAllQueue` | vllm/vllm/model_executor/layers/fused_moe/unified_pool.py:1359-1379 | taking any list of pages leaves the others in the queue |
| `PoolFrames.ExceptOrder` | vllm/vllm/v1/core/kv_cache_utils.py:280-299 | the pages left in the queue stand in the order they stood in, whatever that order was |
| `PoolFrames.TouchAllIs` | vllm/vllm/v1/core/block_pool.py:437-461 | sharing any list of blocks: the exact reference count of every block and the exact queue |
| `PoolFrames.FreePassesAre` | vllm/vllm/v1/core/block_pool.py:463-489 | freeing any list with enough references: the exact counts, what is appended to the queue and what to the recency list, each in the order of the list |
| `PoolFrames.DropAllIsExact` | vllm/vllm/model_executor/layers/fused_moe/unified_pool.py:627-658 | dropping a super-block changes nothing outside it in any layer |
| `PoolFrames.DropMappingIs` | vllm/vllm/model_executor/layers/fused_moe/unified_pool.py:600-625 | dropping one layer's mapping leaves its other experts and all other layers alone |
| `PoolFrames.LoadExpertIs` | vllm/vllm/model_executor/layers/fused_moe/unified_pool.py:1028-1052 | loading an expert: it is mapped, stamped and pinned, page k of its weights is on page k of the super-block, and no other expert, page or layer changes |
| `PoolFrames.ReadyBytes` | vllm/vllm/model_executor/layers/fused_moe/unified_pool.py:1519-1537 | what the kernel reads through the device table: page k of the super-block is page k of the expert's weights |
| `PoolFrames.SplitIs` | vllm/vllm/model_executor/layers/fused_moe/unified_pool.py:1028-1052 | hits and misses are the needed experts that are resident and those that are not, each in the order asked for |
| `PoolFrames.HitAllIs` | vllm/vllm/model_executor/layers/fused_moe/unified_pool.py:1028-1052 | hits become the most recent experts of their layer in the order of the hits and their super-blocks are pinned; the other experts keep step and order |
| `PoolFrames.ColdCountIs` | vllm/vllm/model_executor/layers/fused_moe/unified_pool.py:1273-1291 | a tally is the number of the super-block's pages among the coldest pages scanned |
| `PoolFrames.CachePageIs` | vllm/vllm/v1/core/block_pool.py:227-335 | a full block is found under its hash afterwards, and no other block changes its hash |
| `PoolFrames.WritePageIs` | scripts/test_unified_pool_logic.py:695-797 | a written block holds the data in every buffer, and no other page changes |
| `BlockOps.TouchAllKeeps` | vllm/vllm/v1/core/block_pool.py:437-461 | sharing cached blocks keeps the pool sound |
| `UnifiedPool.Manager.EvictBlocks` | vllm/vllm/v1/core/block_pool.py:561-578 | evicting blocks from the cache |
| `BlockOps.EvictAllKeeps` | vllm/vllm/v1/core/block_pool.py:561-578 | exactly the named pages lose their hash, and the pool stays sound |
| `UnifiedPool.Manager.GetCachedBlock` | vllm/vllm/v1/core/block_pool.py:200-225 | a prefix is found exactly when some page carries its hash, and the page holds the bytes of the prefix in every buffer |
| `BlockOps.HitHoldsBytes` | vllm/vllm/v1/core/block_pool.py:61-72 | every page cached under a hash holds the bytes of that hash |
| `UnifiedPool.Manager.ResetPrefixCache` | vllm/vllm/v1/core/block_pool.py:580-613 | resets when only the null block is in use; the pool is sound afterwards exactly when nothing was cached, because the recency list is not cleared; no page carries a hash and the cache is empty |
| `BlockOps.ResetKeepsIff` | vllm/vllm/v1/core/block_pool.py:580-613 | clearing all hashes keeps the pool sound exactly when no free page carried one |
| `BlockOps.ResetExample` | vllm/vllm/v1/core/block_pool.py:580-613 | a pool with one cached page that a reset breaks |
| `PoolSteps.LoadExpertKeeps` | scripts/test_unified_pool_logic.py:695-797 | all invariants hold after an expert is loaded into a vacant super-block |
| `PoolSteps.DropMappingKeeps` | scripts/test_unified_pool_logic.py:695-797 | all invariants hold after one layer drops a mapping |
| `PoolSteps.DropAllKeeps` | scripts/test_unified_pool_logic.py:695-797 | all invariants hold after every layer drops its mapping |
| `PoolSteps.RelocateKeeps` | scripts/test_unified_pool_logic.py:695-797 | all invariants hold after a page moves |
| `PoolSteps.EvictHashKeeps` | scripts/test_unified_pool_logic.py:695-797 | all invariants hold after a hash is cleared |
| `PoolSteps.TakeKeeps` | scripts/test_unified_pool_logic.py:695-797 | all invariants hold, up to the pages taken, while a page is taken |
| `PoolSteps.AllocateKeeps` | scripts/test_unified_pool_logic.py:695-797 | a taken page that goes live restores the full invariant for it |
| `PoolSteps.TouchPageKeeps` | scripts/test_unified_pool_logic.py:695-797 | all invariants hold after a prefix hit |
| `PoolSteps.FreePageKeeps` | scripts/test_unified_pool_logic.py:695-797 | all invariants hold after a block is freed |
| `PoolSteps.CachePageKeeps` | scripts/test_unified_pool_logic.py:695-797 | all invariants hold after a full block gets its hash |
| `PoolSteps.WritePageKeeps` | scripts/test_unified_pool_logic.py:695-797 | attention may write any live uncached page: no expert and no cached prefix is there |
| `PrefixLru.PrefixLRU.Touch` | vllm/vllm/model_executor/layers/fused_moe/unified_pool.py:197-206 | the linked list does what the value list does: the page becomes the newest |
| `PrefixLru.PrefixLRU.Pop` | vllm/vllm/model_executor/layers/fused_moe/unified_pool.py:208-213 | the page leaves list and dictionary |
| `PrefixLru.PrefixLRU.Rename` | vllm/vllm/model_executor/layers/fused_moe/unified_pool.py:246-263 | dst takes over the place and the step of src; a missing src makes it the newest |
| `PrefixLru.PrefixLRU.InsertOrdered` | vllm/vllm/model_executor/layers/fused_moe/unified_pool.py:215-244 | the page is inserted where its step belongs |
| `PrefixLru.PrefixLRU.Unlink` | vllm/vllm/model_executor/layers/fused_moe/unified_pool.py:144-153 | the links stay intact without the node |
| `PrefixLru.PrefixLRU.Append` | vllm/vllm/model_executor/layers/fused_moe/unified_pool.py:155-164 | the links stay intact with the node at the end |
| `PrefixLru.PrefixLRU.ColdestFirst` | vllm/vllm/model_executor/layers/fused_moe/unified_pool.py:270-278 | the coldest entries in order |
| `PrefixLru.PrefixLRU.Oldest` | vllm/vllm/model_executor/layers/fused_moe/unified_pool.py:265-268 | the coldest entry, if there is one |
| `PrefixLru.PrefixLRU.Validate` | vllm/vllm/model_executor/layers/fused_moe/unified_pool.py:291-311 | on an intact list the self-check passes exactly when list order is recency order |
| `Recency.RenameKeeps` | vllm/vllm/model_executor/layers/fused_moe/unified_pool.py:246-263 | relocation keeps keys distinct, the order and all steps |
| `Recency.TouchKeeps` | vllm/vllm/model_executor/layers/fused_moe/unified_pool.py:197-206 | touching keeps the list distinct and in recency order |
| `Recency.InsertOrderedKeeps` | vllm/vllm/model_executor/layers/fused_moe/unified_pool.py:215-244 | ordered insertion keeps the list distinct and in recency order |
| `NinjaReport.SummarizeEntries` | vllm/tools/report_build_time_ninja.py:198-256 | fails exactly when some step ends before it starts; otherwise every weighted duration and the total equal the ones defined on the intervals, and the total equals latest minus earliest when nothing is idle in between |
| `NinjaReport.Sweep` | vllm/tools/report_build_time_ninja.py:230-256 | every stop finds its start mark, nothing is running at the end, and the total is the sum of what was paid |
| `NinjaReport.HandleEvent` | vllm/tools/report_build_time_ninja.py:238-255 | one event keeps the marks and the clock in step with the schedule |
| `NinjaReport.CollectEvents` | vllm/tools/report_build_time_ninja.py:207-220 | start and stop records, extent and total processor time |
| `WeightedTime.WeightedSumIsBusy` | vllm/tools/report_build_time_ninja.py:238-256 | conservation: the weighted durations add up to the time at which at least one task runs |
| `WeightedTime.NoIdleBusy` | vllm/tools/report_build_time_ninja.py:220-259 | without idle gaps that is the length of the build |
| `WeightedTime.WeightedBounds` | vllm/tools/report_build_time_ninja.py:74-89 | a weighted duration is at most the duration, and the duration at most the peak number of tasks times it |
| `WeightedTime.GridIndependent` | vllm/tools/report_build_time_ninja.py:198-256 | weighted and busy time do not depend on where the time axis is cut |
| `WeightedTime.Window` | vllm/tools/report_build_time_ninja.py:248-253 | the difference of two clock readings is the weighted time between them |
| `NinjaReport.RunningCovers` | vllm/tools/report_build_time_ninja.py:238-254 | the tasks marked as running are those whose interval covers the slice |
| `NinjaReport.ClockTick` | vllm/tools/report_build_time_ninja.py:240-244 | the clock advances by the slice divided by the number of running tasks |
| `NinjaLog.ReadTargets` | vllm/tools/report_build_time_ninja.py:104-148 | the targets are the records from the last cut on (or all of them), one per hash in order of first appearance, each with the times of the first record of its hash and its names in log order |
| `NinjaLog.CutIsOneBuild` | vllm/tools/report_build_time_ninja.py:125-143 | from the cut on end times never decrease and equal hashes have equal times; the record at the cut could not belong to the build before |
| `NinjaLog.EveryNameOnce` | vllm/tools/report_build_time_ninja.py:143-147 | as many names are filed as there are records |
| `NinjaLog.SeenOrder` | vllm/tools/report_build_time_ninja.py:143-147 | the targets stand in the order of the first records of their hashes |
| `NinjaLog.NamePlace` | vllm/tools/report_build_time_ninja.py:143-147 | every name stands under its hash after the names of the earlier records with that hash |
| `PartitionSignature.GetSignatures` | vllm/vllm/env_override.py:221-322 | the loop over reversed partitions gives for each the signature that its nodes call for: its inputs are exactly the real names, with a node, of the stored names that a node uses and none of them defines, and the names that a node uses for the last time; its outputs exactly the stored names it defines or passes on that are unmet later; freed flags, constants and skip flags; it fails with a KeyError exactly when some returned name with storage has no node |
| `PartitionSignature.Sign` | vllm/vllm/env_override.py:224-320 | one partition: its signature and the names unmet before it, as its nodes call for them, or the missing node |
| `PartitionSignature.SignatureIs` | vllm/vllm/env_override.py:221-320 | inputs, outputs, freed flags, constants and unmet names of a partition, each exactly in terms of what its nodes use, define and use last |
| `PartitionSignature.UsedIsTakenIn` | vllm/vllm/env_override.py:239-252 | a stored name that a node uses and the partition does not define is unmet before it under its real name, and an input if that has a node |
| `PartitionSignature.ForwardRun` | vllm/vllm/env_override.py:221-320 | from any environment with the names asked for, for any settled renaming: the partitions run through and all graph outputs exist exactly when no partition frees, without returning it, a name that is still unmet after it, and every buffer without storage that is asked for after a partition is in the environment and freed by none before |
| `PartitionSignature.RunsThrough` | vllm/vllm/env_override.py:221-320 | in the terms of the nodes: if no name that a node uses last is a graph output or taken in by a later partition, and no buffer without storage is a graph output or taken in after the first partition, the run goes through |
| `PartitionSignature.RunsFeedNodes` | vllm/vllm/env_override.py:221-320 | whenever the partitions run through, every node finds every name with a node that it reads and its partition does not define |
| `PartitionSignature.NodesRunThrough` | vllm/vllm/env_override.py:221-320 | from the unmet names, if last usage is last and storage is in place, every node finds every stored name that it reads and its partition does not define, and all graph outputs exist |
| `PartitionSignature.FreedTooEarlyIff` | vllm/vllm/env_override.py:221-320 | without renaming, nothing is freed too early exactly when no freed name is used later before it is redefined |
| `PartitionSignature.StoragelessRunFails` | vllm/vllm/env_override.py:201-266 | a buffer without storage, defined by one partition and last used by the next: every name resolves and nothing is freed too early, yet the run fails |
| `PartitionSignature.LeastStart` | vllm/vllm/env_override.py:318-320 | no environment that lacks an unmet name with a node lets the run through |
| `PartitionSignature.LivenessEquation` | vllm/vllm/env_override.py:318-320 | without renaming, a name is unmet exactly when a node uses it and none defines it here, or it is unmet after and not defined here |
| `PartitionSignature.UnmetIsLive` | vllm/vllm/env_override.py:221-320 | without renaming, a name is unmet exactly when a later use reaches back past no definition |
| `PartitionSignature.ReturnedIsNeeded` | vllm/vllm/env_override.py:226-229 | a buffer defined here is returned only if a later partition or the graph needs it |
| `PartitionSignature.NoneLayoutInputs` | vllm/vllm/env_override.py:201-219 | no signature returns a buffer without storage, and one takes such a buffer in exactly when the partition frees one that it did not define |
| `PartitionSignature.NoneLayoutInputExample` | vllm/vllm/env_override.py:258-266 | a buffer without storage that becomes an input through last usage |
| `CumemAllocator.Driver.CreateAndMap` | vllm/csrc/cumem_allocator.cpp:95-191 | for any range, free or not: past the context with no error pending, either all chunks are mapped, or, unless a clean-up call itself failed, no handle and no mapping is left; with a driver that makes no faults it maps exactly when the whole range is free, and otherwise leaves dead handles in the record; a refused access leaves everything mapped with an error; a pending error loses exactly the first handle if it could be created |
| `CumemAllocator.Driver.CreateHandles` | vllm/csrc/cumem_allocator.cpp:148-156 | one handle per chunk, or all released again |
| `CumemAllocator.Driver.MapChunks` | vllm/csrc/cumem_allocator.cpp:158-177 | every chunk mapped where the one before it ends, or all unmapped and released again; without faults exactly when every chunk's range is free |
| `CumemAllocator.Driver.UnmapAndRelease` | vllm/csrc/cumem_allocator.cpp:193-236 | for a record in any state: with a driver that makes no faults exactly those of its chunks that are mapped with their sizes and those of its handles that are live go, and the error is set exactly when one was not there; with faults nothing else ever goes |
| `CumemAllocator.Driver.Malloc` | vllm/csrc/cumem_allocator.cpp:297-425 | with a driver that makes no faults, granted exactly when no error is pending, the callback succeeds, the size is not zero and the address offered is free, and an error is pending afterwards exactly when one was or the size or the address was at fault; then reserved, cut into whole chunks and a last one, and mapped; a pending error refuses everything; failure leaves nothing behind but the record, unless the callback failed, the context was lost or a clean-up call failed |
| `CumemAllocator.Driver.Free` | vllm/csrc/cumem_allocator.cpp:428-535 | for a record in any state: what is there of it goes; the reservation is given back only if the size passed is the size reserved, and with a driver that makes no faults exactly then and if nothing is mapped in the range; an error stays pending exactly when one was, something of the record was missing or the reservation remains |
| `CumemAllocator.Driver.Sleep` | vllm/csrc/cumem_allocator.cpp:564-660 | for a record in any state: what is there of it goes and the error is cleared; with a driver that makes no faults it raises exactly when an error was pending or something of the record was missing |
| `CumemAllocator.Driver.Wake` | vllm/csrc/cumem_allocator.cpp:662-727 | for a record in any state: with a driver that makes no faults the range is mapped with new handles exactly when no error is pending and the range is free, and otherwise it raises; a range that is not free leaves the driver as it was and the record with dead handles; a pending error leaves a new handle behind the first chunk |
| `CumemAllocator.Driver.Lifecycle` | vllm/csrc/cumem_allocator.cpp:297-727 | malloc, any number of sleep and wake pairs, free: if every step reports success, handles, mappings and reservations are as before; a driver without faults grants every size but zero at a free address, and everything is given back exactly when the size is a multiple of the granularity |
| `CumemAllocator.UnalignedExample` | vllm/csrc/cumem_allocator.cpp:428-535 | a driver without faults and a size of one at granularity two: granted, and not given back |
| `CumemAllocator.WokenTwice` | vllm/csrc/cumem_allocator.cpp:148-177 | malloc, wake, free without faults: the wake raises, and in the end no mapping and no reservation is left but live handles that nobody records |
| `CumemSession.Session.Run` | vllm/vllm/device_allocator/cumem.py:178-250 | any interleaving of malloc, sleep, wake, free and pool clean-up over any number of records in any state, stale ones included: until a step loses something the driver holds exactly the chunks and handles of the allocations that are awake and the reservations of all of them and of the strays, and when no record is left only the strays; each step has the effect and outcome it should; with a driver that makes no faults all of it is settled by the state before, no step before the end loses anything, and the run breaks off exactly at a wake of an allocation that is awake or while an error is pending |
| `CumemSession.Session.Perform` | vllm/csrc/cumem_allocator.cpp:297-727 | one such step; a driver without faults loses something exactly at a wake of an awake allocation or with an error pending |
| `CumemSession.Session.Alloc` | vllm/vllm/device_allocator/cumem.py:147-161 | adds one record of the aligned size, awake, or none, or a stale one when the mapping fails after the callback; with a driver that makes no faults exactly when it should; the record is cut into whole chunks of the configured size and a last one |
| `CumemSession.Session.Unmap` | vllm/vllm/device_allocator/cumem.py:199-214 | sleep of one record in any state while any others are awake or asleep; what is not awake raises and changes nothing |
| `CumemSession.Session.Remap` | vllm/vllm/device_allocator/cumem.py:228-241 | wake of one record in any state; with a driver that makes no faults it raises, and costs handles, exactly when the allocation is awake or an error is pending |
| `CumemSession.Session.Discard` | vllm/csrc/cumem_allocator.cpp:428-535 | free of one record in any state: the record goes; of one that is not awake an error stays; with the wrong size the reservation is left as a stray |
| `CumemSession.Session.Drop` | vllm/vllm/device_allocator/cumem.py:289-293 | leaving a memory pool: the record is unmapped and forgotten, and its reservation is left as a stray |
| `CumemSession.Session.SleepAll` | vllm/vllm/device_allocator/cumem.py:178-214 | with a driver that makes no faults, sleep over the table raises exactly when an error is pending or some record is not awake; the records before that one are asleep, the ones after it untouched; if it does not raise, nothing is awake |
| `CumemSession.Session.WakeUp` | vllm/vllm/device_allocator/cumem.py:228-241 | with a driver that makes no faults, wake-up over any selection of records raises, and loses handles, exactly when an error is pending or one of them is awake; otherwise all of them are awake |
| `CumemSession.PendingIff` | vllm/csrc/cumem_allocator.cpp:428-535 | over any such run with a driver that makes no faults, an error is pending exactly when some allocation of nothing or without a place, or some free of a record that is not awake or with the wrong size, left it and no sleep, wake or clean-up has reported it since |
| `CumemWorld.AsleepIsGone` | vllm/vllm/device_allocator/cumem.py:199-214 | nothing that a sleeping allocation records is there, so sleeping it again takes nothing from the others |
| `CumemWorld.OnTop` | vllm/vllm/device_allocator/cumem.py:199-214 | any awake allocation can be seen on top of all others, in whatever order they were made |
| `CumemWorld.FallsAsleep` | vllm/vllm/device_allocator/cumem.py:199-214 | taking away its chunks and handles leaves exactly what the others hold |
| `CumemWorld.WakesUp` | vllm/vllm/device_allocator/cumem.py:228-241 | mapping its chunks again with new handles gives what it and the others hold |
| `ChunkPlan.ChunkSizes` | vllm/csrc/cumem_allocator.cpp:317-366 | unless a sum passes 64 bits, every chunk before the last has exactly the configured size rounded up to the granularity, the last is positive and no larger, all are multiples of the granularity, and they add up to the aligned size |
| `ChunkPlan.TilesCount` | vllm/csrc/cumem_allocator.cpp:343-366 | the number of chunks is the aligned size divided by the chunk size, rounded up |
| `ChunkPlan.ChunkExample` | vllm/csrc/cumem_allocator.cpp:343-366 | half a gigabyte: two chunks by default, six with 100 in the environment |
| `ChunkPlan.ChunkAt` | vllm/csrc/cumem_allocator.cpp:361-366 | each chunk starts below the end and the chunk after the last does not |
| `ChunkPlan.NextChunk` | vllm/csrc/cumem_allocator.cpp:364-366 | the subtraction never wraps and the chunk ends at the next start or the end |
| `ChunkPlan.AlignUpIs` | vllm/csrc/cumem_allocator.cpp:317-317 | rounding up gives the next multiple |
| `ChunkPlan.BaseChunk` | vllm/csrc/cumem_allocator.cpp:24-42 | the configured chunk size is positive, a multiple of a megabyte and fits 64 bits |
| `ChunkPlan.BaseChunkIs` | vllm/csrc/cumem_allocator.cpp:24-42 | the number of the environment in megabytes, unless it is zero or too large, and 256 otherwise |
| `ModelInspection.SignatureDetermines` | vllm/vllm/model_inspection.py:36-41 | modules with equal signatures are equal trees, for child names without dots and colons |
| `ModelInspection.ColonsCollide` | vllm/vllm/model_inspection.py:36-41 | two different trees with equal signatures, because of a colon in a child name |
| `ModelInspection.ModulesDetermine` | vllm/vllm/model_inspection.py:36-41 | the list of modules with their dotted names determines the tree |
| `ModelInspection.GroupIsUniform` | vllm/vllm/model_inspection.py:104-108 | every member of a group is the same tree as the representative |
| `ModelInspection.GroupsPartition` | vllm/vllm/model_inspection.py:104-108 | the groups hold every numbered child exactly once |
| `ModelInspection.GroupsAre` | vllm/vllm/model_inspection.py:104-108 | the groups are exactly the classes of equal signature, in order |
| `ModelInspection.GroupNumbered` | vllm/vllm/model_inspection.py:104-108 | the filing loop gives those groups |
| `ModelInspection.BlockShowsMembers` | vllm/vllm/model_inspection.py:110-124 | below its label the block of a group is what each member alone would print |
| `ModelInspection.GroupsArePrinted` | vllm/vllm/model_inspection.py:61-131 | the printed tree has the block of every group of numbered children |
| `ModelInspection.FormatLaysOut` | vllm/vllm/model_inspection.py:61-131 | the printed tree is the opening line, the blocks of all groups by ascending first index, the children with names in their order one level deeper, the closing line, and nothing else; a leaf is its title |
| `ModelInspection.NamedIsPrinted` | vllm/vllm/model_inspection.py:126-128 | every child whose name is no number is printed under its name |
| `ModelInspection.SortIsStable` | vllm/vllm/model_inspection.py:110-112 | groups that begin with the same index stay in the order in which they were opened |
| `ModelInspection.NumberedAre` | vllm/vllm/model_inspection.py:88-103 | the numbered children are children whose names the parser accepts, with their numbers, in child order |
| `ModelInspection.NumberedFound` | vllm/vllm/model_inspection.py:88-103 | every child whose name the parser accepts is among the numbered ones |
| `ModelInspection.BlockTitle` | vllm/vllm/model_inspection.py:113-124 | the first line of a block: indentation, label, and the representative's own title |
| `ModelInspection.LabelShowsIndices` | vllm/vllm/model_inspection.py:117-121 | the label of a group, of one member or more, reads back as the indices of its members; with more than one it gives their number |
| `IndexRanges.FormatIndexRanges` | vllm/vllm/model_inspection.py:44-58 | the loop gives the text of the ranges of the sorted indices; an empty list is an error |
| `IndexRanges.RangesRoundTrip` | vllm/vllm/model_inspection.py:44-58 | the text of non-negative indices reads back as ranges that expand to the sorted list, duplicates included, none ending right before the next; a comma is followed by a blank |
| `IndexRanges.SpansAre` | vllm/vllm/model_inspection.py:46-57 | the ranges are maximal and expand to the list |
| `ScalarTypes.MaxIsLargestIff` | vllm/vllm/scalar_type.py:71-106 | for up to 11 exponent and 52 mantissa bits, the value computed is the largest finite value of the format, except exactly for no mantissa bits with the all-ones NaN, for IEEE with one exponent bit, and for IEEE with finite values only, which only the raw constructor builds |
| `ScalarTypes.TooWideIff` | vllm/vllm/scalar_type.py:71-96 | the source refuses exactly the formats that are too wide for a double |
| `ScalarTypes.OneIsOne` | vllm/vllm/scalar_type.py:87-97 | the exponent field in the middle with an empty mantissa means one: the bias is the usual one |
| `ScalarTypes.ShippedMaxima` | vllm/vllm/scalar_type.py:315-345 | 448, 57344, 65504, 28, 7.5 and 6 for six of the formats shipped |
| `ScalarTypes.DoubleIs` | vllm/vllm/scalar_type.py:97-106 | the bits decode as the largest fields with a leading one |
| `ScalarTypes.MaxCodeIsLargest` | vllm/vllm/scalar_type.py:76-86 | the code with the largest fields has the largest value of all finite codes |
| `ScalarTypes.NegativeMantissa` | vllm/vllm/scalar_type.py:76-79 | without mantissa bits the all-ones NaN convention makes the packing fail |
| `ScalarTypes.E8m0Fails` | vllm/vllm/scalar_type.py:334-334 | float8_e8m0fnu has no computable maximum |
| `ScalarTypes.MinNegatesMax` | vllm/vllm/scalar_type.py:117-125 | the minimum exists exactly when the maximum does and is its negation |
| `ScalarTypes.ComputeId` | vllm/vllm/scalar_type.py:136-161 | the six or-and-advance steps give the packed fields, below 2^58 |
| `ScalarTypes.OrAndAdvance` | vllm/vllm/scalar_type.py:146-151 | one step places the masked member above what is there |
| `ScalarTypes.UnpackPacked` | vllm/vllm/scalar_type.py:136-164 | unpacking an id gives the type back, for 8-bit widths and a signed 32-bit bias |
| `ScalarTypes.PackedIdIs` | vllm/vllm/scalar_type.py:136-161 | where each field stands in the id, and the numbers of the NaN conventions |
| `ScalarTypes.IdsAreOneToOne` | vllm/vllm/scalar_type.py:136-164 | equal ids mean equal types |
| `ScalarTypes.WideFieldsCollide` | vllm/vllm/scalar_type.py:146-151 | two types that share an id because a field is too wide |
| `ScalarTypes.Registry.Register` | vllm/vllm/scalar_type.py:162-164 | every key is the id of its type and no other type is replaced |
| `ScalarTypes.Registry.FromId` | vllm/vllm/scalar_type.py:308-312 | an id gives the type registered under it, or an error |
| `ScalarTypes.Registry.RegisterAll` | vllm/vllm/scalar_type.py:254-312 | after any run of registrations every type is found under its id |
| `BadWords.Processor.Call` | vllm/vllm/logits_process.py:56-86 | a logit becomes minus infinity exactly when its token would complete a bad word, every other logit is unchanged; tokens outside the vocabulary and empty words are errors |
| `BadWords.Processor.InitWordBias` | vllm/vllm/logits_process.py:88-104 | the lazily built bias forbids exactly the one-token words |
| `BadWords.Processor.CheckTokenIdsBounds` | vllm/vllm/logits_process.py:106-121 | all token ids are in the vocabulary |
| `BadWords.Generate` | vllm/vllm/logits_process.py:56-86 | a run of any length appends exactly the sampled tokens, stopping only at a token out of range or at minus infinity after processing, and at once on a word that is empty or outside the vocabulary; if the start holds no bad word, the result holds none |
| `BadWords.StaysFree` | vllm/vllm/logits_process.py:56-86 | a token that completes no bad word introduces none |
| `BadWords.CompletesAtEnd` | vllm/vllm/logits_process.py:56-86 | completing a word is having it at the end of the tokens |
| `BadWords.SampledStaysFree` | vllm/vllm/logits_process.py:56-86 | sampling only tokens whose processed logit is above minus infinity never introduces a bad word, over a whole run |
| `StreamMerge.RequestOutput.Add` | vllm/vllm/outputs.py:145-173 | merging in place gives the fold of the next output's completions; the flags are combined; it fails exactly when it aggregates and at some completion of the fold logprobs meet a completion without any |
| `StreamMerge.ConsistentNeverClashes` | vllm/vllm/outputs.py:145-173 | that never happens when logprobs are present everywhere or nowhere |
| `StreamMerge.RequestOutput.Place` | vllm/vllm/outputs.py:151-173 | one completion is merged, replaced or appended; it fails exactly when logprobs meet a completion without any |
| `StreamMerge.Completion.Absorb` | vllm/vllm/outputs.py:155-168 | text, tokens and logprobs are appended, the last fields taken over |
| `StreamMerge.FoldStands` | vllm/vllm/outputs.py:145-173 | after any stream there is one completion per index in order of first appearance, with the concatenated texts, tokens and logprobs of its deltas and the fields of the last |
| `StreamMerge.FirstsOrder` | vllm/vllm/outputs.py:145-173 | of two indices in the order of first appearance the earlier one is met first in the stream |
| `StreamMerge.StreamStands` | vllm/vllm/outputs.py:145-173 | in particular for every stream folded from nothing |
| `StreamMerge.FoldReplaces` | vllm/vllm/outputs.py:169-171 | without aggregation each index holds its last delta |
| `StreamMerge.MergeIsAssociative` | vllm/vllm/outputs.py:145-173 | regrouping the stream does not change the result |
| `FlatLogprobs.Container.Append` | vllm/vllm/logprobs.py:63-72 | adds the dictionary to the list the container stands for; None counts as empty |
| `FlatLogprobs.Container.AppendFast` | vllm/vllm/logprobs.py:74-94 | adds the dictionary of the zipped lists |
| `FlatLogprobs.Container.Extend` | vllm/vllm/logprobs.py:96-99 | adds all dictionaries in order |
| `FlatLogprobs.Container.Length` | vllm/vllm/logprobs.py:101-103 | the number of positions |
| `FlatLogprobs.Container.Get` | vllm/vllm/logprobs.py:111-122 | reads the dictionary of the position, negative indices from the end, others fail |
| `FlatLogprobs.Container.Slice` | vllm/vllm/logprobs.py:123-136 | any start, stop and step, clamped as Python does: an error exactly for step zero or an empty selection; a positive step gives a container for the list's own slice |
| `FlatLogprobs.PositionsAre` | vllm/vllm/logprobs.py:123-136 | the positions selected are the start plus multiples of the step, up to the stop and no further |
| `FlatLogprobs.BoundIs` | vllm/vllm/logprobs.py:123-136 | bounds count from the start, negative ones from the end, and what lies outside is clamped |
| `FlatLogprobs.WholeSlice` | vllm/vllm/logprobs.py:123-136 | a slice without bounds selects every position, forwards or backwards |
| `FlatLogprobs.Container.Iterate` | vllm/vllm/logprobs.py:149-155 | yields exactly the list of dictionaries |
| `FlatLogprobs.Container.AppendForNextPosition` | vllm/vllm/logprobs.py:177-206 | the container and the plain list stay equal for every number of logprobs, duplicate tokens included; the positions before are kept, and the new one has exactly the tokens used, each with the logprob, text and rank of its last mention: the given rank for the sampled token, 1, 2, ... for the ones after it |
| `FlatLogprobs.LastIsRanked` | vllm/vllm/logprobs.py:177-206 | the dictionary of a new position: exactly the tokens used, each with the rank of its last mention |
| `FlatLogprobs.SampledRankIff` | vllm/vllm/logprobs.py:177-206 | the sampled token is listed with its own rank exactly when it is not named again or the last mention stands at that rank |
| `FlatLogprobs.SliceIsModel` | vllm/vllm/logprobs.py:123-136 | a forward slice reads as the list's slice and is well formed again |
| `FlatLogprobs.BackwardSliceIff` | vllm/vllm/logprobs.py:123-136 | a backward slice reads as the list's slice exactly when it selects one position or only empty ones |
| `FlatLogprobs.BackwardExample` | vllm/vllm/logprobs.py:123-136 | two positions whose reversal cannot be read |
| `FlatLogprobs.AppendIsModel` | vllm/vllm/logprobs.py:63-94 | appending items appends their dictionary |
| `DpChunks.ChunkedLocalNumTokens` | vllm/vllm/forward_context.py:73-87 | every rank gets its chunk size, always between 1 and the maximum |
| `DpChunks.LockstepTotal` | vllm/vllm/forward_context.py:73-87 | when k chunks are enough, they add up to the tokens plus one dummy for every chunk past the rank's own |
| `DpChunks.ChunksAddUp` | vllm/vllm/forward_context.py:73-87 | what any number of chunks adds up to |
| `DpChunks.ShardsCover` | vllm/vllm/forward_context.py:61-70 | the shards of a rank cover its tokens with less than one per shard to spare |
| `DpChunks.CuTokensDifferences` | vllm/vllm/forward_context.py:179-184 | consecutive differences of the cumulative counts are the sharded counts |

## Left out

- UnifiedPool.Manager.OldestGlobalExpert: ties between equally cold experts are broken arbitrarily, where the source takes the first in dictionary order.
- ScalarTypes.MaxIsLargestIff: formats other than IEEE are taken to be finite-only, because the source does not say where their infinities would sit.
- ModelInspection.LabelShowsIndices: negative indices, which no module list has, are left out.
- CumemAllocator.Driver.Malloc: asks that no size computation passes 64 bits.
- The recency list and the free queue inside the manager are values; the linked lists behind them are proved separately in `PrefixLru` and `FreeQueue`. `popleft_n` and `append` of the queue, which the manager never calls, are not modelled.
- Python's sorts are modelled as insertion sorts; dictionaries and ordered sets as maps and sets, so the order of a partition's input and output names is not modelled.
- Streams, barriers and asynchronous copies: a copy is one step. Byte offsets inside a super-block (the split into two weight tensors) are not modelled; weights are F pages.
- Warm-up, tracing, profiling, statistics and shutdown of the pool; the expert cache that is not unified; hybrid KV cache groups, KV events and metrics of the block pool.
- Symbol inputs of partitions, `memory_plan_reuse_patched` and `should_partition_patched`.
- A run over the allocator is followed up to the first step that loses something; what a record holds after that is stated by the driver's contracts only. The arrays of a stale record hold arbitrary values, as freed memory does.
- Tags, CPU backups and reference counts of the Python side of the allocator, failures of the C library's malloc, and the CUDA branch.
- Floating-point rounding everywhere: times, logits and logprobs are reals; `has_nans`, `is_ieee_754` and the names of scalar types; integer ranges of scalar types.
- Tokenising bad words; the printing of the build report and its grouping by extension.
- `_get_module_info` and Python's `int` on child names: info lines and the number parser are parameters of the printer.
- Aliasing between a request output and the delta objects it absorbs, beyond the requirement that the objects are distinct.
- Kernels, quantisation, schedulers, HTTP servers, model code and everything else in the repository.
