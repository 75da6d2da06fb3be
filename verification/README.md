# Verified models of Rizin's block store, test runner and code generators

Dafny models of five parts of Rizin, with proofs of what they are for. `dafny verify dfyconfig.toml` checks everything.

1. **Basic blocks and the control-flow graph** (`librz/arch/block.c`, `librz/arch/function.c`). `Blocks` and
   `BlockCode` hold a block and its compact instruction data; `Graph` the traversals; `Store`, `Ranges`, `Runs` and
   `StoreEffects` the link between blocks and functions, the cached ranges, arbitrary runs of calls, and what each
   call changes; `Analysis` the class that performs the calls in place; `Flow` the instruction-level control flow;
   `MergePass`, `MergeFlow`, `MergeOrder` and `Automerge` the merge pass, what it keeps and what it ends with;
   `MergeRuns`, `MergeChoice` and `MergeFlowIff` all its runs and orders; `Chop` the cut behind a call that does not
   return; `BlockIndex` the search tree augmented with the greatest end of each subtree; `FunctionTable` the function
   list and its two indexes.
2. **The worker protocol of rz-test** (`binrz/rz-test/rz-test.c`): `TestRunner` is a transition system of n workers
   and a main thread over arbitrary interleavings with spurious wake-ups; `TestReport` and `TestOutcomes` what it
   reports.
3. **The test file editor** (`binrz/rz-test/rz-test.c`, `binrz/rz-test/load.c`): `TextLines`, `TestFile` and
   `TestLoad` (the loader, and what it loads), `TestFormat` (the printer and the round trip), `TestEdit` and
   `TestFixup` (editing the text against reloading it), `TestRepair` (the results in memory, edited one after the
   other), `TestDrift` (a file on which RUN lines go wrong).
4. **Purity and reference lines** (`librz/arch/fcn.c`, `librz/arch/reflines.c`): `Purity`, `Reflines`.
5. **The extension parser generator** (`sys/riscv_extension_parser_generator.py`): `ExtensionTrie` builds the trie,
   `ExtensionCode` generates the flat C lines and gives them a meaning.

`Machine` holds integer widths, sentinels and `Option`.

Where the code does less than its purpose suggests, the model keeps the code, shows an input and proves when it is right:

- A resize or a move to a lower address can leave a wrong cached range (`Ranges.ResizeMissed`, `Ranges.RelocateMissed`);
  `Ranges.SetSizedRange` and `Ranges.RelocatedRange` say exactly when. The relocation compares the old address with the
  cached minimum (`librz/arch/block.c:234-240`).
- A split forgets a known stack pointer when the delta just before it is unknown (`BlockCode.SplitLosesStackPointer`,
  exactly: `BlockCode.SplitStackPointer`).
- A merge writes the size without recomputing the tree (`librz/arch/block.c:355`); the index survives whatever its shape
  iff no block starts in between (`BlockIndex.MergeKeepsIndex`).
- A block without instructions that absorbs one with some moves them (`MergeFlowIff.BareMergeMoves`): the pass keeps the
  flow whatever the order iff no such pair can be merged (`MergeFlowIff.FlowKeptIff`; for one merge
  `MergeFlow.StepFlowIff`).
- What the merge pass leaves can depend on the order of the blocks (`MergeChoice.LimitBinds`): it does not iff every chain
  of blocks whose neighbours fit together under the size limit fits as a whole (`MergeChoice.OrderDoesNotMatter`).
- The fixup moves every RUN line of the file, also those before the edit (`TestDrift.RunLineDrifts`, exactly:
  `TestRepair.RunLineIff`), and an insertion is counted as one line too many (`TestRepair.DeltaIsGrowth`).
- End points of reference lines are truncated to int, so crossing lines may share a level (`Reflines.CrossingShareLevel`):
  lines that do not touch after the truncation both get the first one (`Reflines.TwoLines`), and between two addresses
  there are such crossing lines iff the addresses lie in different 32-bit ranges (`Reflines.WindowIff`).
- Inside a cycle of calls purity flags can be too optimistic (`Purity.OptimisticInside`): exactly those of functions that
  lead to one marked impure (`Purity.FlagsTell`), and none if there is no cycle (`Purity.AcyclicExact`).

## Model

| member | source | states |
|---|---|---|
| `Blocks.SuccessorsExact` | librz/arch/block.c:391-414 | an address is handed to the successor callback as often as it is the jump, the fail address or a case of the switch, and the no-address marker never |
| `Blocks.SuccessorsInOrder` | librz/arch/block.c:404-410 | the jump comes first, then the fail address, then the cases in their order |
| `Blocks.GraphEdge` | librz/arch/block.c:391-414 | the edges of the block graph are exactly these, each as often as it is named |
| `BlockCode.SetOpOffset` | librz/arch/block.c:1050-1067 | writing one instruction offset, growing the array when needed, leaves every other instruction's offset |
| `BlockCode.SetOpSpDelta` | librz/arch/block.c:1125-1142 | writing one stack delta, padding with the unknown marker, leaves every other delta and all offsets |
| `BlockCode.SpAtBoundary` | librz/arch/block.c:1148-1204 | the stack pointer at an instruction's address is the one after the instruction before it |
| `BlockCode.OpSizeTiles` | librz/arch/block.c:1148-1204 | instructions follow one another without a gap, and the last one ends with the block |
| `BlockCode.OpIndexExact` | librz/arch/block.c:1148-1204 | an offset inside the block is looked up to the instruction that covers it |
| `BlockCode.SpAtInside` | librz/arch/block.c:1148-1204 | anywhere in an instruction the stack pointer is the one after the instruction before it, or the entry one in the first |
| `BlockCode.SplitCode` | librz/arch/block.c:292-317 | the loops of a split: with increasing offsets, stale ones of a shrunk block included, the two halves hold exactly the instructions before and from the split on that start inside the block, with rebased offsets and deltas |
| `BlockCode.AppendOp` | librz/arch/block.c:303-315 | one instruction appended to the second half: those before it stay, and its offset and delta are set |
| `BlockCode.SplitKeepsInstructions` | librz/arch/block.c:252-319 | a split on an instruction boundary keeps the address and the size of every instruction |
| `BlockCode.SplitWellFormed` | librz/arch/block.c:252-319 | both halves have strictly increasing offsets below their sizes again |
| `BlockCode.SplitStackPointer` | librz/arch/block.c:252-319 | the absolute stack pointer of an instruction of the second half survives iff it was unknown or the delta before the split is known and the rebased one fits below the 16-bit marker; in the first half it always survives |
| `BlockCode.RebaseWraps` | librz/arch/block.c:309-312 | a rebased stack delta differs from the exact one by a multiple of 2^16, and an unknown one stays unknown |
| `BlockCode.SplitLosesStackPointer` | librz/arch/block.c:252-319 | a block whose known stack pointer the split turns into an unknown one |
| `BlockCode.MergeCode` | librz/arch/block.c:348-352 | the loop of a merge, with 16-bit truncation; if every offset fits behind the first block, its instructions and then the second's behind its bytes |
| `BlockCode.MergeExact` | librz/arch/block.c:348-352 | nothing is truncated if every offset fits behind the first block |
| `BlockCode.MergeTruncates` | librz/arch/block.c:348-352 | in any case an appended instruction gets its offset modulo 2^16, unless that is zero |
| `BlockCode.MergeOp` | librz/arch/block.c:348-352 | one instruction appended by a merge keeps all offsets before it |
| `BlockCode.MergeWellFormed` | librz/arch/block.c:321-375 | with an instruction in the absorbing block no instruction moves and offsets stay strictly increasing |
| `BlockCode.SplitMergeRestores` | librz/arch/block.c:252-375 | split then merge restores count, offsets and stack deltas iff the split fell on an instruction or behind the start of the last one |
| `BlockCode.SplitIsMergeBack` | librz/arch/block.c:252-375 | the original instructions are a merge of the two halves |
| `Graph.PushSuccessors` | librz/arch/block.c:422-435 | marks all successors of a block visited and pushes exactly the new ones that have a block |
| `Graph.BlockRecurse` | librz/arch/block.c:437-463 | terminates; visits only reachable blocks, each once; unless the callback stops it, exactly the reachable blocks; the callback refused only the last one |
| `Graph.PathOfBlocks` | librz/arch/block.c:416-463 | a path of the graph goes from block to block along jumps, fail addresses and cases |
| `Graph.BlockRecurseList` | librz/arch/block.c:567-580 | the list of all reachable blocks, each once, the start first |
| `Graph.DiscoverSuccessors` | librz/arch/block.c:615-627 | one block's successors extend the breadth-first tree by one level; stops early only when the target was just found |
| `Graph.ExpandLevel` | librz/arch/block.c:651-663 | one round of the search keeps the tree exact up to the current distance, although the search goes on behind the target |
| `Graph.ReadBack` | librz/arch/block.c:665-678 | following the parents from the target gives a path of successors of the recorded length |
| `Graph.ShortestPath` | librz/arch/block.c:629-685 | a path is returned iff the target has a block and is reachable; it is a real successor path and none is shorter |
| `Store.AddedBlockLinked` | librz/arch/function.c:331-352 | adding a block to a function keeps the many-to-many link exact and counted |
| `Store.RemovedBlockLinked` | librz/arch/function.c:354-363 | removing keeps the link; the block leaves the store iff that was its last reference; every other block and function is unchanged |
| `Store.UnreffedLinked` | librz/arch/block.c:377-389 | giving up a reference keeps the link; the block leaves iff the count reaches zero, and then no function holds it |
| `Store.ReffedLinked` | librz/arch/block.c:38-41 | taking a reference keeps the link |
| `Store.DeletedBlockLinked` | librz/arch/block.c:183-189 | deleting takes the block out of every function and leaves it in the store iff somebody else holds it |
| `Store.CreatedBlockLinked` | librz/arch/block.c:171-181 | a new block starts in no function with one reference and the others stay; an existing start address is refused |
| `Store.FreedFcnLinked` | librz/arch/function.c:104-117 | freeing a function releases each of its blocks; exactly those with one reference leave the store |
| `Store.SetSizedLinked` | librz/arch/block.c:191-208 | resizing keeps the link |
| `Store.RelocatedLinked` | librz/arch/block.c:210-250 | moving a block keeps the link under its new address |
| `Store.SplitLinked` | librz/arch/block.c:252-319 | the second half is in exactly the functions of the first |
| `Store.MergedLinked` | librz/arch/block.c:321-375 | merging needs the same functions on both sides and keeps the link |
| `Store.SameMembers` | librz/arch/block.c:326-336 | comparing lengths and one inclusion is enough to compare the function lists |
| `Store.SplitThenMerge` | librz/arch/block.c:252-375 | split then merge, possible iff the size is within the limit, restores every block's size, jump, fail, switch, functions and references and every function's list |
| `StoreEffects.CreatedEffect` | librz/arch/block.c:171-181 | the new block has its size, no targets, no instructions, no functions and one reference; nothing else changes |
| `StoreEffects.AddedEffect` | librz/arch/function.c:331-352 | the block gains the function and a reference, the function the block at the end of its list; nothing else changes but the range |
| `StoreEffects.RemovedEffect` | librz/arch/function.c:354-363 | the block loses the function and a reference and keeps its content, the function loses the block |
| `StoreEffects.DeletedEffect` | librz/arch/block.c:183-189 | every function loses the block; if it stays it keeps its content and the references of others |
| `StoreEffects.FreedEffect` | librz/arch/function.c:104-117 | the blocks of the freed function lose it and a reference, and keep their content |
| `StoreEffects.SetSizedEffect` | librz/arch/block.c:191-208 | only the size of the block and ranges change |
| `StoreEffects.RelocatedEffect` | librz/arch/block.c:210-250 | a moved block has the new size, and keeps jump, fail, cases, instructions, references and functions |
| `StoreEffects.SplitEffect` | librz/arch/block.c:252-319 | the first half is cut and leads to the second, which takes over the targets, and a reference for each function besides its own |
| `StoreEffects.MergedEffect` | librz/arch/block.c:321-375 | the absorbing block has both sizes and the targets of the absorbed one; its functions lose that and have to recompute their ranges |
| `StoreEffects.SpareKept` | librz/arch/block.c:38-41 | only taking and giving up a reference changes how many of them no function holds |
| `StoreEffects.RunSpare` | librz/arch/block.c:377-389 | over a run these are the ones the block had, and those taken less those given up |
| `Ranges.AddedBlockRanged` | librz/arch/function.c:338-346 | adding a block keeps a valid cached range the exact minimum start and maximum end |
| `Ranges.RemovedBlockRanged` | librz/arch/function.c:357-360 | removing a block at an edge invalidates the range, elsewhere it stays as it is; ranges stay exact |
| `Ranges.UnreffedRanged` | librz/arch/block.c:377-389 | giving up a reference keeps cached ranges exact |
| `Ranges.DeletedBlockRanged` | librz/arch/block.c:183-189 | deleting a block keeps cached ranges exact |
| `Ranges.CreatedBlockRanged` | librz/arch/block.c:171-181 | creating a block keeps cached ranges exact |
| `Ranges.FreedFcnRanged` | librz/arch/function.c:104-117 | freeing a function keeps the ranges of the others exact |
| `Ranges.SplitRanged` | librz/arch/block.c:275-290 | splitting keeps cached ranges exact |
| `Ranges.MergedRanged` | librz/arch/block.c:369-372 | merging invalidates the ranges of exactly the functions that hold the blocks; ranges stay exact |
| `Ranges.SetSizedRange` | librz/arch/block.c:191-208 | after a resize a function's range is exact iff it was invalid, the block is not the function's, or the block was last and stays last, or was not last and does not end behind the cached maximum |
| `Ranges.DisjointIsTracked` | librz/arch/block.c:191-208 | that holds when the function's blocks are disjoint and the others non-empty |
| `Ranges.ResizeMissed` | librz/arch/block.c:191-208 | two overlapping blocks for which a resize leaves a wrong range |
| `Ranges.RelocatedRange` | librz/arch/block.c:210-250 | after a move a function's range is exact iff it was or becomes invalid, the block is not the function's, or the block lands at or above the cached minimum |
| `Ranges.RelocateMissed` | librz/arch/block.c:210-250 | a move to a lower address that leaves a wrong range |
| `Ranges.RelocateUpRanged` | librz/arch/block.c:210-250 | a move to a higher address keeps every range exact |
| `Runs.ExecLinked` | librz/arch/block.c:171-389 | every API call keeps membership and reference counts consistent |
| `Runs.RunLinked` | librz/arch/block.c:171-389 | so does every run of calls |
| `Runs.LeavesAtZero` | librz/arch/block.c:377-389 | outside merge and relocate a block leaves the store iff the call takes its last reference, and then no function holds it |
| `Runs.SetSizeRanged` | librz/arch/block.c:191-208 | all cached ranges stay exact over a resize iff each function tracks it |
| `Runs.RelocateRanged` | librz/arch/block.c:210-250 | all cached ranges stay exact over a move iff each function tracks it |
| `Runs.ExecRanged` | librz/arch/block.c:191-372 | a call keeps all cached ranges exact iff it is not an untracked resize or move |
| `Runs.RunRanged` | librz/arch/function.c:331-384 | over any run without such a call a valid range is exact |
| `Runs.EveryRunIsConsistent` | librz/arch/function.c:331-384 | both, for every run from the empty store |
| `Analysis.Analysis.CreateBlock` | librz/arch/block.c:171-181 | fails iff the start address is taken |
| `Analysis.Analysis.UnrefBlock` | librz/arch/block.c:377-389 | drops the block at count zero |
| `Analysis.Analysis.AddBlock` | librz/arch/function.c:331-352 | appends on both sides once and widens a valid range |
| `Analysis.Analysis.RemoveBlock` | librz/arch/function.c:354-363 | removes on both sides, invalidates at an edge and gives up the reference |
| `Analysis.Analysis.DeleteBlock` | librz/arch/block.c:183-189 | takes a temporary reference, loops until no function holds the block, and gives that reference up |
| `Analysis.Analysis.FreeFunction` | librz/arch/function.c:104-117 | detaches every block of the function |
| `Analysis.Analysis.SetSize` | librz/arch/block.c:191-208 | sets the size and adjusts the maximum of each function that ended there |
| `Analysis.Analysis.Relocate` | librz/arch/block.c:210-250 | refuses a taken address, otherwise moves and adjusts each function's range |
| `Analysis.Analysis.Split` | librz/arch/block.c:252-319 | returns the block itself at its start, nothing at a taken address, otherwise the second half, whatever the instruction data |
| `Analysis.Analysis.SameFunctions` | librz/arch/block.c:326-336 | the list comparison is equal length and inclusion |
| `Analysis.Analysis.Merge` | librz/arch/block.c:321-375 | succeeds iff adjacent, same functions and within the size limit; then the second block is gone, its flow is the first's, and its instructions are appended, whatever they are |
| `Analysis.Analysis.ScanRange` | librz/arch/function.c:365-384 | the scan finds the exact minimum start and maximum end |
| `Analysis.Analysis.EnsureRange` | librz/arch/function.c:365-384 | recomputes only an invalid range; afterwards it is exact, and valid iff there is a block below the marker |
| `Flow.FusedStep` | librz/arch/block.c:321-375 | with instructions in both blocks the merged block steps exactly as the two did |
| `Flow.FusedSteps` | librz/arch/block.c:321-375 | the merged store then has the same instructions and the same edges |
| `Flow.StepsKeptIff` | librz/arch/block.c:321-375 | the edges themselves are kept iff the absorbed block has instructions |
| `Flow.BareAbsorberMovesCode` | librz/arch/block.c:348-352 | a block without instructions that absorbs one with some moves the first of them to its own start |
| `Flow.LeadsSame` | librz/arch/block.c:321-375 | going on through blocks without instructions leads to the same places after a merge |
| `Flow.FusedFlow` | librz/arch/block.c:321-375 | a merge keeps the instructions and their order of execution, with or without instructions in the absorbed block, if only the absorbing block leads to it |
| `Flow.SplitFlow` | librz/arch/block.c:252-319 | splitting on an instruction boundary keeps every edge and the order of execution; behind the start of the last instruction it keeps the order if nothing else leads to the second half |
| `MergePass.SoleAfterFuse` | librz/arch/block.c:970-980 | unique predecessors after a merge are those before it, with the absorbed block renamed |
| `MergePass.NotedEdgeTabulated` | librz/arch/block.c:860-880 | noting an edge keeps the predecessor table exact: none, the only one, or several |
| `MergePass.FindPredecessors` | librz/arch/block.c:882-932 | the table holds each candidate's unique predecessor and every successor count among the functions |
| `MergePass.SoleExact` | librz/arch/block.c:860-880 | a unique predecessor names the block exactly once, and no other block of the functions names it |
| `MergePass.CollectFixups` | librz/arch/block.c:955-962 | the blocks still to come whose predecessor is the absorbed one |
| `MergePass.UnmergeableAfterFuse` | librz/arch/block.c:938-968 | a block that was skipped cannot become mergeable by a later merge |
| `MergePass.MergeIntoPredecessor` | librz/arch/block.c:952-985 | one merge with predecessors redirected and the successor count taken over |
| `MergePass.MergeAt` | librz/arch/block.c:938-985 | one turn of the pass merges the block into the only one that can absorb it, if any, and keeps the invariant: recorded predecessors are live and unique, counts up to date |
| `MergePass.RunPass` | librz/arch/block.c:904-993 | the pass is a run of merges along sole edges, one turn for each block in the order given; link, holders, references and outside blocks are untouched, exactly the given blocks not left over are gone, and none of those left could be merged |
| `MergeFlow.WellFormedLegible` | librz/arch/block.c:321-375 | the premise on instructions holds if the given blocks are well formed and no block without instructions could absorb one that has some |
| `MergeFlow.StepFlowIff` | librz/arch/block.c:321-375 | where no other block has an instruction at the absorbed block's start, a merge that truncates nothing keeps the flow iff it does not put instructions into a block that has none |
| `MergeFlow.PassFlow` | librz/arch/block.c:938-985 | however the pass proceeds, it keeps instructions and their order of execution, and every edge if each given block has an instruction |
| `MergeOrder.TracksStep` | librz/arch/block.c:938-985 | every merge uses an edge that was there from the start, and each block stands for a part of a chain of such edges |
| `MergeOrder.PassCollapses` | librz/arch/block.c:938-985 | if every chain whose neighbours fit together fits as a whole, each pass with nothing left to merge ends with every chain collapsed into its first block: size, jump, fail, switch, holders, references and instructions |
| `MergeRuns.OrderCompletes` | librz/arch/block.c:938-985 | giving every block its turn once, in any order, is a run of merges with nothing left to merge |
| `MergeRuns.CompleteRun` | librz/arch/block.c:938-985 | however far a run of merges got, it can be completed |
| `MergeChoice.MergeStretch` | librz/arch/block.c:338-343 | a stretch of a chain that fits as a whole can be merged into its first block |
| `MergeChoice.TwoOrders` | librz/arch/block.c:938-985 | with a chain whose neighbours fit together but which is too long as a whole, two orders of the given blocks leave different blocks |
| `MergeChoice.SameOutcome` | librz/arch/block.c:938-985 | without one, any two completed runs leave the same blocks with the same contents and instructions |
| `MergeChoice.OrderDoesNotMatter` | test/unit/test_analysis_block.c:786-812 | all completed runs, and all orders of the given blocks, leave the same blocks if and only if every chain whose neighbours fit together fits as a whole |
| `MergeChoice.LimitBinds` | librz/arch/block.c:338-343 | three adjacent blocks and a limit of two of them: completed runs that leave different blocks |
| `MergeFlowIff.BareMergeMoves` | librz/arch/block.c:338-352 | a store whose first block has no instructions: the pass merges the second into it, and the instruction moves |
| `MergeFlowIff.LostForGood` | librz/arch/block.c:938-985 | an instruction address that is lost with its block does not come back in the rest of the pass |
| `MergeFlowIff.FlowKeptIff` | librz/arch/block.c:938-985 | all completed runs, and all orders of the given blocks, keep the instructions and their order of execution if and only if no block without instructions could absorb one that has some, given that offsets fit and no such instruction is shared |
| `Automerge.Automerge` | librz/arch/block.c:904-993 | all of this for the pass on any blocks: the blocks have their turns in the order given; the outcome; the flow if no block without instructions could absorb one that has some; the collapsed chains if each fits as a whole |
| `Chop.Prune` | librz/arch/block.c:754-762 | takes exactly the unmarked candidates out of one function |
| `Chop.MarkReachable` | librz/arch/block.c:745-752 | marks what a function reaches from an entry block of its own |
| `Chop.PruneUnreachable` | librz/arch/block.c:800-812 | every function loses exactly the candidates it no longer reaches |
| `Chop.ChoppedWellFormed` | librz/arch/block.c:792-798 | the cut block's instructions are well formed again iff each of them starts before the cut |
| `Chop.ChoppedEffect` | librz/arch/block.c:788-798 | the cut block is shorter and leads nowhere; its instructions, functions and references and all other blocks stay |
| `Chop.ChoppedFits` | librz/arch/block.c:792-798 | even stale instructions fit when the cut block is absorbed, if the uncut one would have been within the limit |
| `Chop.ChopNoreturn` | librz/arch/block.c:772-812 | up to the merge pass: a former successor stays in a function of the block iff it is still reachable from an entry block the function owns; no other membership, block content or function address changes, each former successor gains one reference, and ranges stay exact if the resize is tracked |
| `Chop.ReleaseAll` | librz/arch/block.c:841-841 | gives up the references; blocks nobody else holds leave the store |
| `Chop.NoEmptyLoopIff` | librz/arch/block.c:800-835 | the pass would merge a block into itself exactly if, after the cut, an empty former successor jumps only to itself and nothing else the pass looks at leads to it |
| `Chop.ReturnedStays` | librz/arch/block.c:772-843 | the returned block is still in the store iff somebody else held it or one of its functions still reaches it |
| `Chop.ChopAndMerge` | librz/arch/block.c:772-843 | cut, merge pass and release together; the block is returned unless it was merged away, and whether it is then still in the store |
| `BlockIndex.FindExact` | librz/arch/block.c:87-90 | a lookup by start address finds exactly the stored block |
| `BlockIndex.InsertValid` | librz/arch/block.c:171-181 | insertion keeps starts unique and every recorded end exact |
| `BlockIndex.ResizeValid` | librz/arch/block.c:191-208 | resizing recomputes the records on the path, and that suffices |
| `BlockIndex.DeleteValid` | librz/util/rbtree.c:67-161 | deletion by in-order predecessor keeps the records exact |
| `BlockIndex.RotatedAtValid` | librz/util/rbtree.c:163-233 | a rotation anywhere keeps the blocks and the records |
| `BlockIndex.ApplyValid` | librz/arch/block.c:171-319 | every operation keeps the index exact and does to the set of blocks what it would do to a flat map |
| `BlockIndex.ApplyInRange` | librz/arch/block.c:171-319 | no operation lets the end of a block wrap |
| `BlockIndex.RunValid` | librz/arch/block.c:171-319 | so does every run, with any rotations in between |
| `BlockIndex.AllIn` | librz/arch/block.c:93-117 | the pruned containment query visits exactly what a filtered linear scan would, in order, until the callback refuses |
| `BlockIndex.AllIntersect` | librz/arch/block.c:138-156 | the pruned intersection query equals the filtered linear scan |
| `BlockIndex.HitsMeansOverlap` | librz/arch/block.c:138-156 | the filter is: some address lies in both, for non-empty block and query |
| `BlockIndex.HitsMeansContains` | librz/arch/block.c:89-107 | a query for one address reports the blocks that cover it |
| `BlockIndex.VisitedExact` | librz/arch/block.c:94-112 | the visit goes on as long as the callback agrees, and ends with the first block it refuses |
| `BlockIndex.HittingExact` | librz/arch/block.c:93-156 | the filtered scan holds each hit once and nothing else |
| `BlockIndex.QueryAfterRun` | librz/arch/block.c:93-169 | after any run a query finds exactly the blocks of the store that hit, each once |
| `BlockIndex.MergedValid` | librz/arch/block.c:354-367 | merging repairs every stale record if no block starts in between |
| `BlockIndex.StaleShape` | librz/arch/block.c:354-367 | with a block starting in between, a tree whose records go stale |
| `BlockIndex.MergeKeepsIndex` | librz/arch/block.c:354-367 | merging keeps the index exact for every shape of the tree iff no block starts strictly between the two |
| `TestRunner.NextKeeps` | binrz/rz-test/rz-test.c:531-563 | every step of any thread keeps the protocol invariant |
| `TestRunner.RunInv` | binrz/rz-test/rz-test.c:531-563 | so does every interleaving |
| `TestRunner.NoTestLostOrRunTwice` | binrz/rz-test/rz-test.c:699-756 | queue, tests in flight and results are always the loaded tests; main leaves its loop only when every test has a result |
| `TestRunner.QueueIsFront` | binrz/rz-test/rz-test.c:705-705 | tests are taken from the end of the list: what is still queued is always its beginning |
| `TestRunner.NoLostWakeup` | binrz/rz-test/rz-test.c:546-561 | main is asleep behind the results only while a worker inside the lock is about to signal |
| `TestRunner.Progress` | binrz/rz-test/rz-test.c:531-563 | as long as main is in its loop some thread can move without a spurious wake-up |
| `TestRunner.StuckMeansDone` | binrz/rz-test/rz-test.c:531-563 | when nothing can move, main is done and all workers have left |
| `TestRunner.StepMeasure` | binrz/rz-test/rz-test.c:699-756 | every step but a spurious wake-up lowers a measure |
| `TestRunner.RunIsBounded` | binrz/rz-test/rz-test.c:699-756 | every run is finite, up to the number of spurious wake-ups |
| `TestReport.RecordReported` | binrz/rz-test/rz-test.c:711-752 | recording a result counts it, and its path completes when none of its tests is left |
| `TestReport.TurnReported` | binrz/rz-test/rz-test.c:546-561 | one turn of main reports exactly the new results and the newly completed paths |
| `TestReport.NextReported` | binrz/rz-test/rz-test.c:513-561 | every step keeps the report exact |
| `TestReport.RunReported` | binrz/rz-test/rz-test.c:513-561 | so does every interleaving |
| `TestReport.ReportComplete` | binrz/rz-test/rz-test.c:916-1003 | at the end every result was reported once and in order, and ok, xx, br and fx are the numbers of results that are ok, failed, broken and fixed, and add up to the number of tests |
| `TestReport.PathCompletedOnce` | binrz/rz-test/rz-test.c:728-751 | in log mode a path is completed once, exactly when it has as many results as loaded tests |
| `TestReport.TallyCounts` | binrz/rz-test/rz-test.c:712-727 | each counter is the number of results with its outcome |
| `TestOutcomes.OutcomesKept` | binrz/rz-test/rz-test.c:699-756 | in every interleaving, what the runs of tests gave is recorded or still with its worker, with the outcome it had |
| `TestOutcomes.ReportIsWhatRan` | binrz/rz-test/rz-test.c:699-756 | at the end the reported results are exactly the outcomes of the runs, of each loaded test as often as it was loaded |
| `TextLines.FirstLine` | binrz/rz-test/load.c:24-39 | cutting at the first newline gives the first line and the lines behind it |
| `TextLines.LinesInverse` | binrz/rz-test/load.c:24-39 | a text is its lines put together again |
| `TextLines.NewlinesCountLines` | binrz/rz-test/rz-test.c:1244-1244 | a text has one line more than newlines |
| `TestFile.ReadLine` | binrz/rz-test/load.c:24-39 | one line, without a carriage return in front of its newline, and the rest |
| `TestFile.ReadHeredoc` | binrz/rz-test/load.c:74-99 | collects lines up to one that starts with EOF, counting them; none means the key is rejected |
| `TestFile.ReadStringVal` | binrz/rz-test/load.c:53-103 | rejects a quoted value and a wrong end token, reads a here-document, otherwise takes the value itself |
| `TestFile.ReadItem` | binrz/rz-test/load.c:166-287 | one turn of the key loop: what the line says and where the next one begins |
| `TestFile.LoadCmdTests` | binrz/rz-test/load.c:143-302 | the loop yields the tests, their values, line ranges and RUN lines that the line-by-line definition of a load gives, or rejects the file |
| `TestLoad.FlagLine` | binrz/rz-test/load.c:229-254 | a flag is on if its line says 1 up to blanks and a comment, off if it says 0, and nothing else is accepted |
| `TestLoad.NumberLine` | binrz/rz-test/load.c:256-280 | a number key has the number its line gives up to blanks and a comment |
| `TestLoad.OtherLines` | binrz/rz-test/load.c:169-186 | empty lines, comments and unknown keys say nothing, RUN needs no value, any other line without one is an error |
| `TestLoad.RunnableIff` | binrz/rz-test/load.c:186-204 | RUN asks for commands, or a tool of the whitelist with arguments, and for something to expect |
| `TestLoad.LoadedByLines` | binrz/rz-test/load.c:143-302 | each loaded test has exactly the keys that the lines since the RUN before set, each from the last one, and passed that check at its RUN; no RUN comes behind the last test |
| `TestLoad.RejectedByLine` | binrz/rz-test/load.c:143-302 | a file is only rejected for a line that is an error or a RUN that fails the check |
| `TestFormat.FormatLines` | binrz/rz-test/rz-test.c:1132-1142 | the lines a key is printed on |
| `TestFormat.SingleLineIff` | binrz/rz-test/load.c:53-103 | a one-line value is read back iff it is not quoted, does not begin with << and does not end in a carriage return |
| `TestFormat.MultiLineIff` | binrz/rz-test/load.c:74-99 | a here-document is read back iff the value ends in a newline and no line starts with EOF or ends in a carriage return |
| `TestFormat.ReadBackIff` | binrz/rz-test/rz-test.c:1132-1142 | printed anywhere in a file, followed by a line, a key is read back with its value and exactly its lines iff the value is well formed |
| `TestFormat.SchemaKeysOk` | binrz/rz-test/rz_test.h:87-103 | the loader's string keys are of the shape the printer relies on |
| `TestEdit.SkipTo` | binrz/rz-test/rz-test.c:1147-1168 | the line scan stops in front of the wanted line or at the end of the text |
| `TestEdit.ReplaceLines` | binrz/rz-test/rz-test.c:1144-1178 | the result has the lines before, the new lines and the lines from the end of the range on; it fails iff the text is too short |
| `TestEdit.ItemShift` | binrz/rz-test/load.c:143-302 | what a line says does not depend on its number |
| `TestEdit.ItemSame` | binrz/rz-test/load.c:143-302 | an item that ends before two texts part is the same in both |
| `TestFixup.LoadedWithin` | binrz/rz-test/load.c:213-227 | in a loaded test every string key has a non-empty range in front of its RUN line |
| `TestFixup.LoadedSorted` | binrz/rz-test/load.c:143-302 | tests stand one behind the other |
| `TestFixup.FieldVisited` | binrz/rz-test/load.c:213-227 | the range of a loaded key is that of the item that set it |
| `TestFixup.LoadMoves` | binrz/rz-test/rz-test.c:1181-1219 | behind an edit, loading commutes with shifting the line numbers |
| `TestFixup.EditedLoadIff` | binrz/rz-test/rz-test.c:1181-1257 | an edited file loads as the old tests with one value replaced and shifted lines iff the new lines read back as that value and the edited test still passes the check at its RUN |
| `TestFixup.ReloadIff` | binrz/rz-test/rz-test.c:1239-1257 | that is the case iff the value is well formed and the test still passes the check at its RUN, which only a replaced TOOL can break |
| `TestRepair.FixupTests` | binrz/rz-test/rz-test.c:1181-1219 | in place, every command test of the edited file gets its ranges and lines shifted, others are untouched |
| `TestRepair.FixedShifts` | binrz/rz-test/rz-test.c:1181-1219 | lines from the start on move by the delta, those before stay, the RUN line always moves |
| `TestRepair.ReplaceCmdKv` | binrz/rz-test/rz-test.c:1239-1257 | new text and fixed-up results, or neither when the range begins behind the text |
| `TestRepair.DeltaIsGrowth` | binrz/rz-test/rz-test.c:1250-1254 | the delta is the growth of the text iff lines are replaced; for an insertion it is one too many |
| `TestRepair.FixedMatches` | binrz/rz-test/rz-test.c:1181-1219 | the fixed-up ranges of a test are those of a fresh load of the edited text |
| `TestFixup.SoleField` | binrz/rz-test/load.c:213-227 | two keys of a file never begin on the same line |
| `TestRepair.MovedValues` | binrz/rz-test/rz-test.c:1239-1257 | a reload finds the new value in the edited key and every other value unchanged |
| `TestRepair.RunLineIff` | binrz/rz-test/rz-test.c:1192-1192 | the RUN line of a test is right after the fixup iff it is not before the edited test or the text did not grow |
| `TestDrift.RunLineDrifts` | binrz/rz-test/rz-test.c:1192-1192 | a text of two tests, its load, and an edit of the second after which a reload has the first test's RUN on line 3 and the fixup on line 1 |
| `TestRepair.LoadedPlaced` | binrz/rz-test/load.c:213-227 | the ranges of the keys of a loaded file do not overlap |
| `TestRepair.MovedPlaced` | binrz/rz-test/rz-test.c:1194-1201 | nor do they after an edit |
| `TestRepair.ReplaceKey` | binrz/rz-test/rz-test.c:1259-1271 | after replacing a key, memory is in step with the text; it equals a reload iff the value is well formed and the test still passes the check at its RUN, and then only that value has changed |
| `TestRepair.FixCmd` | binrz/rz-test/rz-test.c:1273-1299 | the test has the captured output as its EXPECT and its EXPECT_ERR, as far as it was captured and the test has the key; every other key, flag and number of all tests stays; if the output can be read back, the new text loads as these tests |
| `TestRepair.AcceptAll` | binrz/rz-test/rz-test.c:1098-1130 | if all outputs can be read back, the new text loads with each key as the last result that writes it left it, or as it was if none does, and memory equals that load |
| `Purity.CheckFnFacts` | librz/arch/fcn.c:307-332 | a flag that says impure is right; whatever is left marked pure has all its references behind it; if a call ends pure, everything it checked is pure |
| `Purity.CheckRefsFacts` | librz/arch/fcn.c:312-330 | the same for the rest of a function's references |
| `Purity.ExactForRoot` | librz/arch/fcn.c:307-332 | on any call graph the function asked for ends pure iff it reaches no data reference |
| `Purity.PureRootMeansAllPure` | librz/arch/fcn.c:307-332 | if it ends pure, so are all functions that were checked |
| `Purity.FlagsTell` | librz/arch/fcn.c:307-332 | a checked function reaches data iff it leads by calls to a checked function marked impure |
| `Purity.AcyclicExact` | librz/arch/fcn.c:307-332 | if no function the one asked for leads to lies on a cycle of calls, every flag the walk sets is right |
| `Purity.OptimisticInside` | librz/arch/fcn.c:307-332 | a cycle that leaves an inner function marked pure although it reaches data |
| `Purity.Checker.CheckPurity` | librz/arch/fcn.c:293-332 | the recursive method with its table, flags and breaks computes that walk and terminates |
| `Purity.FunctionPurity` | librz/arch/fcn.c:2283-2292 | the answer is exact if the function has changed, otherwise the stored flag; flags turned impure are right, and all changed flags are without cycles |
| `Reflines.OpenStep` | librz/arch/reflines.c:237-253 | an end point opens its line when it is the first of the two, and closes it otherwise |
| `Reflines.TakenIsOpen` | librz/arch/reflines.c:231-253 | there are at least as many open lines as taken slots in a row |
| `Reflines.TakeSlot` | librz/arch/reflines.c:238-246 | takes the lowest free slot; the scan for the next one stays inside the array |
| `Reflines.FreeSlot` | librz/arch/reflines.c:247-252 | frees a slot and keeps the minimum the lowest free one |
| `Reflines.Visit` | librz/arch/reflines.c:237-253 | one end point keeps the allocation exact |
| `Reflines.AssignLevels` | librz/arch/reflines.c:231-253 | lines open at the same time get different levels, and a level never exceeds the number open at some time |
| `Reflines.Optimal` | librz/arch/reflines.c:231-253 | no other assignment that separates lines open together has a lower highest level |
| `Reflines.AddSorted` | librz/util/list.c:445-471 | sorted insertion keeps order and elements |
| `Reflines.AddRefline` | librz/arch/reflines.c:38-67 | the end point list stays sorted and holds the two ends of every line once |
| `Reflines.OverlapOpen` | librz/arch/reflines.c:231-253 | lines that overlap are open together at some end point |
| `Reflines.OpenTouch` | librz/arch/reflines.c:231-253 | lines open together share a point |
| `Reflines.Layout` | librz/arch/reflines.c:231-253 | overlapping lines get different levels, with all ends in one 32-bit range crossing lines do, and level l is only used if l lines come together |
| `Reflines.Int32Order` | librz/arch/reflines.c:28-36 | truncated to int, two addresses keep their order iff they are further apart than their 32-bit ranges |
| `Reflines.SameWindow` | librz/arch/reflines.c:28-36 | with all ends in one 32-bit range, two lines overlap after the truncation iff they cross |
| `Reflines.WindowIff` | librz/arch/reflines.c:28-36 | between two addresses all crossing lines overlap after the truncation iff both addresses lie in one 32-bit range; otherwise some crossing lines do not even touch |
| `Reflines.TwoLines` | librz/arch/reflines.c:231-253 | two lines that do not touch after the truncation both get level 1, two that overlap get different levels |
| `Reflines.CrossingShareLevel` | librz/arch/reflines.c:28-36 | two lines that cross and are given the same level |
| `ExtensionTrie.Trie.constructor` | sys/riscv_extension_parser_generator.py:32-33 | the empty trie holds no name |
| `ExtensionTrie.Trie.Descend` | sys/riscv_extension_parser_generator.py:37-41 | one character adds exactly the strings it spells and no enum |
| `ExtensionTrie.Trie.Insert` | sys/riscv_extension_parser_generator.py:35-42 | afterwards the trie knows exactly the beginnings of the inserted names, each name with the enum of its last entry, unless that is empty |
| `ExtensionTrie.BuildTrie` | sys/riscv_extension_parser_generator.py:392-394 | the same for a whole list of names |
| `ExtensionTrie.WithChildWalk` | sys/riscv_extension_parser_generator.py:39-40 | a new child makes exactly one more string known |
| `ExtensionTrie.NamedMore` | sys/riscv_extension_parser_generator.py:42-42 | a later entry of a name takes the place of the earlier ones |
| `ExtensionCode.SortedKeys` | sys/riscv_extension_parser_generator.py:132-134 | the characters of the children, each once, in order |
| `ExtensionCode.SeekNode` | sys/riscv_extension_parser_generator.py:145-166 | code of a branch that is not taken is skipped as a whole |
| `ExtensionCode.RunNode` | sys/riscv_extension_parser_generator.py:118-168 | the generated code of a node does what walking the trie from it does |
| `ExtensionCode.DescendedMeaning` | sys/riscv_extension_parser_generator.py:118-168 | the walk stops at the end of the longest known beginning |
| `ExtensionCode.ParserMeaning` | sys/riscv_extension_parser_generator.py:243-288 | the parser ends behind the longest beginning of the rest that begins a name, matches iff that is a name, with its last enum, and reports the character it stopped at; on the terminator there is no match |
| `ExtensionCode.EmptyIff` | sys/riscv_extension_parser_generator.py:170-175 | there is no code iff there is no non-empty name |
| `ExtensionCode.GenerateParser` | sys/riscv_extension_parser_generator.py:118-175 | for every list of names the generated code means that, on every input; on the terminator it answers no match at once |
| `FunctionTable.LookupExact` | librz/arch/function.c:205-212 | a lookup by name or address finds a function iff it is in the list under it |
| `FunctionTable.CreatedIndexed` | librz/arch/function.c:145-165 | registering keeps both tables exact indexes |
| `FunctionTable.RenamedIndexed` | librz/arch/function.c:277-301 | so does renaming |
| `FunctionTable.RelocatedIndexed` | librz/arch/function.c:225-262 | so does relocating |
| `FunctionTable.DeletedIndexed` | librz/arch/function.c:104-125 | so does deleting |
| `FunctionTable.RunIndexed` | librz/arch/function.c:104-301 | so does every run of these |
| `FunctionTable.ExecDoes` | librz/arch/function.c:104-301 | each call does what it is named after, or nothing if it would break an index |
| `FunctionTable.MoveKeepsAddresses` | librz/arch/function.c:234-259 | a move keeps the absolute address of every access and the variables found at every instruction address, modulo 2^64 |
| `FunctionTable.MovedInfoFrom` | librz/arch/function.c:234-259 | the moved function has the same name, accesses and variables at the same absolute addresses, modulo 2^64 |
| `FunctionTable.MovedKeysCount` | librz/arch/function.c:219-223 | no two keys collide |
| `FunctionTable.RelocateInstVars` | librz/arch/function.c:219-256 | filling the new table loses no entry |
| `FunctionTable.Functions.CreateFunction` | librz/arch/function.c:145-191 | registered iff name and address are free and the address is not the marker; then with that name and address, and all others stay |
| `FunctionTable.Functions.RenameFunction` | librz/arch/function.c:277-301 | succeeds iff no other function has the name; then only the name changes |
| `FunctionTable.Functions.MoveAccesses` | librz/arch/function.c:238-246 | every access offset of every variable is moved once |
| `FunctionTable.Functions.RelocateFunction` | librz/arch/function.c:225-262 | succeeds iff no other function is at the address; then every access stays at its absolute address, every address finds the variables it found, the name stays, and other functions are untouched |
| `FunctionTable.Functions.DeleteFunction` | librz/arch/function.c:193-195 | takes the function off the list and out of both tables |

## Left out

- Automerge.Automerge: excludes a given empty block that is its own sole predecessor, which the source merges into itself and then uses after it is freed, as do MergePass.RunPass and Analysis.Analysis.Merge.
- Chop.ChopAndMerge: excludes the same; `Chop.NoEmptyLoopIff` says exactly when the cut leaves such a block.
- MergeFlowIff.FlowKeptIff: asks that the offsets of given blocks fit behind near blocks in 16 bits, and that the first instruction of a block that could be moved belongs to it alone.
- Automerge.Automerge: the hash tables are maps and sets, so the order in which functions are searched is not modelled; the result does not depend on it.
- Chop.ChopNoreturn: ends before the merge pass; `Chop.ChopAndMerge` adds it and the release of the references.
- Graph.BlockRecurse: the callback cannot change the graph while it is being traversed.
- BlockCode.SplitCode: says nothing of the halves of a block whose stored offsets do not increase.
- MergeFlow.WellFormedLegible: the size limit is at most the greatest 16-bit value, to which the source clamps its configuration (`librz/core/cconfig.c:2705`).
- Analysis.Analysis.Relocate: a block is identified by its start address, so moving it renames it in the functions' lists, where the source keeps a pointer.
- Store.CreatedBlockLinked: the sum of a start address and a size is not wrapped at 2^64, here and in the ranges; `BlockIndex.ApplyInRange` keeps it below.
- BlockIndex.ApplyValid: the red-black colours are not modelled; the tree is a search tree with arbitrary rotations between the operations.
- BlockIndex.AllIn: the tree is a value, so the shared nodes of the intrusive tree are not captured.
- TestRunner.NextKeeps: a failing thread creation, the interrupt handling and the JSON and progress output are not modelled; running a test is one step with any outcome.
- TestReport.ReportComplete: without the table of paths, log mode counts nothing.
- TestFile.ReadHeredoc: an opening line that is the last line of the file is rejected; the source dereferences NULL there.
- TestFile.LoadCmdTests: `strtol` is a parameter, strings hold no NUL, and warnings are not modelled.
- TestRepair.FixupTests: line numbers other than that of RUN do not wrap.
- TestRepair.FixCmd: reading and writing the file and matching the output filter are not modelled, here and in TestRepair.AcceptAll.
- Purity.FunctionPurity: the function at the target of a reference is part of the graph, and lists of references do not change during the check.
- Reflines.Layout: the disassembly that yields the jumps is not modelled, nor the final sorting of the lines by level.
- ExtensionCode.GenerateParser: without a non-empty name the generated function returns nothing. Names hold no NUL, comments carry no text, and the escaping of characters, the callbacks and the extraction of names from the header are not modelled.
- FunctionTable.Functions.RenameFunction: is stated for registered functions; callbacks, flags and labels are left out.
- FunctionTable.Functions.CreateFunction: the generated name of a nameless function is a parameter.
- Basic block analysis, jump tables, hints and disassembly: driven by architecture plugins and input/output.
- Direct writes to `fcn->addr` and `meta._max` outside these functions: they bypass the modelled operations.
- `rz_analysis_block_recurse_depth_first` and `rz_analysis_block_recurse_followthrough`: would add easier members of the same kind as `Graph.BlockRecurse`.
- Assembly, JSON and fuzz tests, the interactive prompt, and inserting a BROKEN key: only string keys of command tests are edited.
- Hash tables, lists and memory allocation failure: maps and sequences stand for them.
- DWARF, PDB, OMF and class processing, the tokenizers and the command-line programs: glue over other databases and input/output.
