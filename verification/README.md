# Centry verification model

Dafny models of the parts of Centry where an error would be hard to see, each with the
properties it is relied on for.

- **Widget grid.** `Grid`, `Tiler`, `TileSearch`, `CellLoops`, `TilerProofs`, `TilerTheorems`,
  `ExactTilings`, `GaplessTilings` and `TilerBudget` model the budgeted backtracking tiler; `Packer`,
  `PackRun` and `PackerGreedy` the fallback packer; `WidgetLayout`, `Arrangement`, `ArrangementProofs`, `DragProofs` and
  `SwapLanding` the layout, its canonical item order and the drag candidates.
- **Reward pipeline.** `Apportionment`, `ApportionmentProofs` and `LeastShare` model the split of the reward budget,
  `Merkle` and `RewardManifest` the tree, its proofs and the validator, `RewardPipeline` the three
  scripts in sequence.
- **Action compiler.** `CallCompiler` turns a plan into calls, `AllowanceMachine` replays them against
  token allowances, `CallMeaning` says what the calls do and which plans
  compile, `CallAnnotation` recovers which action each call came from.
- **Shared database.** `TaskLeases` and `TaskSafety` model the task queue, `LockTable` and `TxMutex` the
  time-limited locks, `Indexer` and `IndexerSafety` the analytics cursor. Every SQL
  statement that changes rows is one atomic step; runs interleave freely and may crash between any two.
- **Rate limiter and Gateway funding.** `RateLimiter` and `RateLimiterProofs`, and `Gateway`.

Where the source changes things step by step there is a class or method with the same loop, proved
against a function; the theorems are about the function, or about a relation that fixes the result.
`Sorting` stands for the language's stable array sort. `Wrappers` holds the result types.

Properties that do not hold of the code, with the exact condition under which they do:

- The validator refuses amounts of zero, which the allocator and the generator let through
  (`RewardPipeline.AllocationValidatesIff`, `RewardPipeline.SmallBudgetRejected`).
- The runner labels calls with the plan before the risk filter; once a borrow was dropped the labels
  are wrong unless only trailing borrows were dropped and the batch has no approval
  (`CallAnnotation.PlannedLabelsRightIff`, `CallAnnotation.DroppedBorrowMislabels`).
- Nothing records who holds a lock, so mutual exclusion fails once the mutex is taken from a run that
  has outstayed its time, and a late release then lets in further runs (`TxMutex.MutualExclusion`,
  `TxMutex.LateReleaseAdmitsThird`).
- A Gateway payment with an Arc balance can use more sources than needed, or find none when one balance
  would do (`Gateway.FewestIff`, `Gateway.NothingReturnedIff`, `Gateway.ArcCostsASource`).
- A drag swap need not land on the target it was offered when the grid has a gap
  (`SwapLanding.SwapLandsIff`, `SwapLanding.SwapNeedNotLand`), and is only sound when ids are not shared
  (`DragProofs.SwapValidIff`, `DragProofs.SwapOrderPermutesIff`, `SwapLanding.SharedIdBreaksSwap`). The
  latter concerns the component's interface only: its one caller, `frontend/app/app/page.jsx:59-66`,
  passes six constant items with distinct ids.

`dafny verify dfyconfig.toml` checks everything.

## Model

| member | source | states |
|---|---|---|
| TilerTheorems.TileSound | frontend/components/ui/draggable-widget-grid.tsx:61-116 | a successful tiling holds exactly the given items, each at its own span, on the board, pairwise disjoint, in strict row-major order |
| TilerTheorems.TileLeavesNoGap | frontend/components/ui/draggable-widget-grid.tsx:87-113 | every cell before the origin of a placed item is covered by an earlier one |
| TilerTheorems.TileKeepsShapeOrder | frontend/components/ui/draggable-widget-grid.tsx:98-110 | the output is a bijection with the input that keeps items of one shape in input order |
| TilerTheorems.TileComplete | frontend/components/ui/draggable-widget-grid.tsx:61-116 | when the search fails with its budget not below zero, no order of the items, each at the first free cell, fits the rows |
| ExactTilings.NoExactTiling | frontend/components/ui/draggable-widget-grid.tsx:61-116 | when moreover the areas fill the grid, no disjoint placement of the items exists at all, however built |
| TilerTheorems.TileFixpoint | frontend/components/ui/draggable-widget-grid.tsx:61-116 | a tiling's own item order reproduces the same placement, with one `place` call an item and so no backtracking |
| TilerTheorems.AreaPermutes | frontend/components/ui/draggable-widget-grid.tsx:64-65 | the total area, and so the number of rows, is the same for every order of the items |
| TilerTheorems.BoardIsLeast | frontend/components/ui/draggable-widget-grid.tsx:64-65 | the board has the least number of whole rows that hold the items' total area, each item counted at its span |
| Grid.SpanOf | frontend/components/ui/draggable-widget-grid.tsx:56-59 | wide and large items span two columns where there are two, tall and large ones two rows, all others one |
| Grid.ContainsIffCells | frontend/components/ui/draggable-widget-grid.tsx:50-54 | one slot contains another exactly when it covers all its cells |
| GaplessTilings.TilingIffGapless | frontend/components/ui/draggable-widget-grid.tsx:61-116 | a placement listed by position is the tiling of its own order exactly if it leaves no gap before an origin |
| GaplessTilings.GaplessCompletes | frontend/components/ui/draggable-widget-grid.tsx:87-113 | placing the items in position order, each at the first free cell, rebuilds a gapless placement |
| GaplessTilings.FullIsGapless | frontend/components/ui/draggable-widget-grid.tsx:64-66 | a placement that fills the board has no gap |
| TilerBudget.SevenItemsDecided | frontend/components/ui/draggable-widget-grid.tsx:61-116 | with at most seven items the tiler succeeds exactly if a gapless placement of the items exists |
| TilerBudget.SevenItemsFit | frontend/components/ui/draggable-widget-grid.tsx:69-89 | with at most seven items, and the overview page has six, the budget never runs out |
| TilerBudget.SearchSpends | frontend/components/ui/draggable-widget-grid.tsx:96-103 | a call of `place` tries no shape twice, so it spends no more than the search tree over the shapes of the items |
| Tiler.SearchComplete | frontend/components/ui/draggable-widget-grid.tsx:87-113 | from any board reached: a failure within budget means that no order of the unused items completes, so the `tried` pruning loses no solution |
| Tiler.TryComplete | frontend/components/ui/draggable-widget-grid.tsx:98-112 | the same from item `i` of the loop on, for orders that start with a shape not tried yet |
| Tiler.SameShapeSwap | frontend/components/ui/draggable-widget-grid.tsx:101-103 | two items of one shape can trade places in any completing order: why the pruning is sound |
| ExactTilings.ReplayFirstFree | frontend/components/ui/draggable-widget-grid.tsx:91-110 | any placement that fills the board can be rebuilt one item at a time at the first free cell |
| ExactTilings.PlacementCoversBoard | frontend/components/ui/draggable-widget-grid.tsx:64-66 | a disjoint placement whose area is the board's leaves no cell uncovered |
| ExactTilings.CoveredSize | frontend/components/ui/draggable-widget-grid.tsx:64-65 | disjoint placed slots cover as many cells as their areas add up to |
| Grid.OverlapIffShareCell | frontend/components/ui/draggable-widget-grid.tsx:44-48 | the four comparisons of `overlap` hold exactly when the two slots share a cell of the grid |
| Grid.UnmarkRestores | frontend/components/ui/draggable-widget-grid.tsx:81-110 | clearing what was marked on free cells gives back the same array |
| TileSearch.Tile | frontend/components/ui/draggable-widget-grid.tsx:61-116 | the running search over shared arrays returns what the search function specifies, on the board of `TilerTheorems.BoardIsLeast` |
| TileSearch.Searcher.Place | frontend/components/ui/draggable-widget-grid.tsx:87-113 | a failed call leaves `occupied` and `used` exactly as they were; a success writes the specified placement and nothing before `index`; the budget is the specified one |
| TileSearch.Searcher.Trial | frontend/components/ui/draggable-widget-grid.tsx:104-110 | one trial: marking, going on, and undoing the mark on failure |
| TileSearch.Searcher.constructor | frontend/components/ui/draggable-widget-grid.tsx:64-69 | all cells free, no item used, budget 20000 |
| CellLoops.ScanFree | frontend/components/ui/draggable-widget-grid.tsx:71-79 | the bounds test and nested scan decide whether the slot is on the board over free cells |
| CellLoops.MarkCells | frontend/components/ui/draggable-widget-grid.tsx:81-85 | the nested loops set exactly the cells under the slot |
| TilerProofs.PlacedIncreasing | frontend/components/ui/draggable-widget-grid.tsx:91-95 | origins strictly increase, the first one at the first free cell |
| TilerProofs.PlacedDisjoint | frontend/components/ui/draggable-widget-grid.tsx:87-113 | no two slots of a completing order overlap |
| TilerProofs.OrderFresh | frontend/components/ui/draggable-widget-grid.tsx:98-104 | no item is placed twice |
| TilerProofs.SearchFirstOfShape | frontend/components/ui/draggable-widget-grid.tsx:98-104 | at every step the search takes the first unused item of its shape |
| PackRun.Pack | frontend/components/ui/draggable-widget-grid.tsx:118-191 | the running packer returns the specified stack of bands; its loop ends because each band takes at least one item |
| PackRun.PackBand | frontend/components/ui/draggable-widget-grid.tsx:123-188 | one band: what is placed, how high it is, and the exact rest deferred |
| PackRun.FillBand | frontend/components/ui/draggable-widget-grid.tsx:129-159 | first-fit up to the first item that does not fit, everything after it deferred in order |
| PackRun.StretchHoles | frontend/components/ui/draggable-widget-grid.tsx:161-182 | the in-place growth gives the specified rectangles and occupancy |
| PackRun.FindFirstFit | frontend/components/ui/draggable-widget-grid.tsx:130-146 | the scan finds the first cursor where the span fits, or -1 |
| Packer.PackingValid | frontend/components/ui/draggable-widget-grid.tsx:118-191 | every item once, in input order, within the columns, never smaller than its span, no two overlapping |
| Packer.BandInvariant | frontend/components/ui/draggable-widget-grid.tsx:123-188 | after first-fit and stretching `occupied` is the disjoint union of the placed rectangles, and the band holds a non-empty prefix of what remained |
| Packer.BandPlacesSome | frontend/components/ui/draggable-widget-grid.tsx:123-188 | every band places at least one item: the termination measure of the outer loop |
| Packer.FillKeepsBand | frontend/components/ui/draggable-widget-grid.tsx:129-159 | first-fit keeps the union, disjointness and bounds |
| Packer.FillTakesPrefix | frontend/components/ui/draggable-widget-grid.tsx:148-151 | what first-fit places is a prefix of the remaining items |
| Packer.GrowKeepsBand | frontend/components/ui/draggable-widget-grid.tsx:161-182 | growing one rectangle by exactly one free cell keeps the union, disjointness and bounds |
| Packer.StretchKeepsBand | frontend/components/ui/draggable-widget-grid.tsx:161-182 | one hole: whichever neighbour grows, the invariant stays and no item changes |
| Packer.WidenGrows | frontend/components/ui/draggable-widget-grid.tsx:165-171 | a rectangle that passes the test for growing right grows by exactly the hole |
| Packer.HeightenGrows | frontend/components/ui/draggable-widget-grid.tsx:172-177 | a rectangle that passes the test for growing down grows by exactly the hole |
| Packer.StackValid | frontend/components/ui/draggable-widget-grid.tsx:184-187 | valid bands put below one another at their row offsets stay valid and disjoint |
| PackerGreedy.BandHeightIs | frontend/components/ui/draggable-widget-grid.tsx:124-124 | a band is as high as the highest of the first `columns` items that remain |
| PackerGreedy.FillStep | frontend/components/ui/draggable-widget-grid.tsx:129-159 | each item goes to the first place it fits beside those before it |
| PackerGreedy.FillStops | frontend/components/ui/draggable-widget-grid.tsx:148-151 | first-fit stops only at an item that fits nowhere on the band |
| PackerGreedy.HoleFilled | frontend/components/ui/draggable-widget-grid.tsx:161-182 | a hole is filled exactly if some rectangle can grow into it alone: the first that can grow right, else the first that can grow down |
| PackerGreedy.BandsTouch | frontend/components/ui/draggable-widget-grid.tsx:184-187 | every band starts with its first item in its corner, right below the rows of the bands before it |
| Packer.FirstFit | frontend/components/ui/draggable-widget-grid.tsx:130-146 | the first cursor where the span fits, none before it does |
| WidgetLayout.LayoutWidgets | frontend/components/ui/draggable-widget-grid.tsx:193-195 | the tiler's result, or the packer's where it has none |
| ArrangementProofs.LayoutValid | frontend/components/ui/draggable-widget-grid.tsx:193-195 | whichever engine answers: every item once, on real slots within the columns, none overlapping |
| ArrangementProofs.CanonicalPermutes | frontend/components/ui/draggable-widget-grid.tsx:201-222 | the canonical order is a permutation of the items, for all items and columns, repeated ids included |
| ArrangementProofs.CanonicalKeepsLayout | frontend/components/ui/draggable-widget-grid.tsx:201-222 | reordering leaves the position of every item unchanged |
| ArrangementProofs.CanonicalIdempotent | frontend/components/ui/draggable-widget-grid.tsx:201-222 | canonicalising twice is canonicalising once |
| ArrangementProofs.CanonicalOfTiling | frontend/components/ui/draggable-widget-grid.tsx:201-222 | when the tiler succeeds the canonical order is the tiling read by position |
| ArrangementProofs.CanonicalIs | frontend/components/ui/draggable-widget-grid.tsx:201-222 | whichever engine answers: the canonical order is the items by position if laying them out so leaves everything where it was, and otherwise the order given |
| ArrangementProofs.StableMeansDistinct | frontend/components/ui/draggable-widget-grid.tsx:211-219 | the stability test can only pass when no id repeats |
| ArrangementProofs.DuplicateIdsStayPut | frontend/components/ui/draggable-widget-grid.tsx:201-222 | with a repeated id the items come back in the given order |
| ArrangementProofs.StableSamePlacement | frontend/components/ui/draggable-widget-grid.tsx:212-219 | a passed stability test means exactly the same placement |
| ArrangementProofs.MoveToPermutes | frontend/components/ui/draggable-widget-grid.tsx:224-231 | a move is a permutation that puts the item at its index and keeps the others in order |
| ArrangementProofs.MoveToUndone | frontend/components/ui/draggable-widget-grid.tsx:224-231 | with distinct ids, moving the item back restores the list |
| Arrangement.CandidatesFor | frontend/components/ui/draggable-widget-grid.tsx:269-319 | the loops collect the specified candidates; `DragProofs.CandidatesAre` says which |
| DragProofs.CandidatesAre | frontend/components/ui/draggable-widget-grid.tsx:269-319 | for an item of the list: first the swaps, exactly the offered ones, then one move to every other index, in order, each with the slot the item then gets |
| DragProofs.NoCandidates | frontend/components/ui/draggable-widget-grid.tsx:276-277 | an item that is not in the list has no candidates |
| DragProofs.SwappableIff | frontend/components/ui/draggable-widget-grid.tsx:286-289 | a target is free of the dragged slot, at least two items reach into it, and whoever does lies in it whole |
| Arrangement.CollectSwaps | frontend/components/ui/draggable-widget-grid.tsx:283-308 | the two loops over target cells collect the swaps row by row |
| DragProofs.SwapKeepsPlacement | frontend/components/ui/draggable-widget-grid.tsx:285-299 | the swap gives a disjoint, in-bounds placement of the same items in the same shapes: the dragged item on the target, the displaced ones side by side as before where it was, the others unmoved |
| DragProofs.SwapValidIff | frontend/components/ui/draggable-widget-grid.tsx:291-299 | and it does so exactly when no other item has the dragged id |
| DragProofs.SwapOrderPermutesIff | frontend/components/ui/draggable-widget-grid.tsx:279-308 | the order a swap proposes is a permutation exactly when items sharing an id are equal |
| DragProofs.SwapsOffered | frontend/components/ui/draggable-widget-grid.tsx:283-308 | a swap is offered exactly for the targets on the occupied rows that leave the dragged slot and hold two or more whole items |
| DragProofs.OfferedSwapsValid | frontend/components/ui/draggable-widget-grid.tsx:283-308 | every swap offered is the position order of a valid placement with the dragged item on its target and every slot of its old shape |
| SwapLanding.SwapLandsIff | frontend/components/ui/draggable-widget-grid.tsx:283-308 | in a tiled grid the proposed order is tiled as offered exactly if the offered placement leaves no gap before an origin; then the order is canonical and the dragged item is on its target |
| SwapLanding.FullGridSwapsLand | frontend/components/ui/draggable-widget-grid.tsx:283-308 | when the items fill their rows exactly, every swap offered lands on its target |
| SwapLanding.SwapNeedNotLand | frontend/components/ui/draggable-widget-grid.tsx:283-308 | a grid with a gap where the dragged item does not land on the target it was offered |
| SwapLanding.SharedIdBreaksSwap | frontend/components/ui/draggable-widget-grid.tsx:279-308 | two items with one id: a swap is offered that puts both on the target and whose order is no permutation |
| DragProofs.EveryMoveOffered | frontend/components/ui/draggable-widget-grid.tsx:310-316 | a move is offered to every index but the item's own |
| DragProofs.CandidatesPermute | frontend/components/ui/draggable-widget-grid.tsx:269-319 | every candidate order, swap or move, is a permutation of the items |
| ApportionmentProofs.AllotmentOptimal | scripts/generate-reward-allocations.js:591-736 | no integer split of the budget has a smaller sum of |amount * totalPower - budget * power| |
| ApportionmentProofs.MarginalPrice | scripts/generate-reward-allocations.js:635-736 | one price per unit at which no single position gains by giving up or taking units: the certificate of optimality |
| ApportionmentProofs.PricedMove | scripts/generate-reward-allocations.js:591-736 | changing one amount by any number of units costs at least the price of each |
| ApportionmentProofs.QuotaRule | scripts/generate-reward-allocations.js:591-736 | every amount lies within one unit of its exact quota, and equals an integral quota |
| ApportionmentProofs.MorePowerNeverLess | scripts/generate-reward-allocations.js:635-736 | more voting power never gets less; at equal power the smaller token id does not |
| ApportionmentProofs.UnitsInOrder | scripts/generate-reward-allocations.js:635-736 | nobody gets more than one unit beyond its floor; the larger remainder gets its unit first, at equal remainders more power, then the smaller token id |
| ApportionmentProofs.EveryPositionAllotted | scripts/generate-reward-allocations.js:757-787 | the output lists every position once, with its owner and power, by ascending token id |
| ApportionmentProofs.AmountsNonNegative | scripts/generate-reward-allocations.js:591-736 | no amount is negative |
| ApportionmentProofs.InputOrderIrrelevant | scripts/generate-reward-allocations.js:591-787 | any order of the same positions gives the same output |
| Apportionment.BudgetExact | scripts/generate-reward-allocations.js:713-755 | the amounts add up to the budget and the hand-out never wraps around, so the mismatch error cannot occur |
| Apportionment.LeftoverBound | scripts/generate-reward-allocations.js:621-633 | fewer leftover units than positions with a non-zero remainder |
| Apportionment.ServedShareRounded | scripts/generate-reward-allocations.js:713-736 | each share is its quota rounded down or up, up only with a non-zero remainder |
| Apportionment.SharesAddUp | scripts/generate-reward-allocations.js:591-619 | floors and remainders together account for the whole budget |
| Apportionment.Allocate | scripts/generate-reward-allocations.js:571-787 | fails exactly without positions; otherwise returns the specified allocation by token id |
| Apportionment.HandOut | scripts/generate-reward-allocations.js:713-736 | the loop with its wrapping index hands one unit to each of the first positions |
| Apportionment.CollectPositions | scripts/generate-reward-allocations.js:466-569 | exactly the token ids below the limit with an owner other than zero and positive power, read from `votingPower` and only where that fails from `balanceOfNFT`, each once |
| Merkle.ProofComplete | scripts/generate-reward-manifest.js:152-279 | for every number of leaves and every leaf, promoted nodes included, the generated proof folds to the root |
| Merkle.ProofShort | scripts/generate-reward-manifest.js:224-271 | a proof has at most ceil(log2 n) siblings |
| Merkle.ProofSound | scripts/validate-reward-manifest.js:31-46 | with hashes as free constructors, any proof that folds to the root is for a pair the root was built from |
| Merkle.RootMembers | scripts/generate-reward-manifest.js:178-219 | the root is built from exactly the leaves |
| Merkle.PairCommutes | scripts/generate-reward-manifest.js:120-150 | the pair hash does not depend on the order of its arguments |
| Merkle.SmallerFirst | scripts/generate-reward-manifest.js:120-150 | a pair is hashed with the smaller digest first, from either side |
| Merkle.NextLevelAt | scripts/generate-reward-manifest.js:182-211 | a node of the next level is the hash of its pair, or the odd node promoted |
| Merkle.LevelsFrom | scripts/generate-reward-manifest.js:164-219 | each stored level generates the ones above it, the last is a single node |
| Merkle.BuildMerkleTree | scripts/generate-reward-manifest.js:152-279 | fails exactly without leaves; otherwise the specified root and one proof a key |
| Merkle.BuildLevels | scripts/generate-reward-manifest.js:164-219 | the loop stores all levels and ends at the root |
| Merkle.PairUp | scripts/generate-reward-manifest.js:182-211 | one pass builds the next level |
| Merkle.BuildProof | scripts/generate-reward-manifest.js:230-265 | the walk up the levels collects the siblings that exist |
| Merkle.VerifyProof | scripts/validate-reward-manifest.js:40-46 | accepts exactly if the fold over the proof reaches the root |
| RewardManifest.Generate | scripts/generate-reward-manifest.js:281-423 | succeeds exactly for a non-empty list of distinct token ids with encodable values, and carries every position with its amount and instructions, empty swap data written as `0x` |
| RewardManifest.LeavesAscend | scripts/generate-reward-manifest.js:386-415 | the leaves of the tree stand by ascending token id |
| RewardManifest.OrderIrrelevant | scripts/generate-reward-manifest.js:370-423 | root and proofs do not depend on the order of the positions |
| RewardManifest.GeneratedAcceptedIff | scripts/validate-reward-manifest.js:67-112 | a generated manifest validates exactly when every amount is positive and its swap instructions are well-formed and covered by it |
| RewardManifest.AcceptedAreAllocated | scripts/validate-reward-manifest.js:67-112 | whatever validates against a generated root lists only allocated positions, with their exact amounts, each once |
| RewardManifest.CheckFromIff | scripts/validate-reward-manifest.js:67-112 | the validator accepts exactly if every entry is good by itself and no token id repeats |
| RewardManifest.Validate | scripts/validate-reward-manifest.js:67-112 | accepts exactly if every entry stands by itself and no token id repeats; otherwise names the first entry that fails and the first thing wrong with it in the order of the checks |
| RewardPipeline.AllocationValidatesIff | scripts/validate-reward-manifest.js:79-80 | allocate, build, validate: accepted exactly when the weakest position's floor share is positive or fewer positions are served before it than units are left over |
| RewardPipeline.PositiveAmountsValidate | scripts/validate-reward-manifest.js:79-80 | the manifest of an allocation is accepted exactly when no amount is zero |
| LeastShare.AllPositiveIff | scripts/generate-reward-allocations.js:591-736 | everybody gets something exactly if the position of least power and largest token id does, read off budget and powers |
| LeastShare.WeakestGetsLeast | scripts/generate-reward-allocations.js:635-736 | nobody gets less than that position |
| RewardPipeline.SmallBudgetRejected | scripts/validate-reward-manifest.js:79-80 | a budget smaller than the number of positions always ends in a rejected manifest |
| AllowanceMachine.BatchSafe | agent-runner/src/index.js:1738-1930 | replayed with any permitted pulls, no call of a compiled batch exceeds its allowance; at the end approved pairs are at zero and all others at their start less what was pulled |
| AllowanceMachine.ActionKeepsSound | agent-runner/src/index.js:1755-1912 | each action keeps the tracked allowance a lower bound of the real one |
| AllowanceMachine.EnsureThenPull | agent-runner/src/index.js:1663-1708 | after `ensureBatchAllowance` the pull it was for succeeds, and the tracking stays a lower bound |
| AllowanceMachine.ResetsReplay | agent-runner/src/index.js:1914-1926 | the cleanup calls zero exactly the tracked pairs |
| AllowanceMachine.SizeGuardNeverFires | agent-runner/src/index.js:1928-1928 | one to three calls an action, so the size check at the end cannot fail |
| AllowanceMachine.ApprovalFreeIff | agent-runner/src/index.js:1691-1703 | a plan without explicit approvals compiles without any approval exactly when the on-chain allowances cover all it pulls |
| AllowanceMachine.ActionApproval | agent-runner/src/index.js:1691-1707 | one action gets an approval exactly when its pull exceeds what remains |
| CallMeaning.BatchPerforms | agent-runner/src/index.js:1738-1930 | one call an action, in order and the one it asks for (operation, asset, amount, fee, floor, account, vote), behind at most an approval of exactly its amount; then one reset to zero for every pair approved, in the order of the first approvals |
| CallMeaning.CompilesIff | agent-runner/src/index.js:1738-1930 | a plan compiles exactly if it is short enough and every action is allowed and acceptable by itself; otherwise it is refused for its length or for the first action that is not |
| CallMeaning.ActionEmits | agent-runner/src/index.js:1755-1912 | an action emits the call it asks for, after at most an approval for exactly that call |
| CallMeaning.SameRefusal | agent-runner/src/index.js:1755-1912 | what is wrong with an action does not depend on the calls before it |
| CallCompiler.ActionLimit | agent-runner/src/index.js:1741-1741 | the configured limit between 1 and 4, 4 when unset |
| CallCompiler.BuildCalls | agent-runner/src/index.js:1738-1930 | the loop returns the specified batch or the first error; `CallMeaning.BatchPerforms` and `CallMeaning.CompilesIff` say which |
| CallCompiler.Builder.AddAction | agent-runner/src/index.js:1755-1912 | one turn of the loop, on the running state; `CallMeaning.ActionEmits` says what it emits |
| CallCompiler.Builder.EnsureBatchAllowance | agent-runner/src/index.js:1663-1708 | approve what falls short, then use the amount up: calls, allowances and cleanup together |
| CallCompiler.Builder.TrackCleanup | agent-runner/src/index.js:1750-1753 | a pair already tracked keeps its place |
| CallAnnotation.AnnotationInverts | agent-runner/src/index.js:719-742 | on the list that built the calls: each call gets the index of its action, inserted approvals the type approve, and exactly the cleanup calls stay unlabelled |
| CallAnnotation.PlannedLabelsRightIff | agent-runner/src/index.js:2517-2521 | labelling with the unfiltered plan, as the runner does, is right exactly when nothing was dropped, or only borrows at the end were dropped and the batch has no approval |
| CallAnnotation.DroppedBorrowMislabels | agent-runner/src/index.js:2517-2521 | a borrow dropped before a vote: the vote's call is labelled as the borrow |
| CallAnnotation.FirstDropped | agent-runner/src/index.js:423-428 | where the filtered plan first departs from the unfiltered one, a borrow was dropped |
| CallAnnotation.ActionEmission | agent-runner/src/index.js:730-740 | the shape the labelling relies on: one call, or an approval and one call for supply, repay and swap |
| CallAnnotation.TypeOf | agent-runner/src/index.js:722-722 | each kind of action has its own name |
| CallAnnotation.AnnotateStep | agent-runner/src/index.js:730-740 | one turn of the labelling consumes exactly the calls of its action |
| CallAnnotation.AnnotateActionCalls | agent-runner/src/index.js:719-742 | the loop writes the specified labels in place |
| TaskSafety.LeasesExclusive | agent-db/src/index.js:418-492 | over every run: no task completes twice or is claimed after completing, and no claim succeeds before every earlier lease on the task ran out |
| TaskSafety.OnlyLatestClaimerCompletes | agent-db/src/index.js:478-492 | over every run: a completion succeeds exactly for the lease of the latest claim of a task that has not completed |
| TaskSafety.AttemptsCountClaims | agent-db/src/index.js:431-456 | over every run: `attempts` is the number of successful claims |
| TaskSafety.TerminalRowsFrozen | agent-db/src/index.js:485-490 | no operation removes a row or changes a terminal one |
| TaskSafety.TerminalRowsFrozenForever | agent-db/src/index.js:400-492 | over every run: a terminal row stays as it is |
| TaskSafety.ClaimableIff | agent-db/src/index.js:438-448 | over every run: a task can be claimed exactly by its addressee while nobody has finished it and its latest lease, if any, has run out, however often it was claimed before |
| TaskSafety.CandidatesIff | agent-db/src/index.js:438-448 | over every run: the candidates of a claim are exactly those tasks, or the one asked for among them |
| TaskSafety.ClaimReadsBackPicked | agent-runner/src/index.js:910-942 | over every run: a claim picks the oldest of the tasks up for claim, up to the limit, and what it reads back at any later moment are those of them nobody has claimed or finished in between |
| TaskSafety.StepKeepsInv | agent-db/src/index.js:400-492 | every operation keeps rows and history consistent |
| TaskLeases.TaskStore.Enqueue | agent-db/src/index.js:400-416 | refused exactly for an empty id, addressee or task or one over 4000 characters, and then nothing changes; a new task is the only row added and is claimable by its addressee and nobody else at any time; a known id changes nothing |
| TaskLeases.TaskStore.LeaseOldest | agent-runner/src/index.js:910-935 | the UPDATE leases the oldest candidates up to the limit and changes no other row; candidates are the agent's rows that are pending or whose lease has run out |
| TaskLeases.LeaseMs | agent-db/src/index.js:422-422 | five minutes when absent, otherwise the length asked for, between 30 seconds and ten minutes |
| TaskLeases.ClaimLimit | agent-db/src/index.js:425-425 | one for a named task, otherwise the limit asked for between 1 and 20, 20 when absent |
| TaskLeases.TaskStore.ReadLeased | agent-runner/src/index.js:937-942 | the SELECT returns exactly the agent's rows processing under the lease when it runs, oldest first |
| TaskLeases.TaskStore.Claim | agent-db/src/index.js:418-465 | the two statements when nothing comes between them; `TaskSafety.ClaimReadsBackPicked` has the general case |
| TaskLeases.TaskStore.Complete | agent-db/src/index.js:478-492 | succeeds exactly for a processing row under that lease; then the row is terminal, no lease completes it again, nobody can claim it and no other row changed; otherwise the lease is reported lost and nothing changes |
| TaskLeases.OrderByAge | agent-db/src/index.js:444-445 | all the ids once, oldest first |
| TxMutex.MutualExclusion | agent-runner/src/index.js:2527-2606 | over every run: never two runs between taking and releasing the transaction mutex, exactly if it is never taken while a run inside has outstayed its time |
| TxMutex.ExecutionExclusion | agent-runner/src/index.js:2047-2051 | over every run: never two live runs with one execution lock, exactly if none is taken while the run that has it has outstayed its time |
| TxMutex.BroadcastsInsideSection | agent-runner/src/index.js:2527-2606 | if the mutex is never taken while a run inside has outstayed its time, every broadcast and release is by the run that took it last |
| TxMutex.ReleasesAreEarned | agent-runner/src/index.js:2527-2606 | over every run, late or not: a run that failed to take the mutex never broadcasts or releases it |
| TxMutex.IntrusionIff | agent-runner/src/index.js:604-622 | from a state with no overlap so far, an acquisition makes one exactly when a run inside has outstayed its time |
| TxMutex.LateReleaseAdmitsThird | agent-runner/src/index.js:618-622 | a run in which a late run is joined inside by a second, then releases the second one's mutex, and a third gets in with nobody inside late |
| TxMutex.StepKeepsMutex | agent-runner/src/index.js:2527-2606 | every step, with the mutex taken on time, keeps its row in agreement with the run inside; execution locks do not matter |
| TxMutex.StepKeepsLocks | agent-runner/src/index.js:2047-2051 | every step, with execution locks taken on time, keeps their rows in agreement with the live runs |
| TxMutex.LockHandedOver | agent-runner/src/index.js:2803-2803 | a run that ends frees its execution lock: the next run that asks for it gets it |
| TxMutex.MutexHandedOver | agent-runner/src/index.js:2604-2606 | a run that leaves the section frees the mutex: the next run that asks for it gets in |
| LockTable.LockStore.TryLock | agent-runner/src/index.js:604-616 | succeeds exactly if the lock is free or past its time, and it is then taken until exactly the end of its lifetime; otherwise no row changes |
| LockTable.LockStore.Unlock | agent-runner/src/index.js:618-622 | whoever held the lock, it is free at every later clock reading, and the freedom of every other lock is unchanged |
| LockTable.Ttl | agent-runner/src/index.js:606-606 | the lifetime asked for, brought between 5 seconds and 10 minutes |
| IndexerSafety.CursorCovers | agent-runner/src/index.js:2820-2885 | over every interleaving of complete, interrupted and overlapping runs while the chain grows: each event from the start block to the cursor has its own row under its transaction hash and log index, and every row is an on-chain event |
| IndexerSafety.RowsKept | agent-runner/src/index.js:2859-2882 | no step removes or rewrites a row |
| IndexerSafety.LoneRunAdvances | agent-runner/src/index.js:3101-3118 | a run that overlaps nothing moves the cursor by the smaller of 2000 and what is left, and covers what it passed |
| IndexerSafety.LoneRunIsIndexRun | agent-runner/src/index.js:3084-3123 | the steps of such a run add up to what `RunIndexer` does to table and cursor |
| IndexerSafety.StepKeepsInv | agent-runner/src/index.js:2820-2885 | every step of every run keeps the coverage of cursor and pending work |
| Indexer.FetchIsTheWindow | agent-runner/src/index.js:2822-2831 | a fetch brings exactly the events of its window |
| Indexer.EveryMissingCounts | agent-runner/src/index.js:2838-2882 | every event without a row gets one of its own: the table grows by their number |
| Indexer.Analytics.IndexProtocolEvents | agent-runner/src/index.js:2820-2885 | afterwards every event of the window has its row under its transaction hash and log index; the count is the number of events that had none |
| Indexer.Analytics.RunIndexer | agent-runner/src/index.js:3084-3123 | table, cursor and the number of blocks indexed after a whole run |
| RateLimiterProofs.EvictionInvisible | frontend/lib/rateLimit.js:12-49 | with a clock that never goes back, every reply is that of a limiter that never evicts, whatever the options of each request |
| RateLimiterProofs.WindowQuota | frontend/lib/rateLimit.js:26-49 | with a fixed limit: at most `max` grants a window, a request is granted exactly if fewer came before it, `limit` is the limit and `remaining` what is left |
| RateLimiterProofs.WindowOfReply | frontend/lib/rateLimit.js:34-48 | a request is answered for the window of its key's previous request while that runs, and otherwise for a new one that starts now |
| RateLimiterProofs.FirstWindow | frontend/lib/rateLimit.js:34-38 | a key's first request opens a window that starts now |
| RateLimiterProofs.IntervalQuota | frontend/lib/rateLimit.js:26-49 | with fixed options: fewer than `2 * max` grants to a key in any half-open interval as long as a window |
| RateLimiterProofs.IntervalQuotaReached | frontend/lib/rateLimit.js:26-49 | for every limit and window some requests are granted `2 * max - 1` times in such an interval |
| RateLimiterProofs.StepKeepsSameLive | frontend/lib/rateLimit.js:26-49 | one request keeps the evicting and the never-evicting table equal on running windows, and gives the same reply |
| RateLimiter.Limiter.RateLimit | frontend/lib/rateLimit.js:26-49 | the reply, the new buckets and their order, with clean-up only when a window opens |
| RateLimiter.Limiter.CleanupExpired | frontend/lib/rateLimit.js:12-19 | removes expired buckets only, the oldest, until 10000 are left or none is expired; the rest keep their order |
| RateLimiter.CleanedUpOnce | frontend/lib/rateLimit.js:12-19 | that description allows one outcome only |
| RateLimiter.MaxOf | frontend/lib/rateLimit.js:27-27 | the limit rounded down, at least 1, 30 when absent |
| RateLimiter.WindowOf | frontend/lib/rateLimit.js:28-28 | the window rounded down, at least a second, a minute when absent |
| Gateway.PickGatewaySources | frontend/lib/gatewayFunding.js:41-67 | for a positive need that the first `maxSources` sorted balances cover, the result sums exactly to it, takes them from the front and drains all but the last; otherwise it is empty |
| Gateway.PickGatewaySource | frontend/lib/gatewayFunding.js:69-71 | the preferred balance if it covers the need alone, otherwise none |
| Gateway.EligibleMore | frontend/lib/gatewayFunding.js:43-49 | a balance can pay exactly if its chain is known and its amount parses to more than nothing; those that can keep their order |
| Gateway.FewSources | frontend/lib/gatewayFunding.js:50-67 | no covering choice is smaller by more than the number of Arc balances, so with none the fewest sources are used |
| Gateway.FewestIff | frontend/lib/gatewayFunding.js:50-67 | the fewest sources are used exactly if, whenever the `m` largest balances cover the need, so do the first `m` in the picker's own order |
| Gateway.NothingReturnedIff | frontend/lib/gatewayFunding.js:58-66 | an empty result means that no choice within `maxSources` covers the need, exactly if the preferred balances cover it or the largest ones do not |
| Gateway.NothingReturnedWithoutArc | frontend/lib/gatewayFunding.js:58-66 | with no Arc balance an empty result always means that |
| Gateway.LengthIsLeast | frontend/lib/gatewayFunding.js:60-66 | the first `m` candidates cover the need exactly if the payment uses at most `m` |
| Gateway.ArcCostsASource | frontend/lib/gatewayFunding.js:50-54 | with a small Arc balance two sources are used where one would do, and one alone is not found |
| Gateway.TopIsWorthMost | frontend/lib/gatewayFunding.js:50-55 | in the sorted balances no choice is worth more than the Arc balances and as many of the largest others |
| Gateway.LastSourceNeeded | frontend/lib/gatewayFunding.js:58-66 | without its last source a payment falls short |
| Sorting.SortOrdered | scripts/generate-reward-allocations.js:635-711 | the stable sort used by every core orders its input |
| Sorting.SortStable | frontend/lib/gatewayFunding.js:50-55 | elements that neither precedes stay in input order, as equal balances do |
| Sorting.SortCanonical | scripts/generate-reward-allocations.js:635-711 | where the comparator separates the elements the sorted result does not depend on the input order |

## Left out

- The React components, hit-testing of a drag and animation around the grid; a candidate is its order and slot, without the pixel rectangle.
- An item's label and the caption fields of a position, which no algorithm reads.
- RPC reads, HTTP handlers, wallets, viem and ethers encoding: their results are parameters, calls are datatypes.
- The reading of plans, prompts and policy: the policy check, the quoter, the agent registry and on-chain allowances are functions given to the compiler, and amounts are already parsed.
- AllowanceMachine.BatchSafe: a pool or router call takes at most its stated amount; what the contracts do beyond that, and other senders changing an allowance during the batch, are not modelled.
- CallCompiler.BuildCalls: the four known tokens and the two allowed spenders are the only addresses; the swap deadline and recipient are left out.
- Real keccak: completeness holds for any hash with a total order on digests.
- Merkle.ProofSound: hashes are idealised as free constructors, and a leaf hash (over 32 bytes) never equals a pair hash (over 64 bytes).
- RewardManifest.Validate: malformed JSON fields, the address check of `debtAsset` and the comparison with on-chain roots are left out.
- Choosing the epoch and the reward budget, and the lock amounts copied into the allocation file.
- TaskLeases.TaskStore.Complete: the `last_error` and `updated_at` columns are left out, and the result is text already.
- TaskLeases.TaskStore.Claim: the model follows agent-db, where a lease length or limit of zero counts as absent; the runner clamps it instead. Rows of equal age may be picked in any order.
- TaskSafety.LeasesExclusive: lease ids are fresh, which the runner gets from random UUIDs.
- LockTable.LockStore.TryLock: the lifetime is clamped as the runner does it; agent-db's own copy caps it at five minutes.
- TxMutex.MutualExclusion: the `__centry_tx_mutex__` row is used by no agent id, and the release at the end of a section does not itself fail.
- IndexerSafety.CursorCovers: the start block is a parameter, because the digit test on the configured one never matches and the code then counts back from the head; the chain has no reorganisations; the fetches of a window's event kinds are one step; logs with missing fields do not occur.
- The hourly protocol snapshot that follows the indexer.
- SwapLanding.SwapLandsIff: covers layouts the tiler made; after a fallback packing, whose slots are stretched, where a swapped item lands is not stated.
- RateLimiter.Limiter.RateLimit: the request's key is given; deriving it from headers is left out, as are the response headers.
- Gateway.PickGatewaySources: a balance's text is given as its parsed amount, or none where it does not parse.
- Gateway.NothingReturnedIff: for a limit of zero or more; a negative one, which no caller passes, counts from the end of the list.
- Building, estimating and attesting Gateway transfers.
- The risk and health arithmetic, the validators and the clamps outside these cores: one branch each.
- The smart contracts.
