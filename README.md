# Sudoku hint engine — a Dafny model

This project models the hint engine of `sudoku_hints`, a Go Sudoku helper.
A board is a grid of cells. Each cell has a group tag, a value ("" while the
cell is empty), a list of candidates and a list of recently removed
candidates. The engine works in three layers, and each is modelled here:

- **Candidate eliminators** each take candidates from at most one cell per
  call:
  - Filled Cell;
  - Unique Candidate;
  - Group and Row/Column;
  - Candidate Chains (naked subsets, built from `getCombinations`);
  - the Fistemafel Ring variant rule.
- **The elimination driver** `EliminateCandidates` tries the registry's
  eliminators in order. It runs partition eliminators over rows, then
  columns, then groups. It stops at the first change or at a matcher error.
  The fixpoint helpers are `RemoveAllSimple` and `RemoveOneCandidate`.
- **The step-through solver** `StepThrough` places naked singles. After each
  one it checks for a contradiction, then for a win. Otherwise it asks the
  driver for progress.

Files:

- `sudoku.dfy`:
  - the cell and board types and the `Game` class (`Fill`, `FillBasic`, `Set`, `RemoveCandidates`, `SingleCandidate`);
  - the candidate total that serves as the solver's progress measure.
- `partitions.dfy`: `GetSectionedCells`. A partition is a list of board positions, so every view of a cell sees the same cell, as the Go pointers do.
- `hints.dfy`: hints and outcomes, and `PartitionHinterToEliminator`.
- `filled_cell.dfy`, `unique_candidate.dfy`, `group_row_column.dfy`, `candidate_chains.dfy`, `combinations.dfy`, `fistemafel_ring.dfy`: the eliminators.
- `driver.dfy`: the registry and `EliminateCandidates`.
- `steps.dfy`: `RemoveAllSimple` and `RemoveOneCandidate`.
- `solver.dfy`: `StepThrough`.
- `seqs.dfy`: sequence facts (sub-lists, filters, the byte-wise string order, an insertion sort standing for the library sorts).

Each eliminator follows the same pattern:

1. A read-only scan finds the first cell that really loses something.
2. The eliminator applies that one removal to the `Game`.

In the Go code, `RemoveCandiates` calls that remove nothing leave the board
as it was. Applying only the first effective removal therefore gives the
same board.

The properties proved include these:

- every eliminator, the driver and the fixpoint helpers only ever delete candidates;
- every candidate deleted by Filled Cell is the value of a peer in the same row, column or group;
- `RemoveAllSimple` leaves every partition settled;
- `getCombinations` returns exactly the C(n, k) order-preserving sub-lists, with no repeats;
- the solver keeps the board well formed;
- the solver only writes a cell's sole candidate into an empty cell;
- the total number of candidates strictly falls on every iteration of the solver, which is its termination measure.

## Model

| member | source | states |
|---|---|---|
| Sudoku.Game.constructor | sudoku/sudoku.go:22-25 | A new game has no symbols and an empty board, and keeps the given settings. |
| Sudoku.Game.Fill | sudoku/sudoku.go:28-69 | Builds the board and reports errors. Each cell holds its grid value and has group `group[{x,y}]`, or 0 when absent. Symbols are the distinct non-empty grid values, with no duplicates. On success they are sorted and every empty cell's candidates are the symbols. The result is NoSymbols exactly when the grid has no symbol, and success exactly when the symbol count equals the number of groups. The board is well formed. |
| Sudoku.SeedBoard | sudoku/sudoku.go:57-66 | Sorts the distinct grid symbols without duplicates, and gives every empty cell exactly those candidates. The board stays laid out from the grid and is well formed. |
| Sudoku.Game.FillBasic | sudoku/sudoku.go:71-87 | Fails exactly when some value is outside 0..9. The error names the first such cell in row-major order and leaves the game untouched. Otherwise each cell's value is "" for 0 or the decimal digit, with the default groups, and the symbols are the grid's digits, without duplicates. Fill's own error is ignored: when the grid has a digit and passes the group count, the symbols are sorted and every empty cell holds them as candidates; otherwise the empty cells get no candidates. |
| Sudoku.BasicGrid | sudoku/sudoku.go:72-84 | Finds no bad value exactly when every value is in 0..9, and then yields the text grid ("" for 0, else the digit). Otherwise it names the first out-of-range cell in row-major order. |
| Sudoku.Game.Set | sudoku/sudoku.go:110-113 | The cell holds `v` and has no candidates. No other cell changes. |
| Sudoku.Game.RemoveCandidates | sudoku/sudoku.go:115-124 | Returns the requested non-empty candidates that the cell held. The cell keeps the rest in order and records the removed ones as recent. |
| Sudoku.RemovalSpec | sudoku/sudoku.go:115-124 | After removal, no requested non-empty symbol remains. Survivors form an order-preserving sub-list and the value is untouched. The removed and kept lists partition the old list. Nothing removed means nothing changed. |
| Sudoku.Game.SingleCandidate | sudoku/sudoku.go:126-136 | Returns the first cell in row-major order with exactly one candidate, and that candidate. Returns none exactly when no cell has exactly one candidate. |
| Sudoku.Game.SetLastFilled | sudoku/solver.go:113 | Marks the given cell as the last one filled. Nothing else changes. |
| Sudoku.Game.RemoveAllRecentCandidates | sudoku/steps.go:45-47 | Every cell's recent list becomes empty. Nothing else changes. |
| Sudoku.RemovalShrinks | sudoku/eliminators.go:18 | A removal keeps shape, groups and values, and preserves well-formedness. It lowers the candidate total by exactly the number of candidates removed. |
| Sudoku.TotalShrinks | sudoku/steps.go:113-141 | Deleting candidates never raises the total. The total is unchanged exactly when no candidate list changed. |
| Sudoku.PlacementFacts | sudoku/solver.go:108-113 | Placing a cell's sole candidate keeps the board well formed and lowers the total by one. The placed value is non-empty. |
| Sudoku.GridSymbolsSpec | sudoku/sudoku.go:29-38 | The symbol set is exactly the distinct non-empty values of the grid. |
| Sudoku.GridTagsSpec | sudoku/sudoku.go:41 | The group-tag set is exactly the tags the group map gives the grid's positions, with 0 for absent ones. |
| Sudoku.BuildGrid | sudoku/sudoku.go:32-44 | The first pass of `Fill` lays out every cell with its value and group, and collects the grid's symbols and tags. |
| Sudoku.ListSymbols | sudoku/sudoku.go:47-50 | The symbol list holds each symbol of the set exactly once. |
| Sudoku.SortAlphabet | sudoku/sudoku.go:57 | The sorted symbols are in byte-wise order, with no duplicates and the same elements. |
| Sudoku.SeedCandidates | sudoku/sudoku.go:59-66 | Every empty cell gets the symbol list as its candidates. Filled cells are untouched. |
| Sudoku.Itoa | sudoku/sudoku.go:82 | A digit 0..9 becomes its single character. The result starts with '-' exactly for negative numbers. |
| Sudoku.AcceptedSymbols | sudoku/sudoku.go:76-82 | For a value in 0..9: 0 becomes "", and 1..9 become their one-digit string. |
| Sudoku.CountCheckCounterexample | sudoku/sudoku.go:54 | A valid 2x2 grid with two groups and two symbols is rejected by the count check as written. It passes the intended check. |
| Sudoku.RangeCheckCounterexample | sudoku/sudoku.go:79 | The range check as written lets -1 through, and -1 becomes a symbol that is not a digit. |
| Partitions.GetSectionedCells | sudoku/candidates.go:30-59 | Builds the three views. Row y lists row y by increasing x, column x lists column x by increasing y, and group i lists the cells tagged i in row-major order. Views beyond the board are empty. |
| Partitions.SectionRow | sudoku/candidates.go:35-51 | One row of the scan appends the row, extends the columns and files each cell under its group. |
| Partitions.ScanRows | sudoku/candidates.go:34-52 | The scan builds all rows and columns and the group map. |
| Partitions.ReadGroups | sudoku/candidates.go:54-57 | The group view takes each tag's list from the map, and is empty for tags not on the board. |
| Partitions.SectionsCover | sudoku/candidates.go:33-57 | Every view lists distinct board positions in scan order. A cell lies in row i, column i or group i exactly when its y, its x or its tag is i. |
| Partitions.Sectioned | sudoku/candidates.go:30-59 | The views as a function of the board, meeting the same description. |
| Partitions.SectionsUnique | sudoku/candidates.go:30-59 | The description leaves no choice: the scan's result is the views function. |
| Partitions.SectionsOn | sudoku/candidates.go:37-41 | Every partition of every view lies on the board. |
| Partitions.SectionsSameLayout | sudoku/candidates.go:30-59 | The views depend only on the shape and the groups, not on values or candidates. |
| Hints.ApplyHint | sudoku/eliminators.go:9-21 | A hinter error is passed on and no hint means no change. A hint removes its candidates from its cell, and the reported change names what was asked for. |
| FilledCell.CandidateDiffs | sudoku/eliminators.go:34 | Returns the cell's candidates that appear among the found values, in order. It is empty exactly when the two are disjoint. |
| FilledCell.Hinter | sudoku/eliminators.go:28-45 | Hints at the first cell of the partition whose candidates include a value of the partition, with exactly those candidates. It gives no hint exactly when the partition is settled, and it never fails. |
| FilledCell.SettledIff | sudoku/eliminators.go:33-44 | A partition is settled exactly when no cell's diffs are non-empty. |
| FilledCell.HintSound | sudoku/eliminators.go:28-45 | On a well-formed board, every value Filled Cell removes is non-empty and is the value of a cell of the partition. All of it is removed, and afterwards no partition value remains among the cell's candidates. |
| FilledCell.SettledShrinks | sudoku/eliminators.go:28-45 | A settled partition stays settled while candidates are only deleted. |
| FilledCell.Eliminate | sudoku/eliminators.go:23-51 | Reports no change exactly when the partition is settled. Otherwise it removes the non-empty diffs of the first cell, in partition order, that has any; every earlier cell has none. |
| UniqueCandidate.Key | sudoku/eliminators.go:55-64 | The key is the locations sorted in row-major order: a sorted permutation. |
| UniqueCandidate.KeySame | sudoku/eliminators.go:55-64 | Two location lists have the same key exactly when they hold the same locations. |
| UniqueCandidate.CollectOccurrences | sudoku/eliminators.go:71-79 | For each candidate, the map records the cells of the partition that hold it, in partition order. |
| UniqueCandidate.OccurrenceMap | sudoku/eliminators.go:71-79 | The map's keys are exactly the candidates present in the partition. |
| UniqueCandidate.GroupByKey | sudoku/eliminators.go:85-94 | Candidates are grouped by the key of their location list. |
| UniqueCandidate.ClassSet | sudoku/eliminators.go:85-94 | A group's candidates are exactly the candidates whose cells are the same set of cells. |
| UniqueCandidate.DropLoose | sudoku/eliminators.go:96-102 | A group is kept exactly when it has as many candidates as cells. |
| UniqueCandidate.ClassKept | sudoku/eliminators.go:96-102 | A group is kept exactly when its candidates fill its cells tightly. |
| UniqueCandidate.AssignLocs | sudoku/eliminators.go:108-113 | Each cell of a kept group is assigned that group's candidates. |
| UniqueCandidate.AssignMeaning | sudoku/eliminators.go:104-113 | A cell is assigned a list exactly when it belongs to a tight group. Its list is that group's candidates. |
| UniqueCandidate.ScanCells | sudoku/eliminators.go:115-128 | Finds the first assigned cell that loses its other candidates, with what it loses. Otherwise every cell is quiet. |
| UniqueCandidate.Scan | sudoku/eliminators.go:70-129 | A result is a cell of a tight group losing its other candidates. No result means every cell is exempt. |
| UniqueCandidate.Eliminate | sudoku/eliminators.go:67-131 | Removes, from one cell of a tight group, every candidate outside the group's candidates. Otherwise it reports no change and the partition is exempt. |
| UniqueCandidate.ClassConfined | sudoku/eliminators.go:85-113 | A candidate of a group occurs exactly in the group's cells. |
| UniqueCandidate.RemovalKeepsClass | sudoku/eliminators.go:120-123 | After the removal, the cell keeps exactly its group's candidates. |
| GroupRowColumn.PlacesMeaning | sudoku/eliminators.go:141-169 | The recorded rows (columns) of a group and candidate are those where a cell of the group holds it. |
| GroupRowColumn.HoldMeaning | sudoku/eliminators.go:171-223 | A group holds a candidate only in row (column) k exactly when the rows (columns) it occurs in are {k}. |
| GroupRowColumn.CollectPlaces | sudoku/eliminators.go:141-169 | The first pass records, for each group and candidate, the rows and the columns where it occurs. |
| GroupRowColumn.CollectRow | sudoku/eliminators.go:142-168 | Scanning one more row extends, for each group and candidate, the recorded rows and columns to that row. |
| GroupRowColumn.Holders | sudoku/eliminators.go:172-223 | A candidate is filed under (group, k) exactly when its places are {k}. |
| GroupRowColumn.HoldersMeaning | sudoku/eliminators.go:172-223 | The filed candidates are exactly those the group holds only in that row (column). |
| GroupRowColumn.SortedKeys | sudoku/eliminators.go:234-256 | The holders are listed sorted by group, then by row (column), each once. |
| GroupRowColumn.SortedHolders | sudoku/eliminators.go:234-256 | The sorted holder list matches the holders' meaning. |
| GroupRowColumn.IndexOf | sudoku/eliminators.go:260-262 | Returns the first holder for this row (column) from another group, or -1. |
| GroupRowColumn.TryRule | sudoku/eliminators.go:260-277 | A result names a group that holds those candidates only in the cell's row (column) and is not the cell's own group. No result means the cell is quiet. |
| GroupRowColumn.ScanBoard | sudoku/eliminators.go:258-280 | Finds the first cell in row-major order that the row rule, or else the column rule, strips. Earlier cells are quiet. No result means every cell is quiet. |
| GroupRowColumn.Scan | sudoku/eliminators.go:136-280 | Same as ScanBoard, on the board as given. |
| GroupRowColumn.Eliminate | sudoku/eliminators.go:133-282 | The first effective row (or column) removal, or no change when every cell is quiet. |
| GroupRowColumn.FiresSound | sudoku/eliminators.go:196-277 | A stripped cell is outside the holding group and really loses something. Every removed candidate occurs in that group only in the cell's row (column). |
| Choices.CombinationsCount | sudoku/eliminators.go:341-363 | `getCombinations(cells, k)` has C(n, k) elements. |
| Choices.CombinationsSound | sudoku/eliminators.go:341-363 | Every combination has k elements and is an order-preserving sub-list. |
| Choices.CombinationsComplete | sudoku/eliminators.go:341-363 | Every order-preserving sub-list of size k is among them. |
| Choices.CombinationsOrder | sudoku/eliminators.go:351-360 | Combinations that include the first cell come first. |
| Choices.CombinationsDistinct | sudoku/eliminators.go:341-363 | Over distinct cells, no combination repeats. |
| Choices.BinomialZero | sudoku/eliminators.go:345-347 | There are no combinations larger than the list. |
| CandidateChains.MultiCellsFacts | sudoku/eliminators.go:289-294 | The chain cells are the partition's cells with at least two candidates, in order. |
| CandidateChains.CandidateCells | sudoku/eliminators.go:289-294 | The loop collects exactly those cells. |
| CandidateChains.ChainCells | sudoku/eliminators.go:299 | A combination has k cells, each with at least two candidates, and is a sub-list of the partition. |
| CandidateChains.ChainUnion | sudoku/eliminators.go:303-308 | Collects the union of the chain's candidates. |
| CandidateChains.UnionStep | sudoku/eliminators.go:304-307 | Adding a cell adds its candidates to the union. |
| CandidateChains.RemovedStripped | sudoku/eliminators.go:312-328 | Removing the union's list from a cell takes exactly its union candidates, whatever the list's order. |
| CandidateChains.ScanOutside | sudoku/eliminators.go:324-332 | Finds the first cell outside the chain that loses a union candidate. Otherwise the chain is quiet. |
| CandidateChains.TryChain | sudoku/eliminators.go:303-333 | A chain with as many candidates as cells strips the first outside cell that holds one of them. Otherwise it is quiet. |
| CandidateChains.TrySize | sudoku/eliminators.go:299-334 | Finds the first firing combination of size k, with all earlier combinations quiet. Otherwise size k is quiet. |
| CandidateChains.BeyondCells | sudoku/eliminators.go:297 | Sizes beyond the number of chain cells never fire. |
| CandidateChains.Scan | sudoku/eliminators.go:297-336 | Tries sizes 2 upward, and combinations in order. A result is the first firing chain. No result means every size is quiet. |
| CandidateChains.Eliminate | sudoku/eliminators.go:284-338 | Applies the first firing chain's removal: every smaller size and every earlier combination of its size is quiet. It reports no change when every size is quiet. |
| CandidateChains.ChainSound | sudoku/eliminators.go:297-332 | A firing chain has k cells and exactly k candidates, all in the partition. The stripped cell is outside the chain and loses only chain candidates it held. |
| FistemafelRing.Corners | sudoku/eliminators.go:379-384 | The 16 corner positions: distinct, in the four 2x2 corners of a 9x9 board. |
| FistemafelRing.Ring | sudoku/eliminators.go:389-394 | The 16 ring positions: distinct, on the border of the centre 5x5 square. |
| FistemafelRing.Sets | sudoku/eliminators.go:373-396 | The two matching sets are the corners and the ring. |
| FistemafelRing.SetsDisjoint | sudoku/eliminators.go:373-396 | The corners and the ring share no cell. |
| FistemafelRing.Present | sudoku/eliminators.go:399-410 | Keeps the positions that lie on the board, skipping off-board ones. |
| FistemafelRing.Foreign | sudoku/eliminators.go:462-467 | The cell's candidates that are not values of the complete set, in order. |
| FistemafelRing.PresentCells | sudoku/eliminators.go:399-410 | Collects each set's on-board cells. |
| FistemafelRing.Survey | sudoku/eliminators.go:416-428 | A set is complete exactly when every cell of it holds a value. Also collects the set of its values. |
| FistemafelRing.ForeignOf | sudoku/eliminators.go:462-467 | The loop collects the foreign candidates. |
| FistemafelRing.CountComplete | sudoku/eliminators.go:431-439 | Counts the complete sets and names one of them, or -1 exactly when none is complete. |
| FistemafelRing.SurveyAll | sudoku/eliminators.go:412-428 | Surveys every set. |
| FistemafelRing.ScanCells | sudoku/eliminators.go:457-477 | Finds the first open cell of the other set that loses foreign candidates. Otherwise every cell is calm. |
| FistemafelRing.Scan | sudoku/eliminators.go:371-481 | Fires only when exactly one set is complete. Then it strips an open cell of the other set, and every earlier cell is calm. No result means the rule is idle. |
| FistemafelRing.Eliminate | sudoku/eliminators.go:368-482 | Applies the rule's first effective removal, or reports no change when it is idle. |
| FistemafelRing.RingSound | sudoku/eliminators.go:412-478 | When the rule fires, the cell is on the board, in the other set and open. It loses exactly the foreign candidates, and what stays is among the complete set's values. |
| FistemafelRing.CountOne | sudoku/eliminators.go:431-443 | A count of one means exactly one set is complete. |
| Driver.WrappedIsNotNone | sudoku/candidates.go:100 | A wrapped eliminator error never reads as the "no candidates eliminated" error. |
| Driver.AppliedFacts | sudoku/eliminators.go:18 | One removal keeps the layout and well-formedness. If it removes something, the total falls. |
| Driver.RunOnPart | sudoku/candidates.go:98 | One partition eliminator on one partition. No change means the rule is quiet there. An error comes from the matcher. A change is one removal at a cell of the partition. |
| Driver.RunFilledCell | sudoku/candidates.go:96-100 | Filled Cell on one partition never fails. No change leaves the board as it was and means the partition is settled. A change is an applied removal at a cell of the partition: the board only shrinks, stays well formed if it was, and, on a well-formed board with an honest matcher, its total drops. |
| Driver.RunUniqueCandidate | sudoku/candidates.go:96-100 | Unique Candidate on one partition never fails. No change leaves the board as it was and means every cell of the partition is exempt. A change is an applied removal at a cell of the partition: the board only shrinks, stays well formed if it was, and, on a well-formed board with an honest matcher, its total drops. |
| Driver.RunMatching | sudoku/candidates.go:96-100 | Matching Candidates on one partition. A failure carries the matcher's own error and leaves the board as it was. No change means the matcher gave no hint. A change is an applied removal at a cell of the partition: the board only shrinks, stays well formed if it was, and, on a well-formed board with an honest matcher, its total drops. |
| Driver.RunCandidateChains | sudoku/candidates.go:96-100 | Candidate Chains on one partition never fails. No change leaves the board as it was and means every chain size from 2 up is quiet. A change is an applied removal at a cell of the partition: the board only shrinks, stays well formed if it was, and, on a well-formed board with an honest matcher, its total drops. |
| Driver.RunOnGame | sudoku/candidates.go:112 | One game eliminator. It never fails. No change means the rule is quiet. A change lowers the total. |
| Driver.TryPartitions | sudoku/candidates.go:96-109 | Rows, then columns, then groups, each by index. Stops at the first change or error, and every earlier partition is quiet. |
| Driver.QuietBeforeStep | sudoku/candidates.go:77-80 | A skipped or quiet eliminator extends the quiet prefix of the registry. |
| Driver.EliminateCandidates | sudoku/candidates.go:61-122 | Returns the first change in registry order, with every earlier eliminator quiet; a hidden simple change reports nothing. A matcher error is wrapped with the rule, view and index and leaves the board unchanged. "no candidates eliminated" means every active eliminator is quiet. Success deletes candidates at one cell and, with an honest matcher, lowers the total. |
| Steps.CountCandidates | sudoku/steps.go:115-134 | Counts the board's candidates: the total. |
| Steps.SectionsCohesive | sudoku/candidates.go:30-59 | The cells of a row, a column or a group are pairwise peers. |
| Steps.JustifiedTrans | sudoku/steps.go:22-43 | Justified deletions compose: each deleted candidate is the value of a peer. |
| Steps.FilledStep | sudoku/steps.go:25-36 | One Filled Cell removal is justified by a peer's value and lowers the total by the number removed. |
| Steps.ClearRecentFacts | sudoku/steps.go:45-47 | Clearing recent markers deletes nothing and keeps well-formedness and the total. Afterwards every recent list is empty. |
| Steps.SettleStep | sudoku/steps.go:24-41 | One pass of the inner loop keeps the deletions justified and the board well formed, and lowers the total. |
| Steps.SettlePartition | sudoku/steps.go:24-41 | Repeats Filled Cell on a partition until it hints nothing. The partition ends settled and every deletion is justified. |
| Steps.RemoveAllSimple | sudoku/steps.go:9-49 | Runs Filled Cell over rows, columns and groups, each to its fixpoint. Every partition ends settled, and every deleted candidate is a peer's value. With the flag, the recent markers end cleared. Without it, every cell's recent list only grows: the old list is a prefix of the new one. |
| Steps.CheckDropped | sudoku/steps.go:85-106 | True exactly when some cell of the partition that had candidates now has a different number. |
| Steps.DroppedLowers | sudoku/steps.go:99-104 | A changed count after one removal means the total fell. |
| Steps.UndroppedSame | sudoku/steps.go:97-106 | A reported change that altered no count left the board exactly as it was. |
| Steps.TryPart | sudoku/steps.go:85-107 | One partition eliminator counts only when a count dropped. Otherwise the board is unchanged. |
| Steps.TryAllParts | sudoku/steps.go:72-109 | Moves on past ineffective changes. Errors are wrapped with the rule, view and index. |
| Steps.TryRegistry | sudoku/steps.go:70-146 | Tries the registry in order. Game eliminators count only when the total fell. |
| Steps.RemoveOneCandidate | sudoku/steps.go:51-147 | Clears recent markers when asked. True means one removal lowered the total. False with no error leaves the cleared board, on which every eliminator is quiet. |
| Solver.RefinesTrans | sudoku/solver.go:90-145 | Solving steps compose. Candidates only shrink, and a value is only written into an empty cell from its candidates. |
| Solver.PlacementRefines | sudoku/solver.go:108-113 | A naked single fills an empty cell with its sole candidate and lowers the total. |
| Solver.RefinesWon | sudoku/solver.go:123-128 | A won board stays won: later steps never empty a cell. |
| Solver.EliminationStep | sudoku/solver.go:93-105 | A driver success keeps the loop's facts. |
| Solver.PlacementStep | sudoku/solver.go:108-113 | A placement keeps the loop's facts and marks the filled cell. |
| Solver.EliminationRound | sudoku/solver.go:92-105 | A failed driver call leaves the board as it was, and "no candidates eliminated" means every eliminator is quiet on it. Otherwise the board still refines the start, stays well formed and fits, a filled-cell mark survives, and the candidate total drops. |
| Solver.PlaceSingle | sudoku/solver.go:108-113 | Writes the sole candidate as the cell's value and records the cell as last filled. The board still refines the start, the cell is marked as newly filled, and the candidate total drops. |
| Solver.Stepping | sudoku/solver.go:89-145 | The loop, terminating on the candidate total. Stuck means no naked single is left; with "no candidates eliminated", every eliminator is quiet. Contradiction means the check rejects the board. Solved means every cell holds a value. RunOnce without auto-solve stops after one placement. |
| Solver.StepThrough | sudoku/solver.go:75-157 | The optional clearing and fixpoint before the loop, then the loop, then the optional fixpoint after it. The board only advances by solving steps. With RunSimpleAfter, every partition ends settled. Without it, the loop's outcomes carry over: stuck means no naked single is left, and with "no candidates eliminated" every eliminator is quiet; solved means the check accepts the board. |

## Left out

- Rendering is not modelled. That covers `Game.String`, colours, prompts, ANSI escapes, `log` output and the `allChanges` text log.
- Change messages are not modelled as text. A change is the cell and the removed candidates.
- Error texts are modelled only where they matter: the driver's "no candidates eliminated" error and the wrapping of eliminator errors.
- Randomised ordering (`RandomEliminators`) is not modelled; only the deterministic path is.
- I/O is not modelled. The writer is dropped, and the scanner is a list of input lines; an exhausted scanner reads as "".
- Go map iteration order is left open. Unique Candidate's groups, Group and Row/Column's holder maps and Candidate Chains' candidate list are modelled as sets. Each result is stated for every order.
- Group and Row/Column: the Go code builds its row and column maps in one merged pass. The model builds them separately, to the same contents.
- Matching Candidates is not part of this model's source files. It is a `Matcher` parameter of the driver, with one requirement: its hints name a cell of the partition. Progress claims also assume it is honest, meaning every hint removes something on a well-formed board.
- `BadBoard` is not part of this model's source files. It is a parameter of `StepThrough`.
- `Won` is not part of this model's source files. It is defined as every cell holding a value.
- `DefaultGropu9x9` is not part of this model's source files. It is a parameter of `FillBasic`.
- Cell pointers shared between views are modelled as board positions. Writes through any view reach the one board.
- `sudoku.go` as shown is an older revision. Its `RemoveCandiates` returns nothing and its fields are lower-case. The model follows the newer interface that the other core files use: `RemoveCandiates` returns the requested, non-empty candidates that were present, and a cell carries a list of recently removed candidates.
- Partitions.GetSectionedCells: requires the board to fit the symbol count n: at most n rows, at most n cells per row, and every group tag in 0..n-1. On any other board the Go code indexes `rows`, `cols` or `groups` out of range (sudoku/candidates.go:31-32, 41-45 and 54-57) and panics. That panic is not modelled.
- Driver.EliminateCandidates: requires the same fit, because it starts from the sectioned views. The panic on other boards is not modelled.
- Steps.RemoveAllSimple: requires the same fit, because it starts from the sectioned views. The panic on other boards is not modelled.
- Steps.RemoveOneCandidate: requires the same fit, because it starts from the sectioned views. The panic on other boards is not modelled.
- Solver.Stepping: requires the same fit, because it calls the driver. The panic on other boards is not modelled.
- Solver.StepThrough: requires the same fit, because it calls the driver. The panic on other boards is not modelled.
- Sudoku.Game.Fill: does not establish that fit. A successful fill can leave tags outside 0..n-1 (tags 5 and 7 with two symbols) or more rows than symbols, and the later panic on such a board is not modelled.
- Sudoku.Game.SetLastFilled: its definition is not part of this model's source files. The contract follows the call site at sudoku/solver.go:113: it records the placed cell and changes nothing else.
- Sudoku.Game.RemoveAllRecentCandidates: its definition is not part of this model's source files. The contract follows its name and its call sites (sudoku/steps.go:46 and 53, sudoku/solver.go:80): every cell's recent list is emptied, and nothing else changes.
- FilledCell.CandidateDiffs: its definition is not part of this model's source files. The contract follows the diffs the Filled Cell test expects (sudoku/eliminators_test.go:13-41): the cell's candidates that occur among the found values, in the cell's order.
- Driver.EliminateCandidates: does not specify the list of removed candidates in a successful report. The contract states the board change (one cell, only deletions) instead.
- Steps.RemoveAllSimple: does not model the error return, because Filled Cell's hinter never fails, so that return is unreachable.
- Steps.RemoveAllSimple: requires a well-formed board, because on a board where a candidate is "" the Go loop never ends. Filled Cell keeps hinting "", and `RemoveCandiates` never removes it.
- Steps.RemoveOneCandidate: does not model the unused candidate count computed at the start of the Go function.
- Steps.RemoveOneCandidate: does not model the "(name): error" path for game eliminators, because neither game eliminator can fail.
- Solver.StepThrough: requires a well-formed board and an honest matcher. Without them, the Go loop can repeat a change that removes nothing, forever.
- Solver.StepThrough: states the contradiction only when RunSimpleAfter is off, because the final fixpoint changes the board after the check.

## Findings

| source | as written | input that shows it | evidently intended | confidence | as-written member | corrected member |
|---|---|---|---|---|---|---|
| sudoku/sudoku.go:54 | compares the number of symbols with `len(group)`, the number of map entries (one per cell) | a 2x2 grid `1 2 / 2 1` with groups by row: 2 symbols, 4 map entries, rejected | compare with the number of distinct group tags | not executed | Sudoku.CountCheckCounterexample | Sudoku.Game.Fill |
| sudoku/sudoku.go:79 | rejects only values above 9 | -1 passes and becomes the symbol "-1" | accept only 0..9, as the error message says | not executed | Sudoku.RangeCheckCounterexample | Sudoku.Game.FillBasic |
