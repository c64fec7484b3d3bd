# Sudoku constraint-propagation solver, modelled in Dafny

The Python solver in `main.py` works on a 9x9 puzzle whose blanks are
`None`. It keeps five structures:

- `solution`, the grid of placed digits;
- `element_sets`, a candidate set per cell;
- `row_sets`, `col_sets` and `block_sets`, the digits not yet placed in each
  row, column and 3x3 block.

`solve` seeds these from the givens. It then loops:

- a relaxation sweep (`relax_sets`), which narrows each cell to what its
  peers allow and places a digit once a cell has one candidate left;
- when that makes no progress, a hidden-single scan (`scan_for_singles`),
  which checks the column first and then the row;
- when that makes no progress either, a naked-subset scan along rows and
  then columns (`union_pair_scan`).

The loop stops once every candidate set has at most one element, or once an
iteration makes no progress.

The model has two layers:

- Pure modules give the meaning of each pass as a function over a `State`
  value: `Blocks`, `Grid`, `Assignment`, `Relaxation`, `HiddenSingles`,
  `NakedSubsets` and `Driver`.
- Imperative modules do what the source does, in place, and each method is
  proved equal to its function. `PairScan` holds `union_pair_scan_vector`
  with its dictionary of pair unions. `Engine` holds `class Solver`, whose
  fields are the five structures, and the top-level `Solve`.

What is proved about the functions:

- each pass keeps the solver invariant;
- each pass reports progress exactly when it struck a candidate;
- every reported progress lowers the total candidate count, which is why
  the loop ends;
- the solver never rules out a solution. Every digit it places agrees with
  every completion of the puzzle, and every given is kept.

## Model

| member | source | states |
|---|---|---|
| Blocks.BlockOf | main.py:57-61 | every cell of the 9x9 grid lies in one of the nine blocks 0..8; the equation with `BlockId` for side 3 is there so callers can use the `BlockId` lemmas |
| Blocks.BlockId | main.py:57-61 | defines get_block_id: block row (row div n) times n plus block column (col div n); its range is `BlockIdRange`, its inverse `BlockRoundTrip` |
| Blocks.BlockOrigin | main.py:63-66 | defines get_row_col_from_block_id: the top-left cell (n·(bid div n), n·(bid mod n)); `BlockRoundTrip` and `BlockOriginOfCell` relate it to `BlockId` |
| Blocks.BlockIdRange | main.py:57-61 | for any block side n, a cell of the n²×n² grid lies in one of the n² blocks |
| Blocks.BlockRoundTrip | main.py:57-66 | get_block_id of get_row_col_from_block_id(bid) is bid again |
| Blocks.BlockOriginOfCell | main.py:57-66 | the origin of a cell's block is the cell rounded down to multiples of n |
| Assignment.Assign | main.py:76-94 | remove_element returns True exactly when the cell was open |
| Assignment.AssignPlaced | main.py:77-78 | on a placed cell nothing changes and the result is False |
| Assignment.AssignOpen | main.py:82-94 | placing r on an open cell takes r out of the cell and its three peer sets; no other cell and no other peer set changes |
| Assignment.AssignShrinks | main.py:76-94 | assignment only strikes candidates and never replaces a placed digit |
| Assignment.AssignKeepsValid | main.py:76-94 | placing a cell's only remaining candidate keeps the solver invariant (placed digits absent from peer sets, placed cells decided) |
| Assignment.AssignSound | main.py:76-94 | placing the digit a solution has at the cell keeps the state consistent with that solution |
| Relaxation.RelaxCell | main.py:103-122 | defines the body of relax_sets for one cell, keeping the state well shaped; its effect is stated by `RelaxCellSingleton`, `RelaxCellNarrows`, `RelaxCellProgress`, `RelaxCellQuiet` and `RelaxCellSound` |
| Relaxation.RelaxUpTo | main.py:100-122 | defines the sweep over the first k cells in row-major order, the flag being True once any cell step made progress; `RelaxUpToProgress`, `RelaxUpToKeepsValid` and `RelaxUpToQuiet` hold its properties |
| Relaxation.Relax | main.py:97-124 | defines relax_sets as the sweep over all 81 cells; `RelaxFlag`, `RelaxIdempotent`, `RelaxSound` and `RelaxQuietSettled` hold its properties |
| Relaxation.RelaxCellNarrows | main.py:111-122 | a cell with several candidates is narrowed to what its row, column and block allow; if one digit is left on an open cell, it is placed and the cell's set becomes empty |
| Relaxation.RelaxCellSingleton | main.py:106-109 | an open cell with one candidate r gets r placed, its set emptied and r struck from its row, column and block sets, with progress reported; a placed cell with one candidate is left as it was and reports no progress |
| Relaxation.RelaxCellProgress | main.py:103-122 | a cell step changes only that cell's candidates; it reports progress exactly when they changed, and without progress the state is untouched |
| Relaxation.RelaxCellQuiet | main.py:103-122 | a cell step without progress saw an open cell whose several candidates its peers all allow, or a cell with no candidates |
| Relaxation.RelaxCellKeepsValid | main.py:103-122 | a cell step keeps the solver invariant |
| Relaxation.RelaxCellSound | main.py:103-122 | a cell step never strikes a solution's digit from an open cell |
| Relaxation.RelaxUpToProgress | main.py:97-124 | a partial sweep only strikes; a True flag lowers the total candidate count, and a False flag leaves the state untouched |
| Relaxation.RelaxFlag | main.py:97-124 | relax_sets returns True exactly when it changed a candidate set (iff, both directions), and then the candidate count drops |
| Relaxation.RelaxIdempotent | main.py:97-124 | a sweep without progress leaves the state as it was, so a second sweep makes no progress either |
| Relaxation.RelaxUpToKeepsValid | main.py:97-124 | every prefix of the sweep keeps the solver invariant |
| Relaxation.RelaxCellKeepsPlaced | main.py:103-122 | a cell step leaves the candidate set of every cell that was placed with at most one candidate at the start of the sweep as it was |
| Relaxation.RelaxUpToKeepsPlaced | main.py:97-124 | when every placed cell holds at most one candidate, every prefix of the sweep leaves the candidate sets of placed cells as they were |
| Relaxation.RelaxSound | main.py:97-124 | the sweep keeps the invariant and never rules out a solution |
| Relaxation.RelaxQuietSettled | main.py:97-124 | after a quiet sweep no open cell has exactly one candidate, and the candidates of every open cell with several lie within its peer sets |
| HiddenSingles.FirstHidden | main.py:136-146 | the search returns a candidate of the cell that no other cell of the line holds, and no smaller candidate has that property |
| HiddenSingles.FirstHiddenFinds | main.py:136-146 | the search finds a digit exactly when some candidate of the cell is hidden in the line |
| HiddenSingles.SinglesCell | main.py:133-161 | defines the body of scan_for_singles for one cell, the column search before the row search, keeping the grid square; `SinglesCellEffect` and `SinglesCellProgress` state its effect |
| HiddenSingles.SinglesUpTo | main.py:131-161 | defines the scan over the first k cells in row-major order, each cell step seeing the grid as earlier steps left it; `SinglesUpToSound` and the progress lemmas hold its properties |
| HiddenSingles.Singles | main.py:127-164 | defines scan_for_singles as the scan over all 81 cells; `SinglesFlag` and `SinglesSound` hold its properties |
| HiddenSingles.SinglesCellEffect | main.py:133-161 | a cell with several candidates becomes {v} for the least column-hidden v, or failing that the least row-hidden v; with neither, or with at most one candidate, nothing changes; other cells never change |
| HiddenSingles.SinglesCellProgress | main.py:133-161 | a cell step only narrows; it reports progress exactly when the grid changed, and then the cell went from several candidates to one |
| HiddenSingles.SinglesUpToKeepsDecided | main.py:131-134 | every cell with at most one candidate keeps its set through every prefix of the scan |
| HiddenSingles.HiddenIsSolution | main.py:136-161 | on a settled, consistent state, a hidden single of an open cell is that cell's digit in every solution |
| HiddenSingles.SinglesCellSound | main.py:133-161 | a cell step keeps the invariant and the settled shape, and never rules out a solution |
| HiddenSingles.SinglesFlag | main.py:127-164 | scan_for_singles returns True exactly when it changed the grid; it only narrows, so the candidate count then drops |
| HiddenSingles.SinglesSound | main.py:127-164 | the whole scan keeps the invariant and never rules out a solution |
| NakedSubsets.UnionVector | main.py:167-191 | defines union_pair_scan_vector on one line: each open entry loses the digits of every locked pair union whose group does not hold it, and the flag says whether the line changed; `UnionVectorShrinks`, `UnionVectorStrikes`, `UnionVectorFlag` and `UnionVectorSound` hold its properties |
| NakedSubsets.PartnersWithin | main.py:169-183 | every position of a group is open, and its candidates lie within the group's union |
| NakedSubsets.UnionVectorShrinks | main.py:184-189 | the vector scan only strikes candidates, and never from a placed entry |
| NakedSubsets.UnionVectorStrikes | main.py:184-189 | the striking rule one digit at a time, without the set algebra UnionVector is written in: digit d leaves entry k exactly when k is open and d lies in a locked union (as many digits as positions, and not every open position) whose group does not contain k |
| NakedSubsets.UnionVectorFlag | main.py:184-191 | union_pair_scan_vector returns True exactly when some entry strictly shrank |
| NakedSubsets.UnionVectorSound | main.py:167-191 | if a line's solution digits are distinct and each is still a candidate of its open entry, the scan keeps them all |
| NakedSubsets.UnionRowsFrom | main.py:194-200 | defines union_pair_scan_rows from row r on: the first row with progress is rewritten and ends the scan; `RowsFirst`, `RowsNone` and `RowsProgress` hold its properties |
| NakedSubsets.RowsFirst | main.py:194-200 | the row scan stops at the first row with progress and rewrites only that row |
| NakedSubsets.RowsNone | main.py:194-200 | without progress in any row, the row scan returns False and changes nothing |
| NakedSubsets.UnionColsFrom | main.py:203-213 | defines union_pair_scan_cols from column c on: only the first column with progress is written back; `ColsFirst`, `ColsNone` and `ColsProgress` hold its properties |
| NakedSubsets.ColsFirst | main.py:203-213 | the column scan writes back only the first column with progress and stops there |
| NakedSubsets.ColsNone | main.py:203-213 | without progress in any column, the column scan returns False and changes nothing |
| NakedSubsets.UnionScan | main.py:240-247 | defines union_pair_scan: rows first, then columns, blocks never; `UnionScanRowFirst`, `UnionScanColFirst`, `UnionScanQuiet`, `UnionScanFlag` and `UnionScanSound` hold its properties |
| NakedSubsets.UnionScanRowFirst | main.py:240-242 | rows come before columns: a row with progress ends union_pair_scan |
| NakedSubsets.UnionScanColFirst | main.py:240-244 | columns are tried only when no row had progress, and the first column with progress is written back |
| NakedSubsets.UnionScanQuiet | main.py:240-247 | with no progress anywhere, union_pair_scan returns False and the grid is unchanged |
| NakedSubsets.RowsProgress | main.py:194-200 | the row scan only strikes, and its flag is True exactly when the grid changed |
| NakedSubsets.ColsProgress | main.py:203-213 | the column scan only strikes, and its flag is True exactly when the grid changed |
| NakedSubsets.UnionScanFlag | main.py:240-247 | union_pair_scan returns True exactly when it struck a candidate, and then the candidate count drops |
| NakedSubsets.RowsKeepPlaced | main.py:194-200 | the row scan leaves the candidate set of every placed cell as it was |
| NakedSubsets.ColsKeepPlaced | main.py:203-213 | the column scan leaves the candidate set of every placed cell as it was |
| NakedSubsets.UnionScanKeepsPlaced | main.py:240-247 | union_pair_scan leaves the candidate set of every placed cell as it was |
| NakedSubsets.UnionScanSound | main.py:240-247 | the naked-subset scan keeps the invariant and the settled shape, and never rules out a solution |
| Driver.SeedCell | main.py:260-264 | defines the set-up of one cell: a given c becomes the cell's only candidate and leaves its row, column and block sets; a blank changes nothing |
| Driver.SeedUpTo | main.py:258-264 | defines the set-up of the first k cells in row-major order; `SeedUpToShape` states the state it reaches |
| Driver.Seed | main.py:251-264 | defines the state solve starts its loop from, all 81 cells set up; `SeedShape`, `SeedValid` and `SeedSound` hold its properties |
| Driver.SeedShape | main.py:251-264 | after seeding, the solution is the puzzle, a given's cell holds {c}, a blank holds 1-9, and each peer set is 1-9 minus the givens of its row, column or block |
| Driver.SeedRemovable | main.py:258-264 | with no digit given twice in a row, column or block, each given is still in its three peer sets when its cell is seeded, so no set.remove fails |
| Driver.SeedValid | main.py:250-264 | the seeded state satisfies the solver invariant |
| Driver.SeedSound | main.py:250-264 | the seeded state rules out no completion of the puzzle |
| Driver.AllDecided | main.py:69-74 | check_elements is True exactly when every candidate set has at most one element |
| Driver.Iterate | main.py:269-273 | defines one pass of the loop: relax_sets, then scan_for_singles only without progress, then union_pair_scan only without progress; `IterateProgress` and `IterateSound` hold its properties |
| Driver.Fix | main.py:266-277 | defines the while loop: stop when every set is decided or a pass made no progress, otherwise pass again; it terminates by the candidate count, and `FixProgress` and `FixSound` hold its properties |
| Driver.IterateProgress | main.py:268-273 | an iteration keeps the invariant and only strikes; progress lowers the candidate count, and no progress means an unchanged state |
| Driver.IterateSound | main.py:268-273 | an iteration never rules out a solution |
| Driver.IterateKeepsPlaced | main.py:268-273 | an iteration leaves the candidate set of every placed cell as it was |
| Driver.FixProgress | main.py:266-279 | the loop ends with every set decided or with no pass making progress; it only strikes and keeps every placement |
| Driver.FixSound | main.py:266-279 | the loop never rules out a solution |
| Driver.FixKeepsPlaced | main.py:266-277 | the loop leaves the candidate set of every cell placed before it as it was |
| Driver.SolveCorrect | main.py:250-279 | solve keeps the invariant and every given; every placed digit agrees with every completion; the end state is decided or stalled |
| Driver.GivensKeepSets | main.py:259-277 | every given keeps the set {c} it was seeded with, through the whole solve loop |
| PairScan.OpenPositions | main.py:169 | valid_idxes lists the open positions of the line in ascending order |
| PairScan.GroupPairs | main.py:172-177 | match_sets has as its keys exactly the pair unions, and the pairs under each key name exactly that union's group |
| PairScan.GroupEntries | main.py:181-183 | idx_set is the set of positions named in the group's pairs |
| PairScan.StrikeOutside | main.py:185-189 | strikes the union from every open position outside the group; the flag is raised exactly when the line differs from its entry value |
| PairScan.ApplyGroups | main.py:179-191 | after every group has been applied, in any key order, the line is what striking every locked union gives, and the flag says whether it changed |
| PairScan.UnionPairScanVector | main.py:167-191 | the in-place scan returns exactly the line and the flag of the declarative specification |
| Engine.Solver.SeedGiven | main.py:260-264 | seeds one cell, provided its given is still in the cell's three peer sets (set.remove raises otherwise) |
| Engine.Solver.constructor | main.py:251-264 | the fields after construction are the seeded state |
| Engine.Solver.RemoveElement | main.py:76-94 | the new fields and the result are those of the assignment operator |
| Engine.Solver.Only | main.py:107 | list(c)[0] of a one-element set is its only member |
| Engine.Solver.RelaxCellAt | main.py:103-122 | one cell of the relaxation sweep, equal to its specification |
| Engine.Solver.RelaxSets | main.py:97-124 | the fields and the flag after relax_sets are those of the relaxation sweep |
| Engine.Solver.SinglesCellAt | main.py:133-161 | one cell of scan_for_singles on the solver's candidate grid, equal to its specification `SinglesCell`; only the candidate grid changes |
| Engine.Solver.CountElsewhere | main.py:137-142 | the count of other cells of the line holding v is zero exactly when v is hidden in that line (the column loop; lines 151-156 are the row loop) |
| Engine.Solver.FindSingle | main.py:136-146 | the two counting loops find the least candidate hidden in the line, or nothing |
| Engine.Solver.ScanForSingles | main.py:127-164 | the candidate grid and the flag after scan_for_singles are those of the hidden-single scan; nothing else changes |
| Engine.Solver.UnionPairScanRows | main.py:194-200 | equal to the row scan |
| Engine.Solver.UnionPairScanCols | main.py:203-213 | equal to the column scan; a column is written back only on progress |
| Engine.Solver.UnionPairScan | main.py:240-247 | equal to union_pair_scan |
| Engine.Solver.CheckElements | main.py:69-74 | its result is True exactly when every candidate set has at most one element |
| Engine.Solver.Step | main.py:269-273 | one loop iteration equals the iteration function |
| Engine.Solver.Run | main.py:266-277 | the loop ends in the state the loop function stops at, and it terminates by the candidate count |
| Engine.Solve | main.py:250-279 | the returned grid keeps every given, and every digit it places is the digit of every completion of the puzzle |

## Left out

- Reading the puzzle file (`load_data`), `main`, `print_puzzle`, and the per-iteration prints and counter in `solve`: they are I/O only.
- `build_grid_from_data` is not part of this model. Its effect becomes the precondition that the puzzle is 9x9 with every entry `None` or 1-9.
- `union_pair_scan_blocks` is never called; its call in `union_pair_scan` is commented out. Its loop bounds `range(start_row, N)` look wrong for any block but the first.
- Engine.Solver.RemoveElement: the second guard of `remove_element` (`solution[i][j] == r`) is omitted. It is reached only when the cell is `None`, so it never fires.
- Engine.Solver.constructor: a digit given twice in a row, column or block makes `set.remove` raise `KeyError` in the source. The model requires distinct givens instead of modelling the exception.
- Engine.Solver.FindSingle: candidates are visited in ascending order. CPython iterates small-int sets in hash-table order, which can differ; for example 8 and 9 can come before smaller digits. A cell with two hidden digits in one line is the only case where this decides the result.
- PairScan.GroupPairs: `match_sets` is keyed by `tuple(set_union)`. The model keys it by the set itself, so equal unions always share one key. In CPython, two equal sets built differently could yield tuples in different orders.
- PairScan.ApplyGroups: the source walks `match_sets.items()` in insertion order, while the model takes the groups in any order. Striking is a set difference, so the order does not change the result. The flag is proved to be independent of order too.
- PairScan.UnionPairScanVector: the line is passed by value and the new line returned. In the source the row slice is the grid's own list and is mutated in place; the model writes the row back, which has the same effect.
- `deepcopy` in `solve`: the solution field starts as the puzzle value. Value semantics make the copy implicit.
- No solvable-or-not verdict: as in the source, `solve` returns the partial grid when the loop stalls.
- Integer widths play no part: every value is a digit or an index below 81.
