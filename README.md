# Wave-function-collapse tiling engine, modelled in Dafny

The program fills an `n` by `n` grid with square tiles. Adjacent tiles must agree on their
shared edge. A tile has four edge signatures, read clockwise from the top. Two tiles fit along
an edge when one signature, reversed, equals the other.

Every cell starts with every tile id of the catalog as a candidate. The main loop does this:

- `get_lowest_entropy_cells` picks the cells with the fewest candidates.
- One of them is chosen at random, and `collapse` commits it to one candidate that survives
  the neighbour filter `reduce`.
- `update_cells` re-filters the neighbours. Every neighbour whose list shrank passes the change
  on, and cells left with one candidate collapse.
- Every collapsed cell is painted on the canvas and counted.

When the loop stops, a count below `n * n` prints "No combination found".

The model follows the source file by file:

- `tiles.dfy` (module `Tiles`): the tile record of `tile.py`, the id derived from the file
  name, and the edge-compatibility rule.
- `catalog.dfy` (module `Catalog`): the tile map, and `deque.rotate` on a side list, which
  makes the rotated variants in `read_files`.
- `cells.dfy` (module `Cells`):
  - `reduce` and `_reduce_single_side` are functions on a snapshot of the grid's candidate
    lists. They are queries and never write to the cell.
  - `Cell` is a class whose `possible` and `collapsed` fields change in place. `collapse` is
    its method.
  - `Survives` is an independent reference for `reduce`: a tile survives when it fits some
    candidate of every in-bounds neighbour on the shared edge.
- `selection.dfy` (module `Selection`): `get_lowest_entropy_cells` as a nested loop, proved
  equal to a fold `Scan` over the cells in row-major order. Lemmas about `Scan` say what it
  selects.
- `propagation.dfy` and `update.dfy` (modules `Propagation` and `Update`): `update_cells` as a
  method over the mutable grid. Its loop invariant is stated over value snapshots of the
  candidate lists and flags. Termination uses the total number of candidates, then the queue
  length. The invariant `Settled` says every cell is supported by each collapsed neighbour,
  except cells still waiting in the queue. It holds between rounds, and `update_cells`
  restores it.
- `painting.dfy` and `driver.dfy` (modules `Painting` and `Driver`): `main`.
  - The grid is built, and rounds of pick, collapse, propagate and paint repeat.
  - A round keeps the invariant `Drawing`: candidates drawn from the catalog, collapsed cells
    with one candidate, settled, painted and counted. No valid tiling drawn from the catalog
    that keeps the collapsed tiles is ever ruled out, so a crash means no such tiling exists.
  - When the loop ends and the catalog has at most 1000 tiles, the canvas shows a valid
    tiling and "No combination found" is not printed.

Behaviours modelled as written:

- `collapse` on a cell whose filtered list is empty raises inside `random.sample` before
  assigning anything. The model returns `None` and changes nothing, and `main` then ends as
  `Crashed`.
- The `elif` of `get_lowest_entropy_cells` does not test `collapsed`. A collapsed cell with as
  many candidates as the running minimum is selected too (`ScanMaySelectCollapsed`). `main`
  may then pick an already collapsed cell, re-reduce it, and paint and count it again.
- The scan starts from the sentinel 1000. If every uncollapsed cell has more than 1000
  candidates, the scan comes back empty (`ScanEmpty`), so a catalog of more than 1000 tiles
  ends `main` at once with nothing painted.
- Selection does not skip collapsed cells, and a cell emptied by propagation is not reported
  as a contradiction: it has 0 candidates and stays uncollapsed. The next scan picks it, and
  its `collapse` crashes.
- Unless the catalog has exactly one tile, no uncollapsed cell ever holds exactly one
  candidate, so the pick is always uncollapsed and every round collapses a new position. A run
  therefore ends within `n * n` rounds.

## Model

| member | source | states |
|---|---|---|
| Tiles.IdOf | tile.py:15 | The id contains no `\` and no `.`. It is a prefix of the file name's last `\`-separated segment and ends exactly at that segment's first `.`, or at its end when it has none. It is the whole name when the name has neither character. |
| Tiles.AfterLast | tile.py:15 | `split(sep)[-1]`: the result has no `sep`, is a suffix of the input, and is preceded by `sep` when shorter. |
| Tiles.BeforeFirst | tile.py:15 | `split(sep)[0]`: the result has no `sep`, is a prefix of the input, and is followed by `sep` when shorter. |
| Tiles.NewTile | tile.py:5-15 | The constructor stores the sides exactly as given, and the id is the one `IdOf` derives from the file name. |
| Tiles.Opposite | cell.py:24-35 | The side a neighbour shows back: left faces right, right faces left, top faces bottom and bottom faces top. `reduce`'s four tests and the settledness invariants all pair sides through it. |
| Tiles.CompatibleSymmetric | cell.py:18 | Reversed-signature compatibility holds from A's side exactly when it holds from B's side. |
| Catalog.RotateSides | main.py:27-28 | `deque.rotate(r)` keeps the length and puts at position `j` the old side `(j - r) mod n`. |
| Catalog.RotateMoves | main.py:27-28 | Old side `i` ends up at position `(i + r) mod n`. |
| Catalog.RotateByZero | main.py:27-28 | Rotating by 0 is the identity. |
| Catalog.RotateCompose | main.py:27-28 | Rotating by `a` and then by `b` is rotating by `a + b`. |
| Catalog.RotateQuarter | main.py:27-28 | A quarter turn of `(a, b, c, d)` gives `(d, a, b, c)`. |
| Catalog.RotateFullTurn | main.py:27-28 | Four quarter turns of a four-sided tile give back the same sides. |
| Cells.Cell.constructor | cell.py:4-8 | A new cell holds the given candidates and coordinates and is not collapsed. |
| Cells.ReduceSingleSide | cell.py:13-20 | Exactly the candidates, in order, whose side fits some candidate of the neighbour on the facing side. |
| Cells.KeepMatchingFits | cell.py:14-19 | The loop over `self.possible`, testing the reversed side against the neighbour's signatures, keeps exactly the fitting tiles. |
| Cells.SocketMatch | cell.py:16-18 | A reversed side is among the neighbour's signatures exactly when the tile fits some neighbour candidate. |
| Cells.ReduceCandidates | cell.py:21-36 | The candidates `reduce` keeps are among the cell's own. |
| Cells.Cell.Reduce | cell.py:21-36 | `reduce` called on a cell of the grid: the survivors are, in order, exactly its candidates that fit every in-bounds neighbour, and `affected` holds exactly the in-bounds adjacent positions. |
| Cells.NeighbourInBounds | cell.py:24-33 | Each of the four bounds tests holds exactly when that neighbour lies inside the grid. |
| Cells.ReduceFour | cell.py:24-35 | The four filter steps keep, in order, the candidates that pass all four bounds-guarded single-side tests. |
| Cells.SurvivesFour | cell.py:24-35 | Passing the four bounds-guarded tests is the same as fitting every in-bounds adjacent cell. |
| Cells.ReduceSurvivors | cell.py:21-36 | `reduce` keeps exactly, in original order, the candidates that fit every in-bounds neighbour. |
| Cells.ReduceShrinks | cell.py:21-36 | The result is a subsequence of the input, no longer, and equal length means the same list. |
| Cells.ReduceAffectedList | cell.py:23-35 | `affected` is the in-bounds neighbours in the order left, right, up, down. |
| Cells.ReduceAffected | cell.py:23-35 | `affected` holds exactly the in-bounds adjacent positions, each once, and at most four. |
| Cells.InBoundsNeighbours | cell.py:24-35 | The guarded list of four neighbours is exactly the in-bounds adjacent positions, without repeats. |
| Cells.ReduceKeepsTiling | cell.py:21-36 | `reduce` never removes the tile that a valid tiling allowed by the grid puts at the cell. |
| Cells.Cell.Collapse | cell.py:37-42 | With survivors, the cell holds one survivor, is collapsed, and returns `reduce`'s `affected`. With none, it returns `None` and nothing changes. The new list is a subsequence of the old. |
| Cells.SnapshotPut | cell.py:40-41 | Writing one cell's fields changes the grid's candidate and flag snapshots at that position only. |
| Selection.LowestEntropyCells | main.py:33-43 | The nested loop returns exactly the `collection` of the row-major fold `Scan`. |
| Selection.RowMajorHas | main.py:35-36 | The pass visits every cell of the grid. |
| Selection.RowMajorFrom | main.py:35-36 | The pass visits only cells of the grid. |
| Selection.ScanLowest | main.py:34-42 | The final minimum is at most the sentinel and at most every uncollapsed count. Unless it is still the sentinel, it is some uncollapsed cell's count. |
| Selection.ScanChosen | main.py:36-42 | Returned cells all have the minimum count and appear in scan order. Every uncollapsed cell with that count is returned. |
| Selection.ScanEmpty | main.py:34-43 | When collapsed cells hold one candidate, the result is empty exactly when every uncollapsed cell has more than 1000 candidates. |
| Selection.ScanMaySelectCollapsed | main.py:41-42 | The `elif` selects a collapsed cell whose count equals the minimum. |
| Propagation.EnqueueNew | main.py:59-61 | The loop appends to the queue, one `affected` coordinate at a time, exactly what `Enqueued` appends: each coordinate that is neither done nor already queued, in `affected` order. |
| Propagation.EnqueuedGrows | main.py:59-61 | The old queue stays a prefix. Every addition is an `affected` coordinate that was neither done nor queued, and nothing else enters the queue. |
| Propagation.EnqueuedCovers | main.py:59-61 | Every `affected` coordinate that is not done ends up in the queue. |
| Propagation.EnqueuedOrder | main.py:59-61 | The additions are distinct and appear in the order of `affected`. |
| Propagation.CountPut | main.py:57-62 | Replacing one candidate list changes the total candidate count by the difference in length. |
| Propagation.ShrinkCount | main.py:57-62 | Committing a strictly shorter `reduce` result lowers the total candidate count, the loop's termination measure. |
| Propagation.SettledPopCollapsed | main.py:51-55 | Skipping a collapsed cell keeps the grid settled for the rest of the queue. |
| Propagation.SettledPopSurvived | main.py:56-58 | Skipping a cell whose list did not shrink keeps the grid settled for the rest of the queue. |
| Propagation.SettledUpdate | main.py:56-65 | Committing `reduce`'s survivors keeps the grid settled, provided a newly collapsed cell has queued its uncollapsed neighbours. Collapsed cells keep one candidate. |
| Propagation.CollapsedNeighbour | main.py:56-64 | A collapsed neighbour supports a cell whose only candidate survived it. |
| Propagation.KeepsTilingsPut | main.py:56-62 | Committing `reduce`'s result keeps every valid tiling that the entry grid allowed. |
| Propagation.ReportedPut | main.py:63-65 | Appending a newly collapsed cell keeps `collapsed_cells` equal to the newly collapsed cells, each at its own position with one candidate. |
| Propagation.InvStart | main.py:46-48 | The queue, `done = [start]` and `[start]` establish the loop invariant. |
| Propagation.InvPopCollapsed | main.py:50-55 | Popping a done or collapsed coordinate preserves the invariant, and `done` stays free of duplicates. |
| Propagation.InvPopSurvived | main.py:56-58 | Popping a coordinate whose `reduce` keeps the whole list preserves the invariant. |
| Propagation.InvShrink | main.py:56-66 | The shrinking case preserves the invariant, and the total candidate count falls. |
| Propagation.CascadePopCollapsed | main.py:51-55 | Skipping a done or collapsed coordinate keeps the cascade property: every cell next to a changed or collapsed cell is collapsed, still queued, or supported by that neighbour. |
| Propagation.CascadePopSurvived | main.py:56-58 | Skipping a coordinate whose list did not shrink keeps the cascade property for the rest of the queue. |
| Propagation.CascadeShrink | main.py:56-66 | Committing `reduce`'s survivors keeps the cascade property, provided the new queue keeps the rest of the old one and holds every `affected` coordinate that is not done. |
| Propagation.CascadePut | main.py:59-64 | A changed cell whose uncollapsed neighbours are all queued keeps the cascade property. |
| Propagation.CascadeAway | main.py:59-64 | A pair of adjacent cells away from the changed position keeps its cascade obligation. |
| Update.Commit | main.py:62-64 | Writing the new list, and the flag when one candidate is left, changes exactly that position of the snapshots. |
| Update.Schedule | main.py:59-66 | The new queue is the rest of the old one followed by `Enqueued` over `affected`. `done` and `collapsed_cells` gain the position and its cell exactly when one candidate is left. The invariant holds for the committed snapshot. |
| Update.Shrink | main.py:57-66 | The shrinking case writes `reduce`'s survivors to the cell and flags it collapsed exactly when one candidate is left. The new queue is the rest of the old one followed by `Enqueued` over `affected`, and `done` and `collapsed_cells` grow exactly when one candidate is left. The invariant holds and the candidate count falls. |
| Update.Visit | main.py:50-66 | One pass of the loop, branch by branch. A done coordinate is dropped. A collapsed coordinate is dropped and appended to `done`. A coordinate whose list did not shrink is dropped. Otherwise the cell gets `reduce`'s survivors and is flagged collapsed exactly when one is left, the queue gets the new neighbours, and `done` and `collapsed_cells` grow when one candidate is left. The invariant holds, and either the candidate count falls or the queue shortens. |
| Update.UpdateCells | main.py:45-67 | Returns `start`, then each newly collapsed cell once. Lists only shrink, collapsed cells are untouched, and every valid tiling the grid allowed survives. A cell cut down to one candidate comes back collapsed. A grid settled up to the seeds comes back settled, and the change cascades: every cell next to a cell whose list changed, or that is collapsed, is collapsed or supported by it. No seeds means no change. |
| Painting.PositionsBound | main.py:96-98 | A list of cells occupies at most as many positions as it has entries. |
| Painting.RowsSize | main.py:102 | An `n`-wide grid of `k` rows has `k * n` positions. |
| Painting.Paint | main.py:96-98 | Each reported cell's position shows the tile of its first candidate. Other positions are unchanged, and the counter grows by the number of cells. |
| Painting.StartDrawing | main.py:85-89 | A fresh grid over the catalog ids with an empty canvas and counter 0 satisfies the round invariant, including that every valid tiling drawn from the ids is still allowed. Unless the catalog has exactly one tile, no cell holds exactly one candidate. |
| Painting.StartSettled | main.py:94 | Collapsing to a `reduce` survivor leaves the grid settled up to the neighbours `reduce` reports. Those neighbours lie inside the grid. |
| Painting.ReportedCells | main.py:95-98 | The cells `update_cells` reports are grid cells at their own positions, each with a catalog tile to paint. |
| Painting.FlaggedAfter | main.py:95-98 | A round collapses no more positions than it reports cells. |
| Painting.ReportedCount | main.py:95-98 | The number of cells a round reports is the number of newly collapsed positions, plus one when the picked cell had collapsed before. |
| Painting.NewlyCollapsed | main.py:63-65 | `collapsed_cells` holds the start cell and then one cell per newly collapsed position. |
| Painting.PositionsExact | main.py:63-65 | Distinct grid cells at their own positions occupy as many positions as there are cells. |
| Painting.FlaggedPut | main.py:94 | Counting against the flags with `b` collapsed too gives one position fewer, unless `b` had collapsed already. |
| Painting.FlaggedAdd | main.py:94 | Collapsing `b` adds exactly `b` to the collapsed positions. |
| Painting.PaintedAfter | main.py:96-98 | After painting, the canvas shows exactly the collapsed cells' tiles. |
| Painting.DrawnAfter | main.py:94-95 | After a round, every candidate list is still a subsequence of the catalog ids. |
| Painting.RoundDrawing | main.py:93-98 | A round of collapse, propagation and painting preserves the round invariant, including that every valid tiling drawn from the ids that keeps the collapsed tiles is still allowed. |
| Painting.CompletionsAfter | main.py:93-95 | Collapsing `b` to one of its candidates and propagating loses no valid tiling drawn from the ids that keeps the collapsed tiles. |
| Painting.StuckNoCompletion | main.py:94 | When `reduce` keeps nothing at a cell of a drawing, no valid tiling drawn from the ids keeps the collapsed tiles. |
| Painting.NothingToPick | main.py:92-100 | When the scan finds nothing, every uncollapsed cell has more than 1000 candidates. |
| Painting.NeighboursFit | main.py:92-98 | In a settled grid, two adjacent collapsed cells hold tiles that fit on their shared edge. |
| Painting.RightFits | main.py:92-98 | In a solved grid, each tile fits the one to its right. |
| Painting.BelowFits | main.py:92-98 | In a solved grid, each tile fits the one below it. |
| Painting.SettledTiling | main.py:92-98 | A settled grid in which every cell has collapsed holds a valid tiling. |
| Painting.Completed | main.py:92-103 | With at most 1000 tiles and nothing left to pick, every cell has collapsed. The canvas shows a valid tiling drawn from the catalog, and the counter is at least `n * n`. |
| Painting.PickLowest | main.py:33-43 | Any cell the scan returns is a grid cell at its own position. Its count is at most every uncollapsed count, and if it is collapsed then an uncollapsed cell has the same count. |
| Painting.PickUncollapsed | main.py:38-42 | When no uncollapsed cell holds exactly one candidate, a lowest-entropy pick is uncollapsed. |
| Painting.RoundProgress | main.py:93-98 | After a round the picked position is collapsed and no collapsed position is lost. If no uncollapsed cell held exactly one candidate before, none does after. |
| Painting.FlaggedGrows | main.py:92-100 | A round whose pick was uncollapsed strictly increases the number of collapsed positions. |
| Painting.AllFlagged | main.py:102 | `n * n` collapsed positions in an `n` by `n` grid means every position is collapsed. |
| Painting.FullGridEmpty | main.py:92 | When every cell has collapsed, the scan returns nothing and the loop stops. |
| Driver.NewGrid | main.py:85 | `n` rows of `n` fresh cells, each at its own coordinates, uncollapsed and holding every catalog id. |
| Driver.CollapseCell | main.py:94 | `collapse` on one cell returns `None` exactly when `reduce` keeps nothing, and then leaves the cell unchanged. Otherwise it commits to a `reduce` survivor and returns the neighbours. On the grid's snapshots only the cell's own position changes. |
| Driver.CollapseAt | main.py:94 | The same seen on the grid's snapshots: `None` exactly when `reduce` keeps nothing at `b`, with nothing changed. Otherwise only position `b` changes, to one survivor, and it becomes collapsed. |
| Driver.Spread | main.py:95 | `update_cells` after a collapse leaves the round's propagation facts behind: the reported cells, each once, shrunk lists, the entry grid's valid tilings kept, and a settled grid. |
| Driver.Propagate | main.py:94-95 | `collapse` then `update_cells`. The collapse raises exactly when `reduce` keeps nothing at the picked cell, and then nothing changed. Otherwise the grid shrank, kept its collapsed cells and every valid tiling that puts the chosen tile at the picked cell, and is settled again. |
| Driver.Round | main.py:93-98 | A round crashes exactly when `reduce` keeps nothing at the picked cell, and then grid, canvas and counter are unchanged. Otherwise it keeps the round invariant, the picked position ends collapsed, no collapsed position is lost, and the counter grows by the newly collapsed positions, plus one when the picked cell had collapsed before. |
| Driver.Finish | main.py:96-98 | Painting the cells `update_cells` reported keeps the round invariant, with the picked position collapsed and no collapsed position lost. The counter grows by the number of reported cells, which is the number of newly collapsed positions, plus one when the picked cell had collapsed before. |
| Driver.Rescan | main.py:100 | A new scan returns the row-major fold over the grid and leaves every cell as it was. |
| Driver.Turn | main.py:93-100 | The pick is a cell of lowest entropy. The round ends as `Round` states, and unless it crashed the new scan matches the grid. |
| Driver.Start | main.py:85-89 | Every cell of the fresh `n` by `n` grid holds all catalog ids and is uncollapsed. With the empty canvas it forms a drawing with counter 0, and `new_choose` is the scan of that grid. Unless the catalog has exactly one tile, no cell holds exactly one candidate. |
| Driver.FuelSuffices | main.py:92-100 | Once `n * n` positions are collapsed, the scan returns nothing. |
| Driver.TilingDone | main.py:92-103 | An empty scan with at most 1000 tiles means the counter is at least `n * n` and the canvas shows a valid tiling drawn from the catalog. |
| Driver.Run | main.py:79-103 | "No combination found" is reported exactly when the loop finished with a count below `n * n`. With at most 1000 tiles, a finished run reports nothing and its canvas shows a valid tiling drawn from the catalog. A crashed run stopped at a drawing whose picked cell had the lowest entropy and had no `reduce` survivor, and no valid tiling drawn from the catalog keeps the tiles of its collapsed cells. Unless the catalog has exactly one tile, `n * n` rounds of fuel are enough. |

## Left out

- `read_files` (main.py:13-31) is left out: listing the directory, loading JSON and opening
  and rotating images are file and image I/O. The catalog is a parameter. Only the side
  rotation at main.py:27-28 is modelled.
- `draw_canvas` (main.py:69-77) renders and displays an image and is left out. The canvas is
  returned instead.
- The `img` field of `Tile` (tile.py:12) is left out. The image's file name stands in for it
  when deriving the id.
- The canvas holds tile values. The source holds references to the catalog's tile objects.
- `random.sample` (cell.py:39, main.py:93) is a nondeterministic choice (`:|`), not a
  probability distribution. The commented-out seeding (main.py:82-83) is not modelled.
- `__str__` and `__repr__` (cell.py:9-12, tile.py:17-20) are left out. The `print` at
  main.py:103 becomes the `noCombination` result of `Run`.
- The constants `IMG_DIRECTORY`, `DIMENSION` and `SIZE` (main.py:9-11) are left out. The grid
  size is the parameter `n`.
- The order of the catalog ids (`list(map(lambda tile: tile, tiles))`, main.py:85) is the
  dictionary's iteration order, which the model takes as the parameter `ids`.
- Driver.Run: runs for at most `fuel` rounds and otherwise ends as `OutOfFuel`. Unless the
  catalog has exactly one tile, `n * n` rounds always suffice. With one tile every cell starts
  with a single candidate, the `elif` lets a collapsed cell be picked, and such a round can
  change nothing, so an adversarial choice could repeat forever. A random choice ends with
  probability one, which the model does not capture.
- Driver.Run: requires every catalog id to name a tile with four sides. The source fails
  with a `KeyError` or `IndexError` otherwise, and those failures are not modelled. The same
  holds for `ReduceDefined` on `reduce` and for `Known` on `_reduce_single_side`.
- Driver.Run: states what a finished run shows only when the catalog has at most 1000
  tiles. With more, the loop ends at once with an empty canvas and the count 0 (`ScanEmpty`).
- Driver.Run: says nothing about the canvas of a run that ran out of fuel.
- Update.UpdateCells: states which cells are reported (`start` first, each once) but not the
  order of the others, which is the order in which they collapsed.
- Cells.ReduceCandidates: its own contract says only that the survivors are among the
  candidates. The exact survivors and `affected` list are stated by `ReduceSurvivors`,
  `ReduceFour` and `ReduceAffectedList`.
- The grid width is `len(grid[0])` in the source. The model requires rectangular grids,
  which is what `main` builds.
- Python's arbitrary-precision integers need no wrap-around, so the counters are `nat`.
