/** `main` (main.py): build the grid, then repeatedly pick one of the lowest-entropy cells,
    collapse it, propagate with `update_cells` and paint every cell that collapsed, until no
    cell is left to pick; finally compare the number of painted cells with the grid size.
    The random pick is a nondeterministic choice, and the number of rounds is bounded by `fuel`
    because an adversarial choice may pick the same collapsed cell forever. */
module Driver {
  import opened Seqs
  import opened Tiles
  import opened Catalog
  import opened Cells
  import opened Selection
  import opened Propagation
  import opened Update
  import opened Painting

  /** How `main` ends, with the final `counter`: the loop ran out of cells to pick, a pick had
      no candidate left (`random.sample` raises inside `collapse`), or the round bound ran out. */
  datatype Outcome = Finished(counter: nat) | Crashed(counter: nat) | OutOfFuel(counter: nat)

  /** The grid line 85 builds: `n` rows of `n` new cells, each uncollapsed with every tile id
      of the catalog as a candidate, cell `(j, i)` at row `i`, column `j`. */
  method NewGrid(ids: seq<TileId>, n: nat) returns (grid: seq<seq<Cell>>)
    requires n > 0
    ensures Placed(grid) && |grid| == n && |grid[0]| == n
    ensures forall i, j :: 0 <= i < n && 0 <= j < n ==> grid[i][j].possible == ids && !grid[i][j].collapsed
    ensures forall c :: c in CellsOf(grid) ==> fresh(c)
  {
    grid := [];
    for i := 0 to n
      invariant |grid| == i && forall r :: 0 <= r < i ==> |grid[r]| == n
      invariant forall r, j :: 0 <= r < i && 0 <= j < n ==>
                  && fresh(grid[r][j]) && grid[r][j].possible == ids && !grid[r][j].collapsed
                  && grid[r][j].x == j && grid[r][j].y == r
    {
      var row: seq<Cell> := [];
      for j := 0 to n
        invariant |row| == j
        invariant forall r, j :: 0 <= r < i && 0 <= j < n ==> grid[r][j].possible == ids && !grid[r][j].collapsed
        invariant forall k :: 0 <= k < j ==>
                    && fresh(row[k]) && row[k].possible == ids && !row[k].collapsed
                    && row[k].x == k && row[k].y == i
      {
        var cell := new Cell(ids, j, i);
        row := row + [cell];
      }
      assert forall r :: 0 <= r < i ==> (grid + [row])[r] == grid[r];
      grid := grid + [row];
    }
  }

  /** `next_cell.collapse(grid, tiles)`, with what `reduce` returns for the cell given as `r`:
      either the cell is unchanged and `None` comes back, or it holds only `t`, one of the
      candidates `reduce` keeps, is collapsed, and the neighbours come back. Seen on the grid's
      candidate lists `P` and flags `F`, only the cell's own position changes. */
  method CollapseCell(grid: seq<seq<Cell>>, tiles: TileMap, cell: Cell, ghost r: Reduction,
                      ghost P: Snapshot, ghost F: Flags)
    returns (affected: Option<seq<Coord>>, ghost t: TileId)
    requires Placed(grid) && InBounds(Coord(cell.x, cell.y), grid) && grid[cell.y][cell.x] == cell
    requires P == Possibles(grid) && F == FlagsOf(grid)
    requires ReduceDefined(cell.possible, cell.x, cell.y, Possibles(grid), tiles)
    requires r == cell.Reduce(grid, tiles)
    modifies cell
    ensures affected.None? <==> r.possible == []
    ensures affected.None? ==> cell.possible == old(cell.possible) && cell.collapsed == old(cell.collapsed)
    ensures affected.Some? ==>
              && t in r.possible && affected.value == r.affected
              && cell.possible == [t] && cell.collapsed
    ensures Possibles(grid) == Put(P, Coord(cell.x, cell.y), cell.possible)
    ensures FlagsOf(grid) == Put(F, Coord(cell.x, cell.y), cell.collapsed)
  {
    affected := cell.Collapse(grid, tiles);
    t := if affected.Some? then cell.possible[0] else "";
    if affected.Some? {
      assert cell.possible == [t];
    }
    forall i, j | 0 <= i < |grid| && 0 <= j < |grid[i]| && (i, j) != (cell.y, cell.x)
      ensures P[i][j] == grid[i][j].possible && F[i][j] == grid[i][j].collapsed
    {
      assert grid[i][j] != cell;
    }
    SnapshotPut(grid, P, F, Coord(cell.x, cell.y), cell.possible, cell.collapsed);
  }

  /** `next_cell.collapse(grid, tiles)` for the cell at `b`, seen on the grid's candidate lists
      `P` and flags `F`: either nothing changes and `None` comes back, or `b` now holds only
      `t`, one of the candidates `reduce` keeps, and the neighbours come back. */
  method CollapseAt(grid: seq<seq<Cell>>, tiles: TileMap, b: Coord, ghost P: Snapshot, ghost F: Flags)
    returns (affected: Option<seq<Coord>>, ghost t: TileId)
    requires Placed(grid) && InBounds(b, grid) && P == Possibles(grid) && F == FlagsOf(grid)
    requires AllKnown(P, tiles)
    modifies grid[b.y][b.x]
    ensures affected.None? <==> Stuck(P, b, tiles)
    ensures affected.None? ==> Possibles(grid) == P && FlagsOf(grid) == F
    ensures affected.Some? ==>
              && Picked(P, b, t, affected.value, tiles)
              && Possibles(grid) == Put(P, b, [t]) && FlagsOf(grid) == Put(F, b, true)
  {
    var cell := grid[b.y][b.x];
    KnownDefined(P, b.x, b.y, tiles);
    ghost var r := ReduceCandidates(P[b.y][b.x], b.x, b.y, P, tiles);
    affected, t := CollapseCell(grid, tiles, cell, r, P, F);
    if affected.None? {
      PutSame(P, b);
      PutSame(F, b);
    }
  }

  /** `update_cells` from the cell `next`, just collapsed to `t`, with the neighbours
      `collapse` reported. */
  method Spread(grid: seq<seq<Cell>>, tiles: TileMap, next: Cell, affected: seq<Coord>,
                ghost P: Snapshot, ghost F: Flags, ghost t: TileId)
    returns (cells: seq<Cell>)
    requires Placed(grid) && SameShape(P, F) && AllKnown(P, tiles) && Settled(P, F, [], tiles) && Sound(P, F)
    requires InBounds(Coord(next.x, next.y), grid) && grid[next.y][next.x] == next
    requires Picked(P, Coord(next.x, next.y), t, affected, tiles)
    requires Possibles(grid) == Put(P, Coord(next.x, next.y), [t])
    requires FlagsOf(grid) == Put(F, Coord(next.x, next.y), true)
    modifies CellsOf(grid)
    ensures Propagated(grid, P, F, Possibles(grid), FlagsOf(grid), Coord(next.x, next.y), t, cells, tiles)
  {
    StartSettled(P, F, Coord(next.x, next.y), t, affected, tiles);
    cells := UpdateCells(grid, tiles, affected, next);
  }

  /** The first half of a round for the picked cell `next`: `collapse` it, then, unless that
      raised, `update_cells` from it. Returns the cells to paint, or `None` (and nothing
      changed) when `collapse` raised. */
  method Propagate(grid: seq<seq<Cell>>, tiles: TileMap, next: Cell, ghost P: Snapshot, ghost F: Flags)
    returns (cells: Option<seq<Cell>>, ghost t: TileId)
    requires Placed(grid) && P == Possibles(grid) && F == FlagsOf(grid)
    requires SameShape(P, F) && AllKnown(P, tiles) && Settled(P, F, [], tiles) && Sound(P, F)
    requires InBounds(Coord(next.x, next.y), grid) && grid[next.y][next.x] == next
    modifies CellsOf(grid)
    ensures cells.None? <==> Stuck(P, Coord(next.x, next.y), tiles)
    ensures cells.None? ==> Possibles(grid) == P && FlagsOf(grid) == F
    ensures cells.Some? ==> Propagated(grid, P, F, Possibles(grid), FlagsOf(grid), Coord(next.x, next.y), t, cells.value, tiles)
  {
    var affected;
    affected, t := CollapseAt(grid, tiles, Coord(next.x, next.y), P, F);
    if affected.None? {
      return None, t;
    }
    var reported := Spread(grid, tiles, next, affected.value, P, F, t);
    cells := Some(reported);
  }

  /** What a round from the drawing `(P, F)` that picked `b` leaves behind, `(P2, F2)` with the
      canvas and counter: it crashes exactly when `reduce` keeps nothing at `b`, and then nothing
      changed; otherwise the grid is again a drawing, the round made progress, and the counter
      grew by the number of newly collapsed cells, plus one when `b` had collapsed before. */
  ghost predicate RoundResult(P: Snapshot, F: Flags, b: Coord, ids: seq<TileId>, tiles: TileMap, n: nat,
                              canvas: Canvas, counter: nat, crashed: bool,
                              P2: Snapshot, F2: Flags, canvas': Canvas, counter': nat)
  {
    && (crashed <==> Stuck(P, b, tiles))
    && (crashed ==> P2 == P && F2 == F && canvas' == canvas && counter' == counter)
    && (!crashed ==> && Drawing(P2, F2, ids, tiles, n, canvas', counter') && Progress(P, F, P2, F2, b)
                     && counter' == counter + Recount(F, F2, b))
  }

  /** One round of `main`'s loop for the picked cell `next`: collapse it, propagate, paint.
      Either `collapse` raised and nothing changed, or the grid is again a drawing. */
  method Round(grid: seq<seq<Cell>>, tiles: TileMap, ids: seq<TileId>, n: nat, next: Cell,
               canvas: Canvas, counter: nat, ghost P: Snapshot, ghost F: Flags)
    returns (crashed: bool, canvas': Canvas, counter': nat, ghost P2: Snapshot, ghost F2: Flags)
    requires Placed(grid) && P == Possibles(grid) && F == FlagsOf(grid)
    requires Drawing(P, F, ids, tiles, n, canvas, counter)
    requires InBounds(Coord(next.x, next.y), grid) && grid[next.y][next.x] == next
    modifies CellsOf(grid)
    ensures P2 == Possibles(grid) && F2 == FlagsOf(grid)
    ensures RoundResult(P, F, Coord(next.x, next.y), ids, tiles, n, canvas, counter, crashed, P2, F2, canvas', counter')
  {
    var cells, t := Propagate(grid, tiles, next, P, F);
    P2, F2 := Possibles(grid), FlagsOf(grid);
    if cells.None? {
      return true, canvas, counter, P2, F2;
    }
    ghost var b := Coord(next.x, next.y);
    assert !Stuck(P, b, tiles);
    assert Propagated(grid, P, F, P2, F2, b, t, cells.value, tiles);
    canvas', counter' := Finish(grid, tiles, ids, n, Coord(next.x, next.y), cells.value, canvas, counter, P, F, P2, F2, t);
    crashed := false;
    RoundFinished(P, F, Coord(next.x, next.y), ids, tiles, n, canvas, counter, P2, F2, canvas', counter');
  }

  /** A round that did not crash ends as `RoundResult` says. */
  lemma RoundFinished(P: Snapshot, F: Flags, b: Coord, ids: seq<TileId>, tiles: TileMap, n: nat,
                 canvas: Canvas, counter: nat, P2: Snapshot, F2: Flags, canvas': Canvas, counter': nat)
    requires !Stuck(P, b, tiles)
    requires Drawing(P2, F2, ids, tiles, n, canvas', counter') && Progress(P, F, P2, F2, b)
    requires counter' == counter + Recount(F, F2, b)
    ensures RoundResult(P, F, b, ids, tiles, n, canvas, counter, false, P2, F2, canvas', counter')
  {
  }

  /** The second half of a round: `update_cells` reported `cells` after the cell at `b`
      collapsed to `t`; paint them and count each of them. The grid is a drawing again,
      progress was made, and the counter grew by the number of cells that collapsed in this
      round, plus one when `b` had collapsed before. */
  method Finish(grid: seq<seq<Cell>>, tiles: TileMap, ids: seq<TileId>, n: nat, b: Coord, cells: seq<Cell>,
                canvas: Canvas, counter: nat, ghost P: Snapshot, ghost F: Flags,
                ghost P2: Snapshot, ghost F2: Flags, ghost t: TileId)
    returns (canvas': Canvas, counter': nat)
    requires Placed(grid) && P2 == Possibles(grid) && F2 == FlagsOf(grid)
    requires Drawing(P, F, ids, tiles, n, canvas, counter) && |P| == |grid| && |P[0]| == |grid[0]|
    requires Propagated(grid, P, F, P2, F2, b, t, cells, tiles)
    ensures P2 == Possibles(grid) && F2 == FlagsOf(grid)
    ensures Drawing(P2, F2, ids, tiles, n, canvas', counter')
    ensures Progress(P, F, P2, F2, b)
    ensures counter' == counter + |cells|
    ensures counter' == counter + Recount(F, F2, b)
  {
    ReportedCells(grid, P, F, P2, F2, b, t, cells, tiles);
    ReportedCount(grid, P, F, P2, F2, b, t, cells, tiles);
    label Painting:
    canvas', counter' := Paint(grid, tiles, cells, canvas, counter);
    assert unchanged@Painting(CellsOf(grid));
    RoundDrawing(grid, P, F, P2, F2, b, t, cells, ids, tiles, n, canvas, counter, canvas', counter');
    RoundProgress(grid, P, F, P2, F2, b, t, cells, tiles);
  }

  /** Where a crashed run stops: `(P, F)` is a drawing of `canvas` in which the pass picked
      `b`, and `reduce` keeps none of `b`'s candidates, so `collapse` raises there. */
  ghost predicate StuckDrawing(P: Snapshot, F: Flags, b: Coord, ids: seq<TileId>, tiles: TileMap, n: nat,
                               canvas: Canvas, counter: nat)
  {
    Drawing(P, F, ids, tiles, n, canvas, counter) && Lowest(P, F, b) && Stuck(P, b, tiles)
  }

  /** `lowest_entropy_cells` run again on the grid: scanning leaves every cell as it was. */
  method Rescan(grid: seq<seq<Cell>>, ghost P: Snapshot, ghost F: Flags) returns (choose: seq<Cell>)
    requires Placed(grid) && P == Possibles(grid) && F == FlagsOf(grid)
    ensures Placed(grid) && P == Possibles(grid) && F == FlagsOf(grid)
    ensures choose == Scan(RowMajor(grid)).chosen
  {
    label Scanning:
    choose := LowestEntropyCells(grid);
    assert unchanged@Scanning(CellsOf(grid));
  }

  /** The body of `main`'s loop: pick any cell of `choose`, run a round for it and, unless
      `collapse` raised, scan the grid again. */
  method Turn(grid: seq<seq<Cell>>, tiles: TileMap, ids: seq<TileId>, n: nat, choose: seq<Cell>,
              canvas: Canvas, counter: nat, ghost P: Snapshot, ghost F: Flags)
    returns (crashed: bool, choose': seq<Cell>, canvas': Canvas, counter': nat,
             ghost P': Snapshot, ghost F': Flags, ghost b: Coord)
    requires Placed(grid) && P == Possibles(grid) && F == FlagsOf(grid)
    requires Drawing(P, F, ids, tiles, n, canvas, counter)
    requires choose == Scan(RowMajor(grid)).chosen && |choose| > 0
    modifies CellsOf(grid)
    ensures P' == Possibles(grid) && F' == FlagsOf(grid)
    ensures Lowest(P, F, b)
    ensures RoundResult(P, F, b, ids, tiles, n, canvas, counter, crashed, P', F', canvas', counter')
    ensures !crashed ==> choose' == Scan(RowMajor(grid)).chosen
  {
    assert choose[0] in choose;
    var next :| next in choose;
    PickLowest(grid, P, F, next);
    b := Coord(next.x, next.y);
    crashed, canvas', counter', P', F' := Round(grid, tiles, ids, n, next, canvas, counter, P, F);
    if crashed {
      return true, choose, canvas', counter', P', F', b;
    }
    choose' := Rescan(grid, P', F');
  }

  /** The start of `main`: the fresh grid, the empty canvas and the first pass over the grid.
      Every cell is uncollapsed with all of `ids` as candidates; the grid is a drawing with
      counter 0, and unless the catalog has exactly one tile no
      cell holds exactly one candidate. */
  method Start(tiles: TileMap, ids: seq<TileId>, n: nat) returns (grid: seq<seq<Cell>>, canvas: Canvas, choose: seq<Cell>)
    requires n > 0 && Known(ids, tiles)
    ensures Placed(grid) && |grid| == n && |grid[0]| == n
    ensures forall i, j :: 0 <= i < n && 0 <= j < n ==> grid[i][j].possible == ids && !grid[i][j].collapsed
    ensures forall c :: c in CellsOf(grid) ==> fresh(c)
    ensures Drawing(Possibles(grid), FlagsOf(grid), ids, tiles, n, canvas, 0)
    ensures |ids| != 1 ==> NoSingles(Possibles(grid), FlagsOf(grid))
    ensures choose == Scan(RowMajor(grid)).chosen
  {
    grid := NewGrid(ids, n);
    canvas := seq(n, _ => seq(n, _ => None));
    StartDrawing(Possibles(grid), FlagsOf(grid), ids, tiles, n, canvas);
    choose := Rescan(grid, Possibles(grid), FlagsOf(grid));
  }

  /** With `n * n` collapsed positions, the pass finds nothing left to pick. */
  lemma FuelSuffices(grid: seq<seq<Cell>>, P: Snapshot, F: Flags, ids: seq<TileId>, tiles: TileMap, n: nat,
                     canvas: Canvas, counter: nat)
    requires Placed(grid) && |grid| == n && P == Possibles(grid) && F == FlagsOf(grid)
    requires Drawing(P, F, ids, tiles, n, canvas, counter) && |Flagged(F)| >= n * n
    ensures Scan(RowMajor(grid)).chosen == []
  {
    AllFlagged(F, n);
    FullGridEmpty(grid, P, F);
  }

  /** When the pass finds nothing and the catalog has at most `Sentinel` tiles, every cell was
      counted and the canvas shows a valid tiling drawn from `ids`. */
  lemma TilingDone(grid: seq<seq<Cell>>, P: Snapshot, F: Flags, ids: seq<TileId>, tiles: TileMap, n: nat,
                 canvas: Canvas, counter: nat)
    requires Placed(grid) && P == Possibles(grid) && F == FlagsOf(grid)
    requires Drawing(P, F, ids, tiles, n, canvas, counter) && |ids| <= Sentinel
    requires Scan(RowMajor(grid)).chosen == []
    ensures counter >= n * n && ShowsTiling(canvas, ids, tiles, n)
  {
    NothingToPick(grid, P, F);
    Completed(P, F, ids, tiles, n, canvas, counter);
  }

  /** `main`: returns how it ended, the canvas `draw_canvas` would show, and whether it would
      print "No combination found". With at most `Sentinel` tiles, a run that finishes has
      collapsed every cell into a valid tiling and prints nothing. A run that crashes stopped
      at a drawing `(P, F)` of the canvas in which the pass picked `b`, where `reduce` keeps
      nothing; no valid tiling drawn from `ids` keeps the tiles of its collapsed cells, so the
      crash loses no way to finish the picture. Unless the catalog has exactly one tile, every round collapses a new cell, so
      `n * n` rounds are enough. */
  method Run(tiles: TileMap, ids: seq<TileId>, n: nat, fuel: nat)
    returns (outcome: Outcome, canvas: Canvas, noCombination: bool, ghost P: Snapshot, ghost F: Flags, ghost b: Coord)
    requires n > 0 && Known(ids, tiles)
    ensures noCombination <==> outcome.Finished? && outcome.counter < n * n
    ensures outcome.Finished? && |ids| <= Sentinel ==>
              !noCombination && ShowsTiling(canvas, ids, tiles, n)
    ensures outcome.Crashed? ==> StuckDrawing(P, F, b, ids, tiles, n, canvas, outcome.counter)
    ensures outcome.Crashed? ==> forall S :: ValidTiling(S, tiles) && DrawnFrom(S, ids) ==> !Extends(S, P, F)
    ensures fuel >= n * n && |ids| != 1 ==> !outcome.OutOfFuel?
  {
    var grid, choose;
    grid, canvas, choose := Start(tiles, ids, n);
    P, F, b := Possibles(grid), FlagsOf(grid), Coord(0, 0);
    var counter: nat := 0;
    var rounds: nat := 0;
    while |choose| > 0
      invariant Placed(grid) && |grid| == n && |grid[0]| == n
      invariant forall c :: c in CellsOf(grid) ==> fresh(c)
      invariant P == Possibles(grid) && F == FlagsOf(grid)
      invariant Drawing(P, F, ids, tiles, n, canvas, counter)
      invariant choose == Scan(RowMajor(grid)).chosen
      invariant rounds <= fuel
      invariant |ids| != 1 ==> NoSingles(P, F) && rounds <= |Flagged(F)|
      decreases fuel - rounds
    {
      if rounds == fuel {
        if fuel >= n * n && |ids| != 1 {
          FuelSuffices(grid, P, F, ids, tiles, n, canvas, counter);
          assert false;
        }
        return OutOfFuel(counter), canvas, false, P, F, b;
      }
      rounds := rounds + 1;
      ghost var P0, F0 := P, F;
      var crashed;
      crashed, choose, canvas, counter, P, F, b := Turn(grid, tiles, ids, n, choose, canvas, counter, P, F);
      if crashed {
        StuckNoCompletion(P, F, b, ids, tiles, n, canvas, counter);
        return Crashed(counter), canvas, false, P, F, b;
      }
      if |ids| != 1 {
        PickUncollapsed(P0, F0, b);
        FlaggedGrows(P0, F0, P, F, b);
      }
    }
    outcome := Finished(counter);
    noCombination := counter < n * n;
    if |ids| <= Sentinel {
      TilingDone(grid, P, F, ids, tiles, n, canvas, counter);
    }
  }
}
