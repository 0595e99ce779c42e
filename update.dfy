module Update {
  import opened Seqs
  import opened Tiles
  import opened Catalog
  import opened Cells
  import opened Propagation

  /** Writes the new candidate list of the uncollapsed cell at `b`, and marks it collapsed
      when asked; `Q` and `G` are the grid's candidates and flags before the write. */
  method Commit(grid: seq<seq<Cell>>, b: Coord, np: seq<TileId>, collapse: bool, ghost Q: Snapshot, ghost G: Flags)
    requires Placed(grid) && InBounds(b, grid)
    requires Q == Possibles(grid) && G == FlagsOf(grid) && !G[b.y][b.x]
    modifies grid[b.y][b.x]
    ensures Possibles(grid) == Put(Q, b, np)
    ensures FlagsOf(grid) == Put(G, b, collapse)
  {
    var cell := grid[b.y][b.x];
    cell.possible := np;
    if collapse {
      cell.collapsed := true;
    }
    assert forall i, j :: 0 <= i < |grid| && 0 <= j < |grid[i]| && (i, j) != (b.y, b.x) ==> grid[i][j] != cell;
    SnapshotIs(grid, Put(Q, b, np));
    FlagsAre(grid, Put(G, b, collapse));
  }

  /** The bookkeeping of the shrinking case: queue the neighbours of the head of the queue that
      are not done, and record the cell as collapsed when one candidate is left. */
  method Schedule(grid: seq<seq<Cell>>, tiles: TileMap, ghost start: Cell, ghost P0: Snapshot, ghost F0: Flags,
                  ghost guard: bool, ghost Q: Snapshot, ghost G: Flags,
                  queue: seq<Coord>, done: seq<Coord>, cells: seq<Cell>, r: Reduction)
    returns (queue': seq<Coord>, done': seq<Coord>, cells': seq<Cell>)
    requires Inv(grid, tiles, start, P0, F0, guard, Q, G, queue, done, cells)
    requires queue != [] && InBounds(queue[0], Q) && queue[0] !in done && !G[queue[0].y][queue[0].x]
    requires ReduceDefined(Q[queue[0].y][queue[0].x], queue[0].x, queue[0].y, Q, tiles)
    requires r == ReduceCandidates(Q[queue[0].y][queue[0].x], queue[0].x, queue[0].y, Q, tiles)
    requires |r.possible| != |Q[queue[0].y][queue[0].x]|
    ensures queue' == Enqueued(queue[1..], done, r.affected)
    ensures done' == (if |r.possible| == 1 then done + [queue[0]] else done)
    ensures cells' == (if |r.possible| == 1 then cells + [grid[queue[0].y][queue[0].x]] else cells)
    ensures Inv(grid, tiles, start, P0, F0, guard, Put(Q, queue[0], r.possible), Put(G, queue[0], |r.possible| == 1),
                queue', done', cells')
    ensures Count(Put(Q, queue[0], r.possible)) < Count(Q)
  {
    var next := queue[0];
    queue' := EnqueueNew(queue[1..], done, r.affected);
    EnqueuedGrows(queue[1..], done, r.affected);
    EnqueuedCovers(queue[1..], done, r.affected);
    var nf := |r.possible| == 1;
    if nf {
      cells', done' := cells + [grid[next.y][next.x]], done + [next];
    } else {
      cells', done' := cells, done;
    }
    InvShrink(grid, tiles, start, P0, F0, guard, Q, G, queue, done, cells, queue', r.possible, nf, done', cells');
  }

  /** The shrinking case of a pass: `cell`, at the head of the queue, keeps fewer candidates.
      Queue the neighbours not yet done, store the list, and collapse the cell when one
      candidate is left. */
  method Shrink(grid: seq<seq<Cell>>, tiles: TileMap, ghost start: Cell, ghost P0: Snapshot, ghost F0: Flags,
                ghost guard: bool, ghost Q: Snapshot, ghost G: Flags,
                queue: seq<Coord>, done: seq<Coord>, cells: seq<Cell>, r: Reduction)
    returns (queue': seq<Coord>, done': seq<Coord>, cells': seq<Cell>, ghost Q': Snapshot, ghost G': Flags)
    requires Q == Possibles(grid) && G == FlagsOf(grid)
    requires Inv(grid, tiles, start, P0, F0, guard, Q, G, queue, done, cells)
    requires queue != [] && InBounds(queue[0], Q) && queue[0] !in done && !G[queue[0].y][queue[0].x]
    requires ReduceDefined(Q[queue[0].y][queue[0].x], queue[0].x, queue[0].y, Q, tiles)
    requires r == ReduceCandidates(Q[queue[0].y][queue[0].x], queue[0].x, queue[0].y, Q, tiles)
    requires |r.possible| != |Q[queue[0].y][queue[0].x]|
    modifies grid[queue[0].y][queue[0].x]
    ensures Q' == Possibles(grid) && G' == FlagsOf(grid)
    ensures Q' == Put(Q, queue[0], r.possible) && G' == Put(G, queue[0], |r.possible| == 1)
    ensures queue' == Enqueued(queue[1..], done, r.affected)
    ensures done' == (if |r.possible| == 1 then done + [queue[0]] else done)
    ensures cells' == (if |r.possible| == 1 then cells + [grid[queue[0].y][queue[0].x]] else cells)
    ensures Inv(grid, tiles, start, P0, F0, guard, Q', G', queue', done', cells')
    ensures Count(Q') < Count(Q)
  {
    var next := queue[0];
    queue', done', cells' := Schedule(grid, tiles, start, P0, F0, guard, Q, G, queue, done, cells, r);
    assert unchanged(CellsOf(grid));
    var nf := |r.possible| == 1;
    Commit(grid, next, r.possible, nf, Q, G);
    Q', G' := Put(Q, next, r.possible), Put(G, next, nf);
  }

  /** One pass of the `while queue` loop: pop the head of the queue and, unless it is done or
      collapsed, filter its candidates against its neighbours, narrowing it when the list shrinks. */
  method Visit(grid: seq<seq<Cell>>, tiles: TileMap, ghost start: Cell, ghost P0: Snapshot, ghost F0: Flags,
               ghost guard: bool, ghost Q: Snapshot, ghost G: Flags,
               queue: seq<Coord>, done: seq<Coord>, cells: seq<Cell>)
    returns (queue': seq<Coord>, done': seq<Coord>, cells': seq<Cell>, ghost Q': Snapshot, ghost G': Flags)
    requires Q == Possibles(grid) && G == FlagsOf(grid)
    requires Inv(grid, tiles, start, P0, F0, guard, Q, G, queue, done, cells) && queue != []
    modifies CellsOf(grid)
    ensures Q' == Possibles(grid) && G' == FlagsOf(grid)
    ensures Visited(grid, Q, G, queue, done, cells, tiles, Q', G', queue', done', cells')
    ensures Inv(grid, tiles, start, P0, F0, guard, Q', G', queue', done', cells')
    ensures Count(Q') < Count(Q) || (Q' == Q && |queue'| < |queue|)
  {
    var next := queue[0];
    InvHead(grid, tiles, start, P0, F0, guard, Q, G, queue, done, cells);
    if next in done {
      InvPopCollapsed(grid, tiles, start, P0, F0, guard, Q, G, queue, done, cells);
      return queue[1..], done, cells, Q, G;
    }
    var cell := grid[next.y][next.x];
    assert cell.possible == Q[next.y][next.x] && cell.collapsed == G[next.y][next.x];
    if cell.collapsed {
      InvPopCollapsed(grid, tiles, start, P0, F0, guard, Q, G, queue, done, cells);
      return queue[1..], done + [next], cells, Q, G;
    }
    KnownDefined(Q, next.x, next.y, tiles);
    var r := cell.Reduce(grid, tiles);
    if |cell.possible| == |r.possible| {
      InvPopSurvived(grid, tiles, start, P0, F0, guard, Q, G, queue, done, cells);
      return queue[1..], done, cells, Q, G;
    }
    assert cell in CellsOf(grid);
    queue', done', cells', Q', G' := Shrink(grid, tiles, start, P0, F0, guard, Q, G, queue, done, cells, r);
  }

  /** `update_cells`: propagate the collapse of `start` from the coordinates `affected`.
      Returns `start` followed by the cells this propagation collapsed, each once. Candidate
      lists only shrink, collapsed cells are left alone, a tile of any valid tiling the grid
      allowed is kept, and a grid settled up to `affected` comes back settled. */
  method UpdateCells(grid: seq<seq<Cell>>, tiles: TileMap, affected: seq<Coord>, start: Cell)
    returns (collapsedCells: seq<Cell>)
    requires Placed(grid) && AllKnown(Possibles(grid), tiles)
    requires forall c :: c in affected ==> InBounds(c, grid)
    requires InBounds(Coord(start.x, start.y), grid) && grid[start.y][start.x] == start && start.collapsed
    modifies CellsOf(grid)
    ensures |collapsedCells| > 0 && collapsedCells[0] == start && NoDup(collapsedCells)
    ensures Reported(grid, collapsedCells, old(FlagsOf(grid)), Possibles(grid), FlagsOf(grid))
    ensures Shrunk(Possibles(grid), old(Possibles(grid)))
    ensures Frozen(old(Possibles(grid)), old(FlagsOf(grid)), Possibles(grid), FlagsOf(grid))
    ensures SinglesCollapsed(old(Possibles(grid)), Possibles(grid), FlagsOf(grid))
    ensures AllKnown(Possibles(grid), tiles)
    ensures KeepsTilings(old(Possibles(grid)), Possibles(grid), tiles)
    ensures old(Settled(Possibles(grid), FlagsOf(grid), affected, tiles) && Sound(Possibles(grid), FlagsOf(grid))) ==>
              && Settled(Possibles(grid), FlagsOf(grid), [], tiles) && Sound(Possibles(grid), FlagsOf(grid))
              && Cascaded(old(Possibles(grid)), Possibles(grid), FlagsOf(grid), [], tiles)
    ensures affected == [] ==>
              && collapsedCells == [start]
              && Possibles(grid) == old(Possibles(grid)) && FlagsOf(grid) == old(FlagsOf(grid))
  {
    ghost var P0, F0 := Possibles(grid), FlagsOf(grid);
    ghost var guard := Settled(P0, F0, affected, tiles) && Sound(P0, F0);
    ghost var Q, G := P0, F0;
    var queue := affected;
    var done := [Coord(start.x, start.y)];
    collapsedCells := [start];
    InvStart(grid, tiles, start, P0, F0, affected);
    while |queue| > 0
      invariant Q == Possibles(grid) && G == FlagsOf(grid)
      invariant Inv(grid, tiles, start, P0, F0, guard, Q, G, queue, done, collapsedCells)
      invariant affected == [] ==> queue == [] && Q == P0 && G == F0 && collapsedCells == [start]
      decreases Count(Q), |queue|
    {
      queue, done, collapsedCells, Q, G := Visit(grid, tiles, start, P0, F0, guard, Q, G, queue, done, collapsedCells);
    }
  }
}
