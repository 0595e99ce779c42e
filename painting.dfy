/** The picture `main` (main.py) paints while the grid collapses, and what holds between two
    rounds of its loop: the canvas, the `for cell in collapsed` loop that paints, and the
    lemmas that carry the loop's invariant through a round and to the end of the loop. */
module Painting {
  import opened Seqs
  import opened Tiles
  import opened Catalog
  import opened Cells
  import opened Selection
  import opened Propagation

  /** `canvas_grid`: the tile painted at each position, `None` until one is. */
  type Canvas = seq<seq<Option<Tile>>>

  /** The positions of the collapsed cells. */
  ghost function Flagged(F: Flags): (r: set<Coord>)
  {
    set i, j | 0 <= i < |F| && 0 <= j < |F[i]| && F[i][j] :: Coord(j, i)
  }

  /** The positions of a list of cells. */
  ghost function Positions(cells: seq<Cell>): (r: set<Coord>)
  {
    set k | 0 <= k < |cells| :: Coord(cells[k].x, cells[k].y)
  }

  /** The `k` first rows of an `n`-wide grid. */
  ghost function Rows(n: nat, k: nat): (r: set<Coord>)
  {
    set i, j | 0 <= i < k && 0 <= j < n :: Coord(j, i)
  }

  /** Row `i` of an `n`-wide grid. */
  ghost function Row(n: nat, i: int): (r: set<Coord>)
  {
    set j | 0 <= j < n :: Coord(j, i)
  }

  /** A list of cells occupies at most as many positions as it has entries. */
  lemma {:induction false} PositionsBound(cells: seq<Cell>)
    ensures |Positions(cells)| <= |cells|
  {
    if cells != [] {
      var front, last := cells[..|cells| - 1], cells[|cells| - 1];
      PositionsBound(front);
      assert Positions(cells) == Positions(front) + {Coord(last.x, last.y)} by {
        forall c | c in Positions(cells)
          ensures c in Positions(front) + {Coord(last.x, last.y)}
        {
          var k :| 0 <= k < |cells| && c == Coord(cells[k].x, cells[k].y);
          if k < |cells| - 1 {
            assert cells[k] == front[k];
          }
        }
        forall c | c in Positions(front)
          ensures c in Positions(cells)
        {
          var k :| 0 <= k < |front| && c == Coord(front[k].x, front[k].y);
          assert front[k] == cells[k];
        }
      }
    }
  }

  /** Distinct cells of the grid, each at its own position, occupy as many positions as there
      are cells. */
  lemma {:induction false} PositionsExact(grid: seq<seq<Cell>>, cells: seq<Cell>)
    requires forall k :: 0 <= k < |cells| ==>
               InBounds(Coord(cells[k].x, cells[k].y), grid) && grid[cells[k].y][cells[k].x] == cells[k]
    requires NoDup(cells)
    ensures |Positions(cells)| == |cells|
  {
    if cells != [] {
      var front, last := cells[..|cells| - 1], cells[|cells| - 1];
      assert forall k :: 0 <= k < |front| ==> front[k] == cells[k];
      PositionsExact(grid, front);
      var c := Coord(last.x, last.y);
      assert Positions(cells) == Positions(front) + {c} by {
        forall d | d in Positions(cells)
          ensures d in Positions(front) + {c}
        {
          var k :| 0 <= k < |cells| && d == Coord(cells[k].x, cells[k].y);
          if k < |cells| - 1 {
            assert cells[k] == front[k];
          }
        }
      }
      forall k | 0 <= k < |front|
        ensures Coord(front[k].x, front[k].y) != c
      {
        assert front[k] == cells[k] != last;
      }
    }
  }

  /** A row of an `n`-wide grid has `n` positions. */
  lemma {:induction false} RowSize(n: nat, i: int)
    ensures |Row(n, i)| == n
  {
    if n > 0 {
      RowSize(n - 1, i);
      assert Row(n, i) == Row(n - 1, i) + {Coord(n - 1, i)};
    }
  }

  /** `k` rows of an `n`-wide grid have `k * n` positions. */
  lemma {:induction false} RowsSize(n: nat, k: nat)
    ensures |Rows(n, k)| == k * n
  {
    if k > 0 {
      RowsSize(n, k - 1);
      RowSize(n, k - 1);
      RowsSplit(n, k);
      MulStep(n, k);
    }
  }

  /** The first `k` rows are the first `k - 1` rows and, apart from them, row `k - 1`. */
  lemma RowsSplit(n: nat, k: nat)
    requires k > 0
    ensures |Rows(n, k)| == |Rows(n, k - 1)| + |Row(n, k - 1)|
  {
    assert Rows(n, k) == Rows(n, k - 1) + Row(n, k - 1);
    assert Rows(n, k - 1) * Row(n, k - 1) == {};
  }

  lemma MulStep(n: nat, k: nat)
    requires k > 0
    ensures (k - 1) * n + n == k * n
  {
  }

  /** The painted canvas: a collapsed cell shows the tile of its only candidate, any other
      cell shows nothing. */
  ghost predicate Painted(P: Snapshot, F: Flags, canvas: Canvas, tiles: TileMap)
    requires SameShape(P, F)
  {
    && |canvas| == |P| && (forall i :: 0 <= i < |P| ==> |canvas[i]| == |P[i]|)
    && forall i, j :: 0 <= i < |P| && 0 <= j < |P[i]| ==>
         if F[i][j] then |P[i][j]| > 0 && P[i][j][0] in tiles && canvas[i][j] == Some(tiles[P[i][j][0]])
         else canvas[i][j] == None
  }

  /** What holds between two rounds of `main`'s loop: an `n` by `n` grid whose candidate
      lists are drawn from `ids` and known to the catalog, whose collapsed cells hold one
      candidate each and support all their neighbours, all of them painted and counted. */
  ghost predicate Drawing(P: Snapshot, F: Flags, ids: seq<TileId>, tiles: TileMap, n: nat, canvas: Canvas, counter: nat)
  {
    && Rectangular(P) && |P| == n && |P[0]| == n && SameShape(P, F)
    && AllKnown(P, tiles)
    && (forall i, j :: 0 <= i < |P| && 0 <= j < |P[i]| ==> IsSubseq(P[i][j], ids))
    && Sound(P, F) && Settled(P, F, [], tiles)
    && Painted(P, F, canvas, tiles)
    && |Flagged(F)| <= counter
    && KeepsCompletions(P, F, ids, tiles)
  }

  /** `S` places a tile at every position of the grid, and the tile of every collapsed cell. */
  ghost predicate Extends(S: seq<seq<TileId>>, P: Snapshot, F: Flags)
    requires SameShape(P, F)
  {
    && |S| == |P| && (forall i :: 0 <= i < |P| ==> |S[i]| == |P[i]|)
    && forall i, j :: 0 <= i < |P| && 0 <= j < |P[i]| && F[i][j] ==> |P[i][j]| > 0 && S[i][j] == P[i][j][0]
  }

  /** Every tile of `S` is one of `ids`. */
  ghost predicate DrawnFrom(S: seq<seq<TileId>>, ids: seq<TileId>)
  {
    forall i, j :: 0 <= i < |S| && 0 <= j < |S[i]| ==> S[i][j] in ids
  }

  /** No way to finish the picture is lost: every valid tiling drawn from `ids` that keeps the
      tiles of the collapsed cells is still allowed by the candidate lists. */
  ghost predicate KeepsCompletions(P: Snapshot, F: Flags, ids: seq<TileId>, tiles: TileMap)
    requires SameShape(P, F)
  {
    forall S :: ValidTiling(S, tiles) && DrawnFrom(S, ids) && Extends(S, P, F) ==> Allows(P, S)
  }

  /** A round keeps every completion: a tiling that keeps the collapsed tiles after the round
      kept them before it and put `t` at `b`, so it was allowed before the round, still was
      after the collapse of `b` to `t`, and the propagation kept it. */
  lemma CompletionsAfter(P: Snapshot, F: Flags, P2: Snapshot, F2: Flags, b: Coord, t: TileId,
                         ids: seq<TileId>, tiles: TileMap)
    requires SameShape(P, F) && SameShape(P2, F2) && |P2| == |P| && (forall i :: 0 <= i < |P| ==> |P2[i]| == |P[i]|)
    requires Sound(P, F) && KeepsCompletions(P, F, ids, tiles)
    requires InBounds(b, P) && t in P[b.y][b.x]
    requires Frozen(Put(P, b, [t]), Put(F, b, true), P2, F2)
    requires KeepsTilings(Put(P, b, [t]), P2, tiles)
    ensures KeepsCompletions(P2, F2, ids, tiles)
  {
    var P1, F1 := Put(P, b, [t]), Put(F, b, true);
    forall S | ValidTiling(S, tiles) && DrawnFrom(S, ids) && Extends(S, P2, F2)
      ensures Allows(P2, S)
    {
      assert F2[b.y][b.x] && P2[b.y][b.x] == [t];
      forall i, j | 0 <= i < |P| && 0 <= j < |P[i]| && F[i][j]
        ensures |P[i][j]| > 0 && S[i][j] == P[i][j][0]
      {
        if (i, j) == (b.y, b.x) {
          assert |P[i][j]| == 1 && P[i][j][0] in P[i][j];
        } else {
          assert F1[i][j] && P1[i][j] == P[i][j];
        }
      }
      assert Allows(P, S);
      assert Allows(P1, S);
    }
  }

  /** Where `reduce` keeps nothing, no valid tiling drawn from `ids` keeps the collapsed tiles:
      such a tiling would be allowed, and `reduce` keeps the tile it puts there. */
  lemma StuckNoCompletion(P: Snapshot, F: Flags, b: Coord, ids: seq<TileId>, tiles: TileMap, n: nat,
                          canvas: Canvas, counter: nat)
    requires Drawing(P, F, ids, tiles, n, canvas, counter) && Stuck(P, b, tiles)
    ensures forall S :: ValidTiling(S, tiles) && DrawnFrom(S, ids) ==> !Extends(S, P, F)
  {
    forall S | ValidTiling(S, tiles) && DrawnFrom(S, ids)
      ensures !Extends(S, P, F)
    {
      if Extends(S, P, F) {
        ReduceKeepsTiling(b.x, b.y, P, tiles, S);
      }
    }
  }

  /** The first candidate of every position. */
  ghost function Firsts(P: Snapshot): (r: seq<seq<TileId>>)
    requires forall i, j :: 0 <= i < |P| && 0 <= j < |P[i]| ==> |P[i][j]| > 0
  {
    seq(|P|, i requires 0 <= i < |P| => seq(|P[i]|, j requires 0 <= j < |P[i]| => P[i][j][0]))
  }

  /** A fresh grid of uncollapsed cells over `ids`, with an empty canvas, is a drawing. */
  lemma StartDrawing(P: Snapshot, F: Flags, ids: seq<TileId>, tiles: TileMap, n: nat, canvas: Canvas)
    requires n > 0 && Known(ids, tiles)
    requires |P| == n && |F| == n && |canvas| == n
    requires forall i :: 0 <= i < n ==> |P[i]| == n && |F[i]| == n && |canvas[i]| == n
    requires forall i, j :: 0 <= i < n && 0 <= j < n ==> P[i][j] == ids && !F[i][j] && canvas[i][j] == None
    ensures Drawing(P, F, ids, tiles, n, canvas, 0)
    ensures |ids| != 1 ==> NoSingles(P, F)
  {
    SubseqRefl(ids);
    assert Flagged(F) == {};
    forall S | ValidTiling(S, tiles) && DrawnFrom(S, ids) && Extends(S, P, F)
      ensures Allows(P, S)
    {
    }
  }

  /** What `reduce` at `b` returns, in one place: the kept candidates are `b`'s own and all
      survive the neighbour filter, and the reported positions are exactly the in-bounds
      neighbours. */
  lemma ReduceFacts(P: Snapshot, b: Coord, tiles: TileMap, r: Reduction)
    requires Rectangular(P) && InBounds(b, P) && ReduceDefined(P[b.y][b.x], b.x, b.y, P, tiles)
    requires r == ReduceCandidates(P[b.y][b.x], b.x, b.y, P, tiles)
    ensures forall t :: t in r.possible ==> t in P[b.y][b.x] && Survives(t, b.x, b.y, P, tiles)
    ensures forall c :: c in r.affected ==> InBounds(c, P)
    ensures forall c :: InBounds(c, P) && Adjacent(c, b.x, b.y) ==> c in r.affected
  {
    SurvivorsSurvive(P, b, tiles);
    ReduceAffected(P[b.y][b.x], b.x, b.y, P, tiles);
  }

  /** `collapse` at `b` picked `t`, one of the candidates `reduce` keeps there, and
      `affected` is the list of neighbours `reduce` reported. */
  ghost predicate Picked(P: Snapshot, b: Coord, t: TileId, affected: seq<Coord>, tiles: TileMap)
  {
    && Rectangular(P) && InBounds(b, P) && ReduceDefined(P[b.y][b.x], b.x, b.y, P, tiles)
    && t in ReduceCandidates(P[b.y][b.x], b.x, b.y, P, tiles).possible
    && affected == ReduceCandidates(P[b.y][b.x], b.x, b.y, P, tiles).affected
  }

  /** Collapsing `b` to a candidate `t` that `reduce` keeps leaves a settled grid settled up
      to the neighbours `reduce` reports, which all lie inside the grid. */
  lemma StartSettled(P: Snapshot, F: Flags, b: Coord, t: TileId, affected: seq<Coord>, tiles: TileMap)
    requires SameShape(P, F) && AllKnown(P, tiles) && Settled(P, F, [], tiles) && Sound(P, F)
    requires Picked(P, b, t, affected, tiles)
    ensures InBounds(b, P) && t in P[b.y][b.x]
    ensures AllKnown(Put(P, b, [t]), tiles)
    ensures forall c :: c in affected ==> InBounds(c, P)
    ensures Settled(Put(P, b, [t]), Put(F, b, true), affected, tiles)
    ensures Sound(Put(P, b, [t]), Put(F, b, true))
  {
    var r := ReduceCandidates(P[b.y][b.x], b.x, b.y, P, tiles);
    ReduceFacts(P, b, tiles, r);
    KnownPut(P, b, [t], tiles);
    SettledPut(P, F, [], affected, b, [t], true, tiles);
  }

  /** The `for cell in collapsed` loop: paint each cell's only tile at its position and count
      it. */
  method Paint(grid: seq<seq<Cell>>, tiles: TileMap, cells: seq<Cell>, canvas: Canvas, counter: nat)
    returns (canvas': Canvas, counter': nat)
    requires Placed(grid) && |canvas| == |grid| && forall i :: 0 <= i < |grid| ==> |canvas[i]| == |grid[i]|
    requires forall c :: c in cells ==>
               && InBounds(Coord(c.x, c.y), grid) && grid[c.y][c.x] == c
               && |c.possible| > 0 && c.possible[0] in tiles
    ensures counter' == counter + |cells|
    ensures |canvas'| == |grid| && forall i :: 0 <= i < |grid| ==> |canvas'[i]| == |grid[i]|
    ensures forall i, j :: 0 <= i < |grid| && 0 <= j < |grid[i]| && grid[i][j] !in cells ==> canvas'[i][j] == canvas[i][j]
    ensures forall i, j :: 0 <= i < |grid| && 0 <= j < |grid[i]| && grid[i][j] in cells ==>
              |grid[i][j].possible| > 0 && canvas'[i][j] == Some(tiles[grid[i][j].possible[0]])
  {
    canvas', counter' := canvas, counter;
    for k := 0 to |cells|
      invariant counter' == counter + k
      invariant |canvas'| == |grid| && forall i :: 0 <= i < |grid| ==> |canvas'[i]| == |grid[i]|
      invariant forall i, j :: 0 <= i < |grid| && 0 <= j < |grid[i]| ==>
                  canvas'[i][j] == if grid[i][j] in cells[..k] then Some(tiles[grid[i][j].possible[0]]) else canvas[i][j]
    {
      var cell := cells[k];
      assert cell in cells;
      canvas' := canvas'[cell.y := canvas'[cell.y][cell.x := Some(tiles[cell.possible[0]])]];
      counter' := counter' + 1;
      assert cells[..k + 1] == cells[..k] + [cell];
    }
    assert cells[..|cells|] == cells;
  }

  /** What a round's collapse of `b` to `t` and the propagation after it leave behind, from
      candidate lists `P` and flags `F` before the round to `P2` and `F2` after it: the
      propagation's reported `cells`, starting with `b`'s cell, and a grid that only shrank,
      kept its collapsed cells, and is settled again. */
  ghost predicate Propagated(grid: seq<seq<Cell>>, P: Snapshot, F: Flags, P2: Snapshot, F2: Flags,
                             b: Coord, t: TileId, cells: seq<Cell>, tiles: TileMap)
    requires Placed(grid) && SameShape(P, F) && |P| == |grid| && (forall i :: 0 <= i < |grid| ==> |P[i]| == |grid[i]|)
    requires SameShape(P2, F2) && |P2| == |grid| && (forall i :: 0 <= i < |grid| ==> |P2[i]| == |grid[i]|)
  {
    && InBounds(b, P) && t in P[b.y][b.x]
    && |cells| > 0 && cells[0] == grid[b.y][b.x]
    && Reported(grid, cells, Put(F, b, true), P2, F2)
    && Shrunk(P2, Put(P, b, [t])) && Frozen(Put(P, b, [t]), Put(F, b, true), P2, F2)
    && SinglesCollapsed(Put(P, b, [t]), P2, F2)
    && KeepsTilings(Put(P, b, [t]), P2, tiles) && NoDup(cells)
    && AllKnown(P2, tiles) && Settled(P2, F2, [], tiles) && Sound(P2, F2)
  }

  /** The cells `update_cells` reports are grid cells at their own positions, collapsed, each
      holding a catalog tile. */
  lemma ReportedCells(grid: seq<seq<Cell>>, P: Snapshot, F: Flags, P2: Snapshot, F2: Flags,
                      b: Coord, t: TileId, cells: seq<Cell>, tiles: TileMap)
    requires Placed(grid) && P2 == Possibles(grid) && F2 == FlagsOf(grid)
    requires SameShape(P, F) && |P| == |grid| && forall i :: 0 <= i < |grid| ==> |P[i]| == |grid[i]|
    requires Propagated(grid, P, F, P2, F2, b, t, cells, tiles)
    ensures forall c :: c in cells ==>
              && InBounds(Coord(c.x, c.y), grid) && grid[c.y][c.x] == c
              && |c.possible| > 0 && c.possible[0] in tiles
  {
    forall c | c in cells
      ensures InBounds(Coord(c.x, c.y), grid) && grid[c.y][c.x] == c && |c.possible| > 0 && c.possible[0] in tiles
    {
      var k :| 0 <= k < |cells| && cells[k] == c;
      assert F2[c.y][c.x];
      assert c.possible == P2[c.y][c.x];
      assert c.possible[0] in P2[c.y][c.x];
    }
  }

  /** One whole round, from a drawing `(P, F)` through the collapse of `b` to `t` and the
      propagation (giving `(P2, F2)` and the reported `cells`) to the painting of `cells`,
      ends in a drawing again. */
  lemma RoundDrawing(grid: seq<seq<Cell>>, P: Snapshot, F: Flags, P2: Snapshot, F2: Flags,
                     b: Coord, t: TileId, cells: seq<Cell>, ids: seq<TileId>, tiles: TileMap, n: nat,
                     canvas: Canvas, counter: nat, canvas': Canvas, counter': nat)
    requires Placed(grid) && P2 == Possibles(grid) && F2 == FlagsOf(grid)
    requires Drawing(P, F, ids, tiles, n, canvas, counter) && |P| == |grid| && |P[0]| == |grid[0]|
    requires Propagated(grid, P, F, P2, F2, b, t, cells, tiles)
    requires counter' == counter + |cells|
    requires |canvas'| == |grid| && forall i :: 0 <= i < |grid| ==> |canvas'[i]| == |grid[i]|
    requires forall i, j :: 0 <= i < |grid| && 0 <= j < |grid[i]| && grid[i][j] !in cells ==> canvas'[i][j] == canvas[i][j]
    requires forall i, j :: 0 <= i < |grid| && 0 <= j < |grid[i]| && grid[i][j] in cells ==>
               |grid[i][j].possible| > 0 && canvas'[i][j] == Some(tiles[grid[i][j].possible[0]])
    ensures Drawing(P2, F2, ids, tiles, n, canvas', counter')
  {
    PaintedAfter(grid, P, F, Put(P, b, [t]), Put(F, b, true), P2, F2, b, [t], cells, tiles, canvas, canvas');
    FlaggedAfter(grid, F, Put(F, b, true), F2, b, cells);
    DrawnAfter(P, P2, b, t, ids);
    CompletionsAfter(P, F, P2, F2, b, t, ids, tiles);
  }

  /** The cells a round reports are the picked one and one per newly collapsed position: as
      many as the positions it collapsed, plus one when the picked cell was already collapsed. */
  /** The number of cells a round reports: the positions collapsed in `F2` but not in `F`, and
      once more `b` when it had collapsed before the round. */
  ghost function Recount(F: Flags, F2: Flags, b: Coord): nat
    requires InBounds(b, F)
  {
    |Flagged(F2) - Flagged(F)| + (if F[b.y][b.x] then 1 else 0)
  }

  lemma ReportedCount(grid: seq<seq<Cell>>, P: Snapshot, F: Flags, P2: Snapshot, F2: Flags,
                      b: Coord, t: TileId, cells: seq<Cell>, tiles: TileMap)
    requires Placed(grid) && SameShape(P, F) && |P| == |grid| && (forall i :: 0 <= i < |grid| ==> |P[i]| == |grid[i]|)
    requires SameShape(P2, F2) && |P2| == |grid| && (forall i :: 0 <= i < |grid| ==> |P2[i]| == |grid[i]|)
    requires Propagated(grid, P, F, P2, F2, b, t, cells, tiles)
    ensures |cells| == Recount(F, F2, b)
  {
    NewlyCollapsed(grid, cells, Put(F, b, true), P2, F2);
    assert F2[b.y][b.x];
    FlaggedPut(F, F2, b);
  }

  /** Against flags `F` with `b` collapsed too, one position fewer is new, unless `b` already
      was collapsed in `F`. */
  lemma FlaggedPut(F: Flags, F2: Flags, b: Coord)
    requires |F2| == |F| && (forall i :: 0 <= i < |F| ==> |F2[i]| == |F[i]|)
    requires InBounds(b, F) && F2[b.y][b.x]
    ensures |Flagged(F2) - Flagged(F)| == |Flagged(F2) - Flagged(Put(F, b, true))| + (if F[b.y][b.x] then 0 else 1)
  {
    FlaggedAdd(F, b);
    assert b in Flagged(F2);
    assert b in Flagged(F) <==> F[b.y][b.x];
    DiffAdd(Flagged(F2), Flagged(F), b);
  }

  /** Collapsing `b` adds exactly `b` to the collapsed positions. */
  lemma FlaggedAdd(F: Flags, b: Coord)
    requires InBounds(b, F)
    ensures Flagged(Put(F, b, true)) == Flagged(F) + {b}
  {
    var F1 := Put(F, b, true);
    forall d | d in Flagged(F1)
      ensures d in Flagged(F) + {b}
    {
      var i, j :| 0 <= i < |F1| && 0 <= j < |F1[i]| && F1[i][j] && d == Coord(j, i);
      if d != b {
        assert F[i][j];
      }
    }
    forall d | d in Flagged(F) + {b}
      ensures d in Flagged(F1)
    {
      if d != b {
        var i, j :| 0 <= i < |F| && 0 <= j < |F[i]| && F[i][j] && d == Coord(j, i);
        assert F1[i][j];
      }
    }
  }

  /** Removing one more member `x` of `A` shrinks `A - B` by one, unless `x` was in `B`. */
  lemma DiffAdd<T>(A: set<T>, B: set<T>, x: T)
    requires x in A
    ensures |A - B| == |A - (B + {x})| + (if x in B then 0 else 1)
  {
    if x in B {
      assert B + {x} == B;
    } else {
      assert A - B == (A - (B + {x})) + {x};
    }
  }


  /** Reported cells after the first sit one at each position collapsed in `G` but not in `F1`. */
  lemma NewlyCollapsed(grid: seq<seq<Cell>>, cells: seq<Cell>, F1: Flags, Q: Snapshot, G: Flags)
    requires Placed(grid) && SameShape(Q, G) && SameShape(Q, F1) && |Q| == |grid|
    requires forall i :: 0 <= i < |grid| ==> |Q[i]| == |grid[i]|
    requires Reported(grid, cells, F1, Q, G) && NoDup(cells)
    ensures |cells| == |Flagged(G) - Flagged(F1)| + 1
  {
    var rest := cells[1..];
    forall k | 0 <= k < |rest|
      ensures InBounds(Coord(rest[k].x, rest[k].y), grid) && grid[rest[k].y][rest[k].x] == rest[k]
    {
      assert rest[k] == cells[k + 1];
    }
    PositionsExact(grid, rest);
    forall d | d in Positions(rest)
      ensures d in Flagged(G) - Flagged(F1)
    {
      var k :| 0 <= k < |rest| && d == Coord(rest[k].x, rest[k].y);
      assert rest[k] == cells[k + 1];
    }
    forall d | d in Flagged(G) - Flagged(F1)
      ensures d in Positions(rest)
    {
      var i, j :| 0 <= i < |G| && 0 <= j < |G[i]| && G[i][j] && d == Coord(j, i);
      assert !F1[i][j];
      var k :| 0 <= k < |rest| && rest[k] == grid[i][j];
    }
    assert Positions(rest) == Flagged(G) - Flagged(F1);
  }

  /** After a round, every position collapsed is one collapsed before or one the round
      reports; so the count of collapsed positions grows by at most the cells painted. */
  lemma FlaggedAfter(grid: seq<seq<Cell>>, F: Flags, F1: Flags, F2: Flags, b: Coord, cells: seq<Cell>)
    requires Placed(grid) && |F1| == |grid| && |F2| == |grid|
    requires forall i :: 0 <= i < |grid| ==> |F1[i]| == |grid[i]| && |F2[i]| == |grid[i]|
    requires |F| == |grid| && forall i :: 0 <= i < |grid| ==> |F[i]| == |grid[i]|
    requires InBounds(b, grid) && F1 == Put(F, b, true) && |cells| > 0 && cells[0] == grid[b.y][b.x]
    requires forall i, j :: 0 <= i < |grid| && 0 <= j < |grid[i]| && F2[i][j] && !F1[i][j] ==> grid[i][j] in cells[1..]
    ensures |Flagged(F2)| <= |Flagged(F)| + |cells|
  {
    forall c | c in Flagged(F2)
      ensures c in Flagged(F) + Positions(cells)
    {
      var i, j :| 0 <= i < |F2| && 0 <= j < |F2[i]| && F2[i][j] && c == Coord(j, i);
      if c == b {
        assert c == Coord(cells[0].x, cells[0].y);
      } else if F1[i][j] {
        assert F[i][j];
      } else {
        var k :| 1 <= k < |cells| && cells[k] == grid[i][j];
        assert c == Coord(cells[k].x, cells[k].y);
      }
    }
    PositionsBound(cells);
    SubsetSize(Flagged(F2), Flagged(F) + Positions(cells));
  }

  /** A subset has at most as many elements as the set. */
  lemma SubsetSize<T>(a: set<T>, s: set<T>)
    requires a <= s
    ensures |a| <= |s|
  {
    assert s == a + (s - a);
  }

  /** After a round, the canvas shows exactly the collapsed cells' tiles. */
  lemma PaintedAfter(grid: seq<seq<Cell>>, P: Snapshot, F: Flags, P1: Snapshot, F1: Flags, P2: Snapshot, F2: Flags,
                     b: Coord, v: seq<TileId>, cells: seq<Cell>, tiles: TileMap, canvas: Canvas, canvas': Canvas)
    requires Placed(grid) && |P| == |grid| && forall i :: 0 <= i < |grid| ==> |P[i]| == |grid[i]|
    requires SameShape(P, F) && SameShape(P2, F2) && |P2| == |grid| && forall i :: 0 <= i < |grid| ==> |P2[i]| == |grid[i]|
    requires InBounds(b, grid) && P1 == Put(P, b, v) && F1 == Put(F, b, true)
    requires forall i, j :: 0 <= i < |grid| && 0 <= j < |grid[i]| ==> P2[i][j] == grid[i][j].possible
    requires Painted(P, F, canvas, tiles) && AllKnown(P2, tiles) && Sound(P2, F2)
    requires Frozen(P1, F1, P2, F2)
    requires |cells| > 0 && cells[0] == grid[b.y][b.x]
    requires forall k :: 1 <= k < |cells| ==> InBounds(Coord(cells[k].x, cells[k].y), grid) && F2[cells[k].y][cells[k].x]
    requires forall i, j :: 0 <= i < |grid| && 0 <= j < |grid[i]| && F2[i][j] && !F1[i][j] ==> grid[i][j] in cells[1..]
    requires |canvas'| == |grid| && forall i :: 0 <= i < |grid| ==> |canvas'[i]| == |grid[i]|
    requires forall i, j :: 0 <= i < |grid| && 0 <= j < |grid[i]| && grid[i][j] !in cells ==> canvas'[i][j] == canvas[i][j]
    requires forall i, j :: 0 <= i < |grid| && 0 <= j < |grid[i]| && grid[i][j] in cells ==>
               |P2[i][j]| > 0 && canvas'[i][j] == Some(tiles[P2[i][j][0]])
    ensures Painted(P2, F2, canvas', tiles)
  {
    forall i, j | 0 <= i < |grid| && 0 <= j < |grid[i]|
      ensures if F2[i][j] then |P2[i][j]| > 0 && P2[i][j][0] in tiles && canvas'[i][j] == Some(tiles[P2[i][j][0]])
              else canvas'[i][j] == None
    {
      if F2[i][j] {
        assert |P2[i][j]| == 1 && P2[i][j][0] in P2[i][j];
        if grid[i][j] !in cells {
          assert F1[i][j] && (i, j) != (b.y, b.x);
        }
      } else {
        assert !F1[i][j];
        forall k | 0 <= k < |cells|
          ensures cells[k] != grid[i][j]
        {
          if k > 0 {
            assert F2[cells[k].y][cells[k].x];
          } else {
            assert F2[b.y][b.x];
          }
        }
      }
    }
  }

  /** After a round, the candidate lists are still drawn from `ids`. */
  lemma DrawnAfter(P: Snapshot, P2: Snapshot, b: Coord, t: TileId, ids: seq<TileId>)
    requires InBounds(b, P) && t in P[b.y][b.x]
    requires forall i, j :: 0 <= i < |P| && 0 <= j < |P[i]| ==> IsSubseq(P[i][j], ids)
    requires Shrunk(P2, Put(P, b, [t]))
    ensures forall i, j :: 0 <= i < |P2| && 0 <= j < |P2[i]| ==> IsSubseq(P2[i][j], ids)
  {
    var P1 := Put(P, b, [t]);
    SubseqMembers(P[b.y][b.x], ids);
    SubseqSingleton(t, ids);
    forall i, j | 0 <= i < |P2| && 0 <= j < |P2[i]|
      ensures IsSubseq(P2[i][j], ids)
    {
      SubseqTrans(P2[i][j], P1[i][j], ids);
    }
  }

  /** When the pass finds nothing to pick, every uncollapsed cell has more candidates than
      the sentinel. */
  lemma NothingToPick(grid: seq<seq<Cell>>, P: Snapshot, F: Flags)
    requires Placed(grid) && P == Possibles(grid) && F == FlagsOf(grid) && SameShape(P, F) && Sound(P, F)
    requires Scan(RowMajor(grid)).chosen == []
    ensures forall i, j :: 0 <= i < |P| && 0 <= j < |P[i]| && !F[i][j] ==> |P[i][j]| > Sentinel
  {
    forall c | c in RowMajor(grid) && c.collapsed
      ensures |c.possible| == 1
    {
      RowMajorFrom(grid, c);
    }
    ScanEmpty(RowMajor(grid));
    forall i, j | 0 <= i < |P| && 0 <= j < |P[i]| && !F[i][j]
      ensures |P[i][j]| > Sentinel
    {
      RowMajorHas(grid, i, j);
    }
  }

  /** `b` is a position the pass may return: its count is at most the sentinel and at most
      that of every uncollapsed position, and when `b` is collapsed (the `elif`) some
      uncollapsed position has the same count. */
  ghost predicate Lowest(P: Snapshot, F: Flags, b: Coord)
  {
    && SameShape(P, F) && InBounds(b, P) && |P[b.y][b.x]| <= Sentinel
    && (forall i, j :: 0 <= i < |P| && 0 <= j < |P[i]| && !F[i][j] ==> |P[b.y][b.x]| <= |P[i][j]|)
    && (F[b.y][b.x] ==> exists i, j :: 0 <= i < |P| && 0 <= j < |P[i]| && !F[i][j] && |P[i][j]| == |P[b.y][b.x]|)
  }

  /** Every cell the pass returns sits at its own position, which is `Lowest`. */
  lemma PickLowest(grid: seq<seq<Cell>>, P: Snapshot, F: Flags, c: Cell)
    requires Placed(grid) && P == Possibles(grid) && F == FlagsOf(grid) && SameShape(P, F) && Sound(P, F)
    requires c in Scan(RowMajor(grid)).chosen
    ensures InBounds(Coord(c.x, c.y), grid) && grid[c.y][c.x] == c
    ensures Lowest(P, F, Coord(c.x, c.y))
  {
    var cells := RowMajor(grid);
    ScanChosen(cells);
    ScanLowest(cells);
    RowMajorFrom(grid, c);
    var lo := Scan(cells).lowest;
    forall i, j | 0 <= i < |P| && 0 <= j < |P[i]| && !F[i][j]
      ensures lo <= |P[i][j]|
    {
      RowMajorHas(grid, i, j);
    }
    if c.collapsed {
      assert |c.possible| == 1;
      var w :| w in cells && !w.collapsed && |w.possible| == lo;
      RowMajorFrom(grid, w);
    }
  }

  /** No uncollapsed position holds exactly one candidate. */
  ghost predicate NoSingles(P: Snapshot, F: Flags)
    requires SameShape(P, F)
  {
    forall i, j :: 0 <= i < |P| && 0 <= j < |P[i]| && !F[i][j] ==> |P[i][j]| != 1
  }

  /** Without uncollapsed singletons, the pass never returns a collapsed cell. */
  lemma PickUncollapsed(P: Snapshot, F: Flags, b: Coord)
    requires Lowest(P, F, b) && Sound(P, F) && NoSingles(P, F)
    ensures !F[b.y][b.x]
  {
  }

  /** From `(P, F)` to `(P2, F2)`: no uncollapsed singleton appears, collapsed positions stay
      collapsed, and `b` is collapsed. */
  ghost predicate Progress(P: Snapshot, F: Flags, P2: Snapshot, F2: Flags, b: Coord)
  {
    && SameShape(P, F) && SameShape(P2, F2) && |F2| == |F|
    && (forall i :: 0 <= i < |F| ==> |F2[i]| == |F[i]|)
    && InBounds(b, F) && F2[b.y][b.x]
    && (forall i, j :: 0 <= i < |F| && 0 <= j < |F[i]| && F[i][j] ==> F2[i][j])
    && (NoSingles(P, F) ==> NoSingles(P2, F2))
  }

  /** Collapsing the uncollapsed `b`, and keeping every collapsed position, collapses one
      more position. */
  lemma FlaggedGrows(P: Snapshot, F: Flags, P2: Snapshot, F2: Flags, b: Coord)
    requires Progress(P, F, P2, F2, b) && !F[b.y][b.x]
    ensures |Flagged(F2)| > |Flagged(F)|
  {
    assert Flagged(F) + {b} <= Flagged(F2) by {
      forall c | c in Flagged(F) + {b}
        ensures c in Flagged(F2)
      {
        if c != b {
          var i, j :| 0 <= i < |F| && 0 <= j < |F[i]| && F[i][j] && c == Coord(j, i);
          assert F2[i][j];
        }
      }
    }
    assert b !in Flagged(F);
    SubsetSize(Flagged(F) + {b}, Flagged(F2));
  }

  /** A round keeps uncollapsed singletons away, and when it picked an uncollapsed position
      it collapses at least one more position. */
  lemma RoundProgress(grid: seq<seq<Cell>>, P: Snapshot, F: Flags, P2: Snapshot, F2: Flags,
                      b: Coord, t: TileId, cells: seq<Cell>, tiles: TileMap)
    requires Placed(grid) && SameShape(P, F) && |P| == |grid| && (forall i :: 0 <= i < |grid| ==> |P[i]| == |grid[i]|)
    requires SameShape(P2, F2) && |P2| == |grid| && (forall i :: 0 <= i < |grid| ==> |P2[i]| == |grid[i]|)
    requires Propagated(grid, P, F, P2, F2, b, t, cells, tiles)
    ensures Progress(P, F, P2, F2, b)
  {
    var P1, F1 := Put(P, b, [t]), Put(F, b, true);
    if NoSingles(P, F) {
      forall i, j | 0 <= i < |P2| && 0 <= j < |P2[i]| && !F2[i][j]
        ensures |P2[i][j]| != 1
      {
        assert !F1[i][j];
      }
    }
    forall i, j | 0 <= i < |F| && 0 <= j < |F[i]| && F[i][j]
      ensures F2[i][j]
    {
      assert F1[i][j];
    }
  }

  /** An `n` by `n` grid with `n * n` collapsed positions has no uncollapsed position. */
  lemma AllFlagged(F: Flags, n: nat)
    requires |F| == n && (forall i :: 0 <= i < n ==> |F[i]| == n) && |Flagged(F)| >= n * n
    ensures forall i, j :: 0 <= i < n && 0 <= j < n ==> F[i][j]
  {
    RowsSize(n, n);
    forall i, j | 0 <= i < n && 0 <= j < n
      ensures F[i][j]
    {
      if !F[i][j] {
        assert Coord(j, i) in Rows(n, n);
        assert Flagged(F) <= Rows(n, n) - {Coord(j, i)};
        SubsetSize(Flagged(F), Rows(n, n) - {Coord(j, i)});
      }
    }
  }

  /** In a grid whose every cell has collapsed to one candidate the pass finds nothing. */
  lemma FullGridEmpty(grid: seq<seq<Cell>>, P: Snapshot, F: Flags)
    requires Placed(grid) && P == Possibles(grid) && F == FlagsOf(grid) && SameShape(P, F) && Sound(P, F)
    requires forall i, j :: 0 <= i < |F| && 0 <= j < |F[i]| ==> F[i][j]
    ensures Scan(RowMajor(grid)).chosen == []
  {
    forall c | c in RowMajor(grid)
      ensures c.collapsed && |c.possible| == 1
    {
      RowMajorFrom(grid, c);
    }
    ScanEmpty(RowMajor(grid));
  }

  /** In a settled grid, a collapsed cell's tile fits the tile of each collapsed neighbour. */
  lemma NeighboursFit(P: Snapshot, F: Flags, b: Coord, c: Coord, tiles: TileMap)
    requires Rectangular(P) && SameShape(P, F) && InBounds(b, P) && InBounds(c, P) && Adjacent(c, b.x, b.y)
    requires F[b.y][b.x] && F[c.y][c.x] && |P[b.y][b.x]| == 1 && |P[c.y][c.x]| == 1
    requires Known(P[b.y][b.x], tiles) && Known(P[c.y][c.x], tiles)
    requires Settled(P, F, [], tiles)
    ensures Compatible(tiles[P[b.y][b.x][0]], Facing(b.x, b.y, c), tiles[P[c.y][c.x][0]], Opposite(Facing(b.x, b.y, c)))
  {
    assert Supported(P, b, c, tiles);
    assert P[b.y][b.x][0] in P[b.y][b.x];
    var m :| m in P[c.y][c.x] && m in tiles && Opposite(Facing(b.x, b.y, c)) < |tiles[m].sides|
             && Compatible(tiles[P[b.y][b.x][0]], Facing(b.x, b.y, c), tiles[m], Opposite(Facing(b.x, b.y, c)));
    var nb := P[c.y][c.x];
    assert nb == [nb[0]];
  }

  /** A grid in which every cell has collapsed, holds one known candidate, and supports its
      neighbours. */
  ghost predicate Solved(P: Snapshot, F: Flags, tiles: TileMap)
  {
    && Rectangular(P) && SameShape(P, F) && AllKnown(P, tiles) && Sound(P, F)
    && (forall i, j :: 0 <= i < |P| && 0 <= j < |P[i]| ==> F[i][j])
    && Settled(P, F, [], tiles)
  }

  /** In a finished grid, each tile fits the one to its right. */
  lemma RightFits(P: Snapshot, F: Flags, tiles: TileMap, i: int, j: int)
    requires Solved(P, F, tiles) && 0 <= i < |P| && 0 <= j < |P[i]| - 1
    ensures FitsRight(Firsts(P), i, j, tiles)
  {
    NeighboursFit(P, F, Coord(j, i), Coord(j + 1, i), tiles);
  }

  /** In a finished grid, each tile fits the one below it. */
  lemma BelowFits(P: Snapshot, F: Flags, tiles: TileMap, i: int, j: int)
    requires Solved(P, F, tiles) && 0 <= i < |P| - 1 && 0 <= j < |P[i]|
    ensures FitsBelow(Firsts(P), i, j, tiles)
  {
    NeighboursFit(P, F, Coord(j, i), Coord(j, i + 1), tiles);
  }

  /** A settled grid whose every cell has collapsed shows a valid tiling. */
  lemma SettledTiling(P: Snapshot, F: Flags, tiles: TileMap)
    requires Solved(P, F, tiles)
    ensures ValidTiling(Firsts(P), tiles) && Allows(P, Firsts(P))
  {
    var S := Firsts(P);
    forall i, j | 0 <= i < |S| && 0 <= j < |S[i]|
      ensures S[i][j] in P[i][j] && S[i][j] in tiles && |tiles[S[i][j]].sides| == 4
    {
      assert S[i][j] in P[i][j];
    }
    forall i, j | 0 <= i < |S| && 0 <= j < |S[i]| - 1
      ensures FitsRight(S, i, j, tiles)
    {
      RightFits(P, F, tiles, i, j);
    }
    forall i, j | 0 <= i < |S| - 1 && 0 <= j < |S[i]|
      ensures FitsBelow(S, i, j, tiles)
    {
      BelowFits(P, F, tiles, i, j);
    }
  }

  /** The `n` by `n` canvas shows, at every position, the tile a valid tiling drawn from
      `ids` puts there. */
  ghost predicate ShowsTiling(canvas: Canvas, ids: seq<TileId>, tiles: TileMap, n: nat)
  {
    && |canvas| == n && (forall i :: 0 <= i < n ==> |canvas[i]| == n)
    && exists S :: && ValidTiling(S, tiles) && |S| == n && (forall i :: 0 <= i < n ==> |S[i]| == n)
                   && forall i, j :: 0 <= i < n && 0 <= j < n ==> S[i][j] in ids && canvas[i][j] == Some(tiles[S[i][j]])
  }

  /** When nothing is left to pick and the catalog has at most `Sentinel` tiles, every cell has
      collapsed: the canvas shows a valid tiling drawn from `ids` and every cell was counted. */
  lemma Completed(P: Snapshot, F: Flags, ids: seq<TileId>, tiles: TileMap, n: nat, canvas: Canvas, counter: nat)
    requires Drawing(P, F, ids, tiles, n, canvas, counter) && |ids| <= Sentinel
    requires forall i, j :: 0 <= i < |P| && 0 <= j < |P[i]| && !F[i][j] ==> |P[i][j]| > Sentinel
    ensures forall i, j :: 0 <= i < |P| && 0 <= j < |P[i]| ==> F[i][j]
    ensures counter >= n * n
    ensures ValidTiling(Firsts(P), tiles)
    ensures forall i, j :: 0 <= i < n && 0 <= j < n ==>
              Firsts(P)[i][j] in ids && canvas[i][j] == Some(tiles[Firsts(P)[i][j]])
    ensures ShowsTiling(canvas, ids, tiles, n)
  {
    forall i, j | 0 <= i < |P| && 0 <= j < |P[i]|
      ensures F[i][j]
    {
      SubseqLength(P[i][j], ids);
    }
    SettledTiling(P, F, tiles);
    forall i, j | 0 <= i < n && 0 <= j < n
      ensures Firsts(P)[i][j] in ids
    {
      SubseqMembers(P[i][j], ids);
    }
    assert Flagged(F) == Rows(n, n);
    RowsSize(n, n);
  }

}
