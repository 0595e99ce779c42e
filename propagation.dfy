/** `update_cells` (main.py): after a cell collapses, its neighbours are re-filtered, and
    every neighbour whose candidate list shrank passes the change on to its own neighbours,
    until the work queue is empty. Cells left with one candidate are marked collapsed and
    returned, after the starting cell.

    Two facts about the propagation are proved here besides what the loop computes. It never
    discards a tile that belongs to a valid tiling the grid still allows. And it restores the
    invariant `Settled`: every candidate of a cell fits every collapsed neighbour, except for
    uncollapsed cells still waiting in the queue. */
module Propagation {
  import opened Seqs
  import opened Tiles
  import opened Catalog
  import opened Cells

  type Flags = seq<seq<bool>>

  predicate SameShape(P: Snapshot, F: Flags)
  {
    |P| == |F| && forall i :: 0 <= i < |P| ==> |P[i]| == |F[i]|
  }

  /** A collapsed cell holds exactly one candidate. */
  ghost predicate Sound(P: Snapshot, F: Flags)
    requires SameShape(P, F)
  {
    forall i, j :: 0 <= i < |P| && 0 <= j < |P[i]| && F[i][j] ==> |P[i][j]| == 1
  }

  /** Every candidate at `b` has a partner among the candidates at `c` on their shared edge. */
  ghost predicate Supported(P: Snapshot, b: Coord, c: Coord, tiles: TileMap)
    requires InBounds(b, P) && InBounds(c, P)
  {
    forall t :: t in P[b.y][b.x] ==>
      Fits(t, P[c.y][c.x], tiles, Facing(b.x, b.y, c), Opposite(Facing(b.x, b.y, c)))
  }

  /** Every cell is supported by each collapsed neighbour, unless it is an uncollapsed cell
      waiting in `queue`. */
  ghost predicate Settled(P: Snapshot, F: Flags, queue: seq<Coord>, tiles: TileMap)
    requires SameShape(P, F)
  {
    forall b, c :: InBounds(b, P) && InBounds(c, P) && Adjacent(c, b.x, b.y) && F[c.y][c.x] ==>
      (!F[b.y][b.x] && b in queue) || Supported(P, b, c, tiles)
  }

  /** Every change has been passed on: a cell next to one that has collapsed, or lost
      candidates since `P0`, is collapsed, waiting in `queue`, or supported by it. */
  ghost predicate Cascaded(P0: Snapshot, Q: Snapshot, G: Flags, queue: seq<Coord>, tiles: TileMap)
    requires SameShape(Q, G) && |P0| == |Q| && forall i :: 0 <= i < |Q| ==> |P0[i]| == |Q[i]|
  {
    forall b, c :: InBounds(b, Q) && InBounds(c, Q) && Adjacent(c, b.x, b.y) && (G[c.y][c.x] || Q[c.y][c.x] != P0[c.y][c.x]) ==>
      G[b.y][b.x] || b in queue || Supported(Q, b, c, tiles)
  }

  /** The total number of candidates: it falls whenever a candidate list shrinks. */
  function Count(P: Snapshot): (r: nat)
  {
    if P == [] then 0 else RowCount(P[0]) + Count(P[1..])
  }

  function RowCount(row: seq<seq<TileId>>): (r: nat)
  {
    if row == [] then 0 else |row[0]| + RowCount(row[1..])
  }

  lemma {:induction false} RowCountPut(row: seq<seq<TileId>>, x: int, v: seq<TileId>)
    requires 0 <= x < |row|
    ensures RowCount(row[x := v]) + |row[x]| == RowCount(row) + |v|
  {
    if x > 0 {
      RowCountPut(row[1..], x - 1, v);
      assert row[x := v][1..] == row[1..][x - 1 := v];
    }
  }

  /** Replacing one candidate list changes the total by the difference in length. */
  lemma {:induction false} CountPut(P: Snapshot, b: Coord, v: seq<TileId>)
    requires InBounds(b, P)
    ensures Count(Put(P, b, v)) + |P[b.y][b.x]| == Count(P) + |v|
  {
    var Q := Put(P, b, v);
    if b.y == 0 {
      RowCountPut(P[0], b.x, v);
      assert Q[1..] == P[1..];
    } else {
      CountPut(P[1..], Coord(b.x, b.y - 1), v);
      assert Q[1..] == Put(P[1..], Coord(b.x, b.y - 1), v);
    }
  }

  /** Leaving a collapsed cell's position: collapsed cells never need the queue. */
  lemma SettledPopCollapsed(P: Snapshot, F: Flags, q: seq<Coord>, tiles: TileMap)
    requires SameShape(P, F) && q != [] && InBounds(q[0], P) && F[q[0].y][q[0].x]
    requires Settled(P, F, q, tiles)
    ensures Settled(P, F, q[1..], tiles)
  {
    forall b, c | InBounds(b, P) && InBounds(c, P) && Adjacent(c, b.x, b.y) && F[c.y][c.x]
      ensures (!F[b.y][b.x] && b in q[1..]) || Supported(P, b, c, tiles)
    {
      if b in q && b != q[0] {
        assert b in q[1..];
      }
    }
  }

  /** Leaving a position whose candidates all survived the neighbour filter. */
  lemma SettledPopSurvived(P: Snapshot, F: Flags, q: seq<Coord>, tiles: TileMap)
    requires Rectangular(P) && SameShape(P, F) && q != [] && InBounds(q[0], P)
    requires ReduceDefined(P[q[0].y][q[0].x], q[0].x, q[0].y, P, tiles)
    requires |ReduceCandidates(P[q[0].y][q[0].x], q[0].x, q[0].y, P, tiles).possible| == |P[q[0].y][q[0].x]|
    requires Settled(P, F, q, tiles)
    ensures Settled(P, F, q[1..], tiles)
  {
    AllSurvive(P, q[0], tiles);
    SettledPopSupported(P, F, q, tiles);
  }

  /** When `reduce` keeps the whole list, every candidate survives the filter. */
  lemma AllSurvive(P: Snapshot, b: Coord, tiles: TileMap)
    requires Rectangular(P) && InBounds(b, P) && ReduceDefined(P[b.y][b.x], b.x, b.y, P, tiles)
    requires |ReduceCandidates(P[b.y][b.x], b.x, b.y, P, tiles).possible| == |P[b.y][b.x]|
    ensures forall t :: t in P[b.y][b.x] ==> Survives(t, b.x, b.y, P, tiles)
  {
    ReduceShrinks(P[b.y][b.x], b.x, b.y, P, tiles);
    ReduceSurvivors(P[b.y][b.x], b.x, b.y, P, tiles);
  }

  /** Leaving a position whose every candidate is supported by all its neighbours. */
  lemma SettledPopSupported(P: Snapshot, F: Flags, q: seq<Coord>, tiles: TileMap)
    requires Rectangular(P) && SameShape(P, F) && q != [] && InBounds(q[0], P)
    requires forall t :: t in P[q[0].y][q[0].x] ==> Survives(t, q[0].x, q[0].y, P, tiles)
    requires Settled(P, F, q, tiles)
    ensures Settled(P, F, q[1..], tiles)
  {
    forall b, c | InBounds(b, P) && InBounds(c, P) && Adjacent(c, b.x, b.y) && F[c.y][c.x]
      ensures (!F[b.y][b.x] && b in q[1..]) || Supported(P, b, c, tiles)
    {
      if b == q[0] {
        forall t | t in P[b.y][b.x]
          ensures Fits(t, P[c.y][c.x], tiles, Facing(b.x, b.y, c), Opposite(Facing(b.x, b.y, c)))
        {
          assert Survives(t, b.x, b.y, P, tiles);
        }
      } else if b in q {
        assert b in q[1..];
      }
    }
  }

  /** Popping a collapsed position keeps every change passed on. */
  lemma CascadePopCollapsed(P0: Snapshot, Q: Snapshot, G: Flags, q: seq<Coord>, tiles: TileMap)
    requires SameShape(Q, G) && |P0| == |Q| && (forall i :: 0 <= i < |Q| ==> |P0[i]| == |Q[i]|)
    requires q != [] && InBounds(q[0], Q) && G[q[0].y][q[0].x]
    requires Cascaded(P0, Q, G, q, tiles)
    ensures Cascaded(P0, Q, G, q[1..], tiles)
  {
    forall b, c | InBounds(b, Q) && InBounds(c, Q) && Adjacent(c, b.x, b.y) && (G[c.y][c.x] || Q[c.y][c.x] != P0[c.y][c.x])
      ensures G[b.y][b.x] || b in q[1..] || Supported(Q, b, c, tiles)
    {
      if b in q && b != q[0] {
        assert b in q[1..];
      }
    }
  }

  /** Popping a position whose every candidate survives its neighbours keeps every change
      passed on. */
  lemma CascadePopSurvived(P0: Snapshot, Q: Snapshot, G: Flags, q: seq<Coord>, tiles: TileMap)
    requires Rectangular(Q) && SameShape(Q, G) && |P0| == |Q| && (forall i :: 0 <= i < |Q| ==> |P0[i]| == |Q[i]|)
    requires q != [] && InBounds(q[0], Q)
    requires forall t :: t in Q[q[0].y][q[0].x] ==> Survives(t, q[0].x, q[0].y, Q, tiles)
    requires Cascaded(P0, Q, G, q, tiles)
    ensures Cascaded(P0, Q, G, q[1..], tiles)
  {
    forall b, c | InBounds(b, Q) && InBounds(c, Q) && Adjacent(c, b.x, b.y) && (G[c.y][c.x] || Q[c.y][c.x] != P0[c.y][c.x])
      ensures G[b.y][b.x] || b in q[1..] || Supported(Q, b, c, tiles)
    {
      if b == q[0] {
        forall t | t in Q[b.y][b.x]
          ensures Fits(t, Q[c.y][c.x], tiles, Facing(b.x, b.y, c), Opposite(Facing(b.x, b.y, c)))
        {
          assert Survives(t, b.x, b.y, Q, tiles);
        }
      } else if b in q {
        assert b in q[1..];
      }
    }
  }

  /** Seen from the other side, the facing side is the opposite one. */
  lemma FacingFlip(b: Coord, c: Coord)
    requires Adjacent(c, b.x, b.y)
    ensures Adjacent(b, c.x, c.y)
    ensures Facing(c.x, c.y, b) == Opposite(Facing(b.x, b.y, c))
  {
    AdjacentCases(c, b.x, b.y);
  }

  /** A single tile fitting a single tile fits it from either side. */
  lemma MutualFit(t: TileId, a: TileId, tiles: TileMap, side: nat)
    requires side < 4
    requires Fits(t, [a], tiles, side, Opposite(side))
    ensures Fits(a, [t], tiles, Opposite(side), side)
  {
    CompatibleSymmetric(tiles[t], side, tiles[a], Opposite(side));
    assert Opposite(Opposite(side)) == side;
    assert t in [t];
  }

  /** A collapsed neighbour `u` of `b` supports `b`'s only candidate `t` when `t` survives
      against `u`, because a fit between two single tiles holds both ways. */
  lemma CollapsedNeighbour(P: Snapshot, F: Flags, u: Coord, b: Coord, t: TileId, tiles: TileMap)
    requires Rectangular(P) && SameShape(P, F) && InBounds(u, P) && InBounds(b, P)
    requires Adjacent(b, u.x, u.y) && F[u.y][u.x] && Sound(P, F)
    requires Survives(t, b.x, b.y, P, tiles)
    ensures Fits(P[u.y][u.x][0], [t], tiles, Facing(u.x, u.y, b), Opposite(Facing(u.x, u.y, b)))
  {
    FacingFlip(u, b);
    var side := Facing(b.x, b.y, u);
    assert |P[u.y][u.x]| == 1;
    var a := P[u.y][u.x][0];
    assert P[u.y][u.x] == [a];
    assert Fits(t, [a], tiles, side, Opposite(side));
    MutualFit(t, a, tiles, side);
  }

  /** The new candidates at `b` are supported by every neighbour `c`, having survived it. */
  lemma UpdatedSupported(P: Snapshot, b: Coord, c: Coord, np: seq<TileId>, tiles: TileMap)
    requires Rectangular(P) && InBounds(b, P) && InBounds(c, P) && Adjacent(c, b.x, b.y)
    requires forall t :: t in np ==> Survives(t, b.x, b.y, P, tiles)
    ensures Supported(Put(P, b, np), b, c, tiles)
  {
    var P' := Put(P, b, np);
    assert c != b;
    assert P'[c.y][c.x] == P[c.y][c.x];
    forall t | t in P'[b.y][b.x]
      ensures Fits(t, P'[c.y][c.x], tiles, Facing(b.x, b.y, c), Opposite(Facing(b.x, b.y, c)))
    {
      assert Survives(t, b.x, b.y, P, tiles);
    }
  }

  /** A neighbour `u` of a newly collapsed `b` is supported by it if `u` has collapsed, and is
      queued otherwise. */
  lemma NeighbourOfUpdated(P: Snapshot, F: Flags, q': seq<Coord>, b: Coord, u: Coord,
                           np: seq<TileId>, nf: bool, tiles: TileMap)
    requires Rectangular(P) && SameShape(P, F) && InBounds(b, P) && InBounds(u, P) && Adjacent(b, u.x, u.y)
    requires Sound(P, F)
    requires forall t :: t in np ==> Survives(t, b.x, b.y, P, tiles)
    requires nf && |np| == 1
    requires !F[u.y][u.x] ==> u in q'
    ensures (!Put(F, b, nf)[u.y][u.x] && u in q') || Supported(Put(P, b, np), u, b, tiles)
  {
    assert u != b;
    if F[u.y][u.x] {
      assert np[0] in np;
      CollapsedNeighbour(P, F, u, b, np[0], tiles);
      assert np == [np[0]];
    }
  }

  /** A pair of positions away from `b` keeps its support, or its place in the queue. */
  lemma AwayFromUpdated(P: Snapshot, F: Flags, q: seq<Coord>, q': seq<Coord>, b: Coord, u: Coord, c: Coord,
                        np: seq<TileId>, nf: bool, tiles: TileMap)
    requires Rectangular(P) && SameShape(P, F) && InBounds(b, P) && InBounds(u, P) && InBounds(c, P)
    requires u != b && c != b
    requires (!F[u.y][u.x] && u in q) || Supported(P, u, c, tiles)
    requires u in q ==> u in q'
    ensures (!Put(F, b, nf)[u.y][u.x] && u in q') || Supported(Put(P, b, np), u, c, tiles)
  {
    var P' := Put(P, b, np);
    assert P'[u.y][u.x] == P[u.y][u.x] && P'[c.y][c.x] == P[c.y][c.x];
  }

  /** Replacing the candidates at `b` by survivors of the neighbour filter keeps the grid
      settled, provided a newly collapsed `b` has queued its uncollapsed neighbours. */
  lemma SettledUpdate(P: Snapshot, F: Flags, q: seq<Coord>, q': seq<Coord>, b: Coord,
                      np: seq<TileId>, nf: bool, tiles: TileMap)
    requires Rectangular(P) && SameShape(P, F) && InBounds(b, P)
    requires Settled(P, F, q, tiles) && Sound(P, F)
    requires ReduceDefined(P[b.y][b.x], b.x, b.y, P, tiles)
    requires np == ReduceCandidates(P[b.y][b.x], b.x, b.y, P, tiles).possible
    requires F[b.y][b.x] ==> nf
    requires nf ==> |np| == 1
    requires nf ==> forall c :: InBounds(c, P) && Adjacent(c, b.x, b.y) && !F[c.y][c.x] ==> c in q'
    requires forall c :: c in q && c != b ==> c in q'
    ensures SameShape(Put(P, b, np), Put(F, b, nf))
    ensures Settled(Put(P, b, np), Put(F, b, nf), q', tiles)
    ensures Sound(Put(P, b, np), Put(F, b, nf))
  {
    SurvivorsSurvive(P, b, tiles);
    SettledPut(P, F, q, q', b, np, nf, tiles);
  }

  /** Every candidate `reduce` keeps survives the neighbour filter. */
  lemma SurvivorsSurvive(P: Snapshot, b: Coord, tiles: TileMap)
    requires Rectangular(P) && InBounds(b, P) && ReduceDefined(P[b.y][b.x], b.x, b.y, P, tiles)
    ensures forall t :: t in ReduceCandidates(P[b.y][b.x], b.x, b.y, P, tiles).possible ==> Survives(t, b.x, b.y, P, tiles)
  {
    ReduceSurvivors(P[b.y][b.x], b.x, b.y, P, tiles);
  }

  /** The pairwise part of `SettledUpdate`, for any list `np` of survivors at `b`. */
  lemma SettledPut(P: Snapshot, F: Flags, q: seq<Coord>, q': seq<Coord>, b: Coord,
                   np: seq<TileId>, nf: bool, tiles: TileMap)
    requires Rectangular(P) && SameShape(P, F) && InBounds(b, P)
    requires Settled(P, F, q, tiles) && Sound(P, F)
    requires forall t :: t in np ==> Survives(t, b.x, b.y, P, tiles)
    requires nf ==> |np| == 1
    requires nf ==> forall c :: InBounds(c, P) && Adjacent(c, b.x, b.y) && !F[c.y][c.x] ==> c in q'
    requires forall c :: c in q && c != b ==> c in q'
    ensures SameShape(Put(P, b, np), Put(F, b, nf))
    ensures Settled(Put(P, b, np), Put(F, b, nf), q', tiles)
    ensures Sound(Put(P, b, np), Put(F, b, nf))
  {
    var P', F' := Put(P, b, np), Put(F, b, nf);
    forall u, c | InBounds(u, P') && InBounds(c, P') && Adjacent(c, u.x, u.y) && F'[c.y][c.x]
      ensures (!F'[u.y][u.x] && u in q') || Supported(P', u, c, tiles)
    {
      if u == b {
        UpdatedSupported(P, b, c, np, tiles);
      } else if c == b {
        FacingFlip(u, c);
        NeighbourOfUpdated(P, F, q', b, u, np, nf, tiles);
      } else {
        AwayFromUpdated(P, F, q, q', b, u, c, np, nf, tiles);
      }
    }
  }

  /** The queue after the `for aff in affected` loop: each coordinate of `affected`, in order,
      is appended unless it is done or already in the queue as it stands at that point. */
  function Enqueued(queue: seq<Coord>, done: seq<Coord>, affected: seq<Coord>): (q: seq<Coord>)
  {
    if affected == [] then queue
    else
      var front := Enqueued(queue, done, affected[..|affected| - 1]);
      var aff := affected[|affected| - 1];
      if aff !in done && aff !in front then front + [aff] else front
  }

  /** The old queue stays a prefix, and the additions are coordinates of `affected`, none of
      them done or queued before. */
  lemma {:induction false} EnqueuedGrows(queue: seq<Coord>, done: seq<Coord>, affected: seq<Coord>)
    ensures var q := Enqueued(queue, done, affected);
            && |q| >= |queue| && q[..|queue|] == queue
            && (forall c :: c in q[|queue|..] ==> c in affected && c !in done && c !in queue)
            && (forall c :: c in q ==> c in queue || c in affected)
  {
    if affected != [] {
      var init, aff := affected[..|affected| - 1], affected[|affected| - 1];
      assert affected == init + [aff];
      EnqueuedGrows(queue, done, init);
      var front := Enqueued(queue, done, init);
      if aff !in done && aff !in front {
        assert (front + [aff])[|queue|..] == front[|queue|..] + [aff];
      }
    }
  }

  /** Every coordinate of `affected` that is not done ends up queued. */
  lemma {:induction false} EnqueuedCovers(queue: seq<Coord>, done: seq<Coord>, affected: seq<Coord>)
    ensures forall c :: c in affected && c !in done ==> c in Enqueued(queue, done, affected)
  {
    if affected != [] {
      var init, aff := affected[..|affected| - 1], affected[|affected| - 1];
      assert affected == init + [aff];
      EnqueuedCovers(queue, done, init);
    }
  }

  /** The additions are distinct and keep their order in `affected`. */
  lemma {:induction false} EnqueuedOrder(queue: seq<Coord>, done: seq<Coord>, affected: seq<Coord>)
    ensures var q := Enqueued(queue, done, affected);
            |q| >= |queue| && NoDup(q[|queue|..]) && IsSubseq(q[|queue|..], affected)
  {
    if affected == [] {
      assert Enqueued(queue, done, affected)[|queue|..] == [];
    } else {
      var init, aff := affected[..|affected| - 1], affected[|affected| - 1];
      assert affected == init + [aff];
      EnqueuedOrder(queue, done, init);
      var front := Enqueued(queue, done, init);
      if aff !in done && aff !in front {
        assert (front + [aff])[|queue|..] == front[|queue|..] + [aff];
        assert aff !in front[|queue|..];
        NoDupSnoc(front[|queue|..], aff);
        SubseqAppend(front[|queue|..], init, aff);
      } else {
        SubseqExtend(front[|queue|..], init, aff);
      }
    }
  }

  /** The `for aff in affected` loop of `update_cells`, appending to the queue in place. */
  method EnqueueNew(queue: seq<Coord>, done: seq<Coord>, affected: seq<Coord>) returns (q: seq<Coord>)
    ensures q == Enqueued(queue, done, affected)
  {
    q := queue;
    for k := 0 to |affected|
      invariant q == Enqueued(queue, done, affected[..k])
    {
      var aff := affected[k];
      assert affected[..k + 1][..k] == affected[..k];
      if aff !in done && aff !in q {
        q := q + [aff];
      }
    }
    assert affected[..|affected|] == affected;
  }

  /** Every candidate list of `Q` is a subsequence of the corresponding list of `P`. */
  ghost predicate Shrunk(Q: Snapshot, P: Snapshot)
  {
    && |Q| == |P| && (forall i :: 0 <= i < |P| ==> |Q[i]| == |P[i]|)
    && forall i, j :: 0 <= i < |P| && 0 <= j < |P[i]| ==> IsSubseq(Q[i][j], P[i][j])
  }

  /** The cells collapsed in `(P, F)` are still collapsed in `(Q, G)`, with the same candidates. */
  ghost predicate Frozen(P: Snapshot, F: Flags, Q: Snapshot, G: Flags)
    requires SameShape(P, F) && SameShape(Q, G) && |P| == |Q|
    requires forall i :: 0 <= i < |P| ==> |P[i]| == |Q[i]|
  {
    forall i, j :: 0 <= i < |P| && 0 <= j < |P[i]| && F[i][j] ==> G[i][j] && Q[i][j] == P[i][j]
  }

  /** No cell is left uncollapsed with a single candidate it did not already have in `P`:
      a list cut down to one candidate is marked collapsed along with it. */
  ghost predicate SinglesCollapsed(P: Snapshot, Q: Snapshot, G: Flags)
    requires SameShape(Q, G) && |P| == |Q|
    requires forall i :: 0 <= i < |P| ==> |P[i]| == |Q[i]|
  {
    forall i, j :: 0 <= i < |Q| && 0 <= j < |Q[i]| && !G[i][j] && |Q[i][j]| == 1 ==> Q[i][j] == P[i][j]
  }

  /** Every valid tiling that `P` allows, `Q` still allows. */
  ghost predicate KeepsTilings(P: Snapshot, Q: Snapshot, tiles: TileMap)
  {
    forall S :: ValidTiling(S, tiles) && Allows(P, S) ==> Allows(Q, S)
  }

  /** `cells[1..]` lists, each once, exactly the cells collapsed in `G` that were not in `F0`,
      each at its own position and holding one candidate. */
  ghost predicate Reported(grid: seq<seq<Cell>>, cells: seq<Cell>, F0: Flags, Q: Snapshot, G: Flags)
    requires Placed(grid) && SameShape(Q, G) && SameShape(Q, F0) && |Q| == |grid|
    requires forall i :: 0 <= i < |grid| ==> |Q[i]| == |grid[i]|
  {
    && |cells| > 0
    && (forall k :: 1 <= k < |cells| ==>
          && InBounds(Coord(cells[k].x, cells[k].y), grid)
          && grid[cells[k].y][cells[k].x] == cells[k]
          && G[cells[k].y][cells[k].x] && !F0[cells[k].y][cells[k].x]
          && |Q[cells[k].y][cells[k].x]| == 1)
    && (forall i, j :: 0 <= i < |grid| && 0 <= j < |grid[i]| && G[i][j] && !F0[i][j] ==> grid[i][j] in cells[1..])
  }

  lemma KnownPut(P: Snapshot, b: Coord, v: seq<TileId>, tiles: TileMap)
    requires InBounds(b, P) && AllKnown(P, tiles) && Known(v, tiles)
    ensures AllKnown(Put(P, b, v), tiles)
  {
  }

  lemma ShrunkPut(Q: Snapshot, P: Snapshot, b: Coord, v: seq<TileId>)
    requires Shrunk(Q, P) && InBounds(b, Q) && IsSubseq(v, Q[b.y][b.x])
    ensures Shrunk(Put(Q, b, v), P)
  {
    SubseqTrans(v, Q[b.y][b.x], P[b.y][b.x]);
  }

  lemma FrozenPut(P: Snapshot, F: Flags, Q: Snapshot, G: Flags, b: Coord, v: seq<TileId>, f: bool)
    requires SameShape(P, F) && SameShape(Q, G) && |P| == |Q|
    requires forall i :: 0 <= i < |P| ==> |P[i]| == |Q[i]|
    requires Frozen(P, F, Q, G) && InBounds(b, Q) && !G[b.y][b.x]
    ensures SameShape(Put(Q, b, v), Put(G, b, f))
    ensures Frozen(P, F, Put(Q, b, v), Put(G, b, f))
  {
  }

  lemma SinglesPut(P: Snapshot, Q: Snapshot, G: Flags, b: Coord, v: seq<TileId>, f: bool)
    requires SameShape(Q, G) && |P| == |Q| && (forall i :: 0 <= i < |P| ==> |P[i]| == |Q[i]|)
    requires SinglesCollapsed(P, Q, G) && InBounds(b, Q) && (|v| == 1 ==> f)
    ensures SameShape(Put(Q, b, v), Put(G, b, f))
    ensures SinglesCollapsed(P, Put(Q, b, v), Put(G, b, f))
  {
  }

  lemma KeepsTilingsPut(P0: Snapshot, Q: Snapshot, b: Coord, tiles: TileMap)
    requires Rectangular(Q) && InBounds(b, Q) && ReduceDefined(Q[b.y][b.x], b.x, b.y, Q, tiles)
    requires KeepsTilings(P0, Q, tiles)
    ensures KeepsTilings(P0, Put(Q, b, ReduceCandidates(Q[b.y][b.x], b.x, b.y, Q, tiles).possible), tiles)
  {
    var v := ReduceCandidates(Q[b.y][b.x], b.x, b.y, Q, tiles).possible;
    forall S | ValidTiling(S, tiles) && Allows(P0, S)
      ensures Allows(Put(Q, b, v), S)
    {
      ReduceKeepsTiling(b.x, b.y, Q, tiles, S);
    }
  }

  lemma ReportedPut(grid: seq<seq<Cell>>, cells: seq<Cell>, F0: Flags, Q: Snapshot, G: Flags,
                    b: Coord, v: seq<TileId>, f: bool)
    requires Placed(grid) && SameShape(Q, G) && SameShape(Q, F0) && |Q| == |grid|
    requires forall i :: 0 <= i < |grid| ==> |Q[i]| == |grid[i]|
    requires Reported(grid, cells, F0, Q, G) && InBounds(b, Q) && !G[b.y][b.x] && !F0[b.y][b.x]
    requires f ==> |v| == 1
    ensures SameShape(Put(Q, b, v), Put(G, b, f))
    ensures Reported(grid, if f then cells + [grid[b.y][b.x]] else cells, F0, Put(Q, b, v), Put(G, b, f))
  {
    var cells' := if f then cells + [grid[b.y][b.x]] else cells;
    var Q', G' := Put(Q, b, v), Put(G, b, f);
    forall k | 1 <= k < |cells'|
      ensures InBounds(Coord(cells'[k].x, cells'[k].y), grid)
      ensures grid[cells'[k].y][cells'[k].x] == cells'[k]
      ensures G'[cells'[k].y][cells'[k].x] && !F0[cells'[k].y][cells'[k].x]
      ensures |Q'[cells'[k].y][cells'[k].x]| == 1
    {
      if k < |cells| {
        assert cells'[k] == cells[k];
        assert (cells[k].y, cells[k].x) != (b.y, b.x);
      }
    }
    forall i, j | 0 <= i < |grid| && 0 <= j < |grid[i]| && G'[i][j] && !F0[i][j]
      ensures grid[i][j] in cells'[1..]
    {
      if (i, j) != (b.y, b.x) {
        assert grid[i][j] in cells[1..];
        assert cells[1..] <= cells'[1..];
      } else {
        assert cells'[|cells'| - 1] == grid[i][j];
      }
    }
  }

  /** The snapshots line up with the grid, which holds each cell at its own position. */
  ghost predicate Shape(grid: seq<seq<Cell>>, P0: Snapshot, F0: Flags, Q: Snapshot, G: Flags)
  {
    && Placed(grid)
    && SameShape(P0, F0) && SameShape(Q, G) && |Q| == |grid| && |P0| == |grid|
    && (forall i :: 0 <= i < |grid| ==> |Q[i]| == |grid[i]| && |P0[i]| == |grid[i]|)
    && Rectangular(Q)
  }

  /** The bookkeeping of the loop: queued and done positions are on the grid, done ones and
      `start` are collapsed, and `cells` is `start` followed by the newly collapsed cells. */
  ghost predicate Books(grid: seq<seq<Cell>>, start: Cell, P0: Snapshot, F0: Flags, Q: Snapshot, G: Flags,
                        queue: seq<Coord>, done: seq<Coord>, cells: seq<Cell>)
    requires Shape(grid, P0, F0, Q, G)
  {
    && (forall c :: c in queue ==> InBounds(c, grid))
    && (forall d :: d in done ==> InBounds(d, grid) && G[d.y][d.x]) && NoDup(done)
    && InBounds(Coord(start.x, start.y), grid) && grid[start.y][start.x] == start && G[start.y][start.x]
    && |cells| > 0 && cells[0] == start && NoDup(cells)
    && Reported(grid, cells, F0, Q, G)
  }

  /** What the candidates are: catalog tiles, shrunk from the entry snapshot, with collapsed
      cells frozen and every valid tiling the entry snapshot allowed still allowed. */
  ghost predicate Contents(grid: seq<seq<Cell>>, tiles: TileMap, P0: Snapshot, F0: Flags, Q: Snapshot, G: Flags)
    requires Shape(grid, P0, F0, Q, G)
  {
    && AllKnown(Q, tiles)
    && Shrunk(Q, P0)
    && Frozen(P0, F0, Q, G)
    && SinglesCollapsed(P0, Q, G)
    && KeepsTilings(P0, Q, tiles)
  }

  /** What one pass of the `update_cells` loop does, with `b` at the head of the queue. A done
      `b` is popped; a collapsed one is popped and marked done; one whose list `reduce` keeps
      whole is popped. Otherwise the neighbours `reduce` reports are queued, `b` gets the list
      `reduce` keeps, and, when one candidate is left, `b` is collapsed, marked done and
      reported. */
  ghost predicate Visited(grid: seq<seq<Cell>>, Q: Snapshot, G: Flags, queue: seq<Coord>, done: seq<Coord>,
                          cells: seq<Cell>, tiles: TileMap,
                          Q': Snapshot, G': Flags, queue': seq<Coord>, done': seq<Coord>, cells': seq<Cell>)
  {
    && queue != [] && Rectangular(Q) && SameShape(Q, G) && InBounds(queue[0], Q) && InBounds(queue[0], grid)
    && var b := queue[0];
       if b in done then Q' == Q && G' == G && queue' == queue[1..] && done' == done && cells' == cells
       else if G[b.y][b.x] then Q' == Q && G' == G && queue' == queue[1..] && done' == done + [b] && cells' == cells
       else
         && ReduceDefined(Q[b.y][b.x], b.x, b.y, Q, tiles)
         && var r := ReduceCandidates(Q[b.y][b.x], b.x, b.y, Q, tiles);
            if |r.possible| == |Q[b.y][b.x]| then
              Q' == Q && G' == G && queue' == queue[1..] && done' == done && cells' == cells
            else
              && Q' == Put(Q, b, r.possible) && G' == Put(G, b, |r.possible| == 1)
              && queue' == Enqueued(queue[1..], done, r.affected)
              && done' == (if |r.possible| == 1 then done + [b] else done)
              && cells' == (if |r.possible| == 1 then cells + [grid[b.y][b.x]] else cells)
  }

  /** The loop invariant of `update_cells`, over value snapshots: `P0`/`F0` are the candidates
      and flags on entry, `Q`/`G` the current ones; `guard` records whether the grid was settled
      up to the initial queue when the propagation started. */
  ghost predicate Inv(grid: seq<seq<Cell>>, tiles: TileMap, start: Cell, P0: Snapshot, F0: Flags, guard: bool,
                      Q: Snapshot, G: Flags, queue: seq<Coord>, done: seq<Coord>, cells: seq<Cell>)
  {
    && Shape(grid, P0, F0, Q, G)
    && Books(grid, start, P0, F0, Q, G, queue, done, cells)
    && Contents(grid, tiles, P0, F0, Q, G)
    && (guard ==> Settled(Q, G, queue, tiles) && Sound(Q, G) && Cascaded(P0, Q, G, queue, tiles))
  }

  lemma InvStart(grid: seq<seq<Cell>>, tiles: TileMap, start: Cell, P0: Snapshot, F0: Flags,
                 affected: seq<Coord>)
    requires Placed(grid) && SameShape(P0, F0) && |P0| == |grid|
    requires forall i :: 0 <= i < |grid| ==> |P0[i]| == |grid[i]|
    requires forall c :: c in affected ==> InBounds(c, grid)
    requires InBounds(Coord(start.x, start.y), grid) && grid[start.y][start.x] == start && F0[start.y][start.x]
    requires AllKnown(P0, tiles)
    ensures Inv(grid, tiles, start, P0, F0, Settled(P0, F0, affected, tiles) && Sound(P0, F0),
                P0, F0, affected, [Coord(start.x, start.y)], [start])
  {
    forall i, j | 0 <= i < |P0| && 0 <= j < |P0[i]|
      ensures IsSubseq(P0[i][j], P0[i][j])
    {
      SubseqRefl(P0[i][j]);
    }
  }

  /** The head of the queue is on the grid, where the cell at its position sits. */
  lemma InvHead(grid: seq<seq<Cell>>, tiles: TileMap, start: Cell, P0: Snapshot, F0: Flags, guard: bool,
                Q: Snapshot, G: Flags, queue: seq<Coord>, done: seq<Coord>, cells: seq<Cell>)
    requires Inv(grid, tiles, start, P0, F0, guard, Q, G, queue, done, cells) && queue != []
    ensures InBounds(queue[0], grid) && InBounds(queue[0], Q) && Rectangular(grid) && Rectangular(Q)
    ensures grid[queue[0].y][queue[0].x].x == queue[0].x && grid[queue[0].y][queue[0].x].y == queue[0].y
    ensures AllKnown(Q, tiles)
  {
    assert queue[0] in queue;
  }

  /** Popping a position that is done or collapsed changes nothing but the queue (and `done`). */
  lemma InvPopCollapsed(grid: seq<seq<Cell>>, tiles: TileMap, start: Cell, P0: Snapshot, F0: Flags, guard: bool,
                        Q: Snapshot, G: Flags, queue: seq<Coord>, done: seq<Coord>, cells: seq<Cell>)
    requires Inv(grid, tiles, start, P0, F0, guard, Q, G, queue, done, cells)
    requires queue != [] && InBounds(queue[0], Q) && G[queue[0].y][queue[0].x]
    ensures Inv(grid, tiles, start, P0, F0, guard, Q, G, queue[1..], done, cells)
    ensures queue[0] !in done ==> Inv(grid, tiles, start, P0, F0, guard, Q, G, queue[1..], done + [queue[0]], cells)
  {
    assert queue[0] in queue;
    if queue[0] !in done {
      NoDupSnoc(done, queue[0]);
    }
    if guard {
      SettledPopCollapsed(Q, G, queue, tiles);
      CascadePopCollapsed(P0, Q, G, queue, tiles);
    }
  }

  /** Popping a position whose candidates all survive changes nothing but the queue. */
  lemma InvPopSurvived(grid: seq<seq<Cell>>, tiles: TileMap, start: Cell, P0: Snapshot, F0: Flags, guard: bool,
                       Q: Snapshot, G: Flags, queue: seq<Coord>, done: seq<Coord>, cells: seq<Cell>)
    requires Inv(grid, tiles, start, P0, F0, guard, Q, G, queue, done, cells)
    requires queue != [] && InBounds(queue[0], Q) && ReduceDefined(Q[queue[0].y][queue[0].x], queue[0].x, queue[0].y, Q, tiles)
    requires |ReduceCandidates(Q[queue[0].y][queue[0].x], queue[0].x, queue[0].y, Q, tiles).possible| == |Q[queue[0].y][queue[0].x]|
    ensures Inv(grid, tiles, start, P0, F0, guard, Q, G, queue[1..], done, cells)
  {
    assert queue[0] in queue;
    if guard {
      SettledPopSurvived(Q, G, queue, tiles);
      AllSurvive(Q, queue[0], tiles);
      CascadePopSurvived(P0, Q, G, queue, tiles);
    }
  }

  /** The bookkeeping half of a commit at `b`: queue, `done`, and the reported cells. */
  lemma ShrinkBooks(grid: seq<seq<Cell>>, start: Cell, P0: Snapshot, F0: Flags, Q: Snapshot, G: Flags,
                    queue: seq<Coord>, done: seq<Coord>, cells: seq<Cell>, q': seq<Coord>,
                    aff: seq<Coord>, b: Coord, np: seq<TileId>, nf: bool)
    requires Shape(grid, P0, F0, Q, G) && Books(grid, start, P0, F0, Q, G, queue, done, cells)
    requires InBounds(b, grid) && !G[b.y][b.x] && !F0[b.y][b.x] && (nf ==> |np| == 1)
    requires forall c :: c in q' ==> c in queue || c in aff
    requires forall c :: c in aff ==> InBounds(c, Q)
    ensures Shape(grid, P0, F0, Put(Q, b, np), Put(G, b, nf))
    ensures Books(grid, start, P0, F0, Put(Q, b, np), Put(G, b, nf), q',
                  if nf then done + [b] else done, if nf then cells + [grid[b.y][b.x]] else cells)
  {
    ShrinkCells(grid, start, F0, Q, G, cells, b, np, nf);
    DoneAfter(grid, G, done, b, nf);
    ShapePut(grid, P0, F0, Q, G, b, np, nf);
    assert Coord(start.x, start.y) != b;
  }

  lemma ShapePut(grid: seq<seq<Cell>>, P0: Snapshot, F0: Flags, Q: Snapshot, G: Flags, b: Coord, np: seq<TileId>, nf: bool)
    requires Shape(grid, P0, F0, Q, G) && InBounds(b, grid)
    ensures Shape(grid, P0, F0, Put(Q, b, np), Put(G, b, nf))
  {
  }

  /** `done` after a commit at the uncollapsed `b`: still collapsed positions, each once. */
  lemma DoneAfter(grid: seq<seq<Cell>>, G: Flags, done: seq<Coord>, b: Coord, nf: bool)
    requires |G| == |grid| && forall i :: 0 <= i < |grid| ==> |G[i]| == |grid[i]|
    requires InBounds(b, grid) && !G[b.y][b.x]
    requires forall d :: d in done ==> InBounds(d, grid) && G[d.y][d.x]
    requires NoDup(done)
    ensures forall d :: d in (if nf then done + [b] else done) ==> InBounds(d, grid) && Put(G, b, nf)[d.y][d.x]
    ensures NoDup(if nf then done + [b] else done)
  {
    if nf {
      NoDupSnoc(done, b);
    }
    var G' := Put(G, b, nf);
    forall d | d in (if nf then done + [b] else done)
      ensures InBounds(d, grid) && G'[d.y][d.x]
    {
      if d != b {
        assert d in done;
      }
    }
  }

  /** `reduce` names only positions inside the grid. */
  lemma AffectedInBounds(Q: Snapshot, b: Coord, tiles: TileMap)
    requires Rectangular(Q) && InBounds(b, Q) && ReduceDefined(Q[b.y][b.x], b.x, b.y, Q, tiles)
    ensures forall c :: c in ReduceCandidates(Q[b.y][b.x], b.x, b.y, Q, tiles).affected ==> InBounds(c, Q)
  {
    ReduceAffected(Q[b.y][b.x], b.x, b.y, Q, tiles);
  }

  /** The reported cells after a commit at `b`. */
  lemma ShrinkCells(grid: seq<seq<Cell>>, start: Cell, F0: Flags, Q: Snapshot, G: Flags,
                    cells: seq<Cell>, b: Coord, np: seq<TileId>, nf: bool)
    requires Placed(grid) && SameShape(Q, G) && SameShape(Q, F0) && |Q| == |grid|
    requires forall i :: 0 <= i < |grid| ==> |Q[i]| == |grid[i]|
    requires InBounds(Coord(start.x, start.y), grid) && grid[start.y][start.x] == start && G[start.y][start.x]
    requires |cells| > 0 && cells[0] == start && NoDup(cells) && Reported(grid, cells, F0, Q, G)
    requires InBounds(b, grid) && !G[b.y][b.x] && !F0[b.y][b.x] && (nf ==> |np| == 1)
    ensures var cells' := if nf then cells + [grid[b.y][b.x]] else cells;
            && |cells'| > 0 && cells'[0] == start && NoDup(cells')
            && SameShape(Put(Q, b, np), Put(G, b, nf))
            && Reported(grid, cells', F0, Put(Q, b, np), Put(G, b, nf))
  {
    ReportedPut(grid, cells, F0, Q, G, b, np, nf);
    if nf {
      assert grid[b.y][b.x] !in cells;
      NoDupSnoc(cells, grid[b.y][b.x]);
    }
  }

  /** The contents half of a commit at `b`: the new list at `b` is what `reduce` keeps. */
  lemma ShrinkContents(grid: seq<seq<Cell>>, tiles: TileMap, P0: Snapshot, F0: Flags, Q: Snapshot, G: Flags,
                       b: Coord, nf: bool)
    requires Shape(grid, P0, F0, Q, G) && Contents(grid, tiles, P0, F0, Q, G)
    requires InBounds(b, Q) && !G[b.y][b.x] && ReduceDefined(Q[b.y][b.x], b.x, b.y, Q, tiles)
    requires |ReduceCandidates(Q[b.y][b.x], b.x, b.y, Q, tiles).possible| == 1 ==> nf
    ensures var np := ReduceCandidates(Q[b.y][b.x], b.x, b.y, Q, tiles).possible;
            Shape(grid, P0, F0, Put(Q, b, np), Put(G, b, nf)) && Contents(grid, tiles, P0, F0, Put(Q, b, np), Put(G, b, nf))
  {
    var np := ReduceCandidates(Q[b.y][b.x], b.x, b.y, Q, tiles).possible;
    ReduceShrinks(Q[b.y][b.x], b.x, b.y, Q, tiles);
    SubseqMembers(np, Q[b.y][b.x]);
    KnownPut(Q, b, np, tiles);
    ShrunkPut(Q, P0, b, np);
    FrozenPut(P0, F0, Q, G, b, np, nf);
    SinglesPut(P0, Q, G, b, np, nf);
    KeepsTilingsPut(P0, Q, b, tiles);
  }

  /** Committing a strictly smaller candidate list at `b = queue[0]`, collapsing it when one
      candidate is left, after queueing its neighbours. */
  lemma InvShrink(grid: seq<seq<Cell>>, tiles: TileMap, start: Cell, P0: Snapshot, F0: Flags, guard: bool,
                  Q: Snapshot, G: Flags, queue: seq<Coord>, done: seq<Coord>, cells: seq<Cell>,
                  q': seq<Coord>, np: seq<TileId>, nf: bool, done': seq<Coord>, cells': seq<Cell>)
    requires Inv(grid, tiles, start, P0, F0, guard, Q, G, queue, done, cells)
    requires queue != [] && InBounds(queue[0], Q) && queue[0] !in done && !G[queue[0].y][queue[0].x]
    requires ReduceDefined(Q[queue[0].y][queue[0].x], queue[0].x, queue[0].y, Q, tiles)
    requires np == ReduceCandidates(Q[queue[0].y][queue[0].x], queue[0].x, queue[0].y, Q, tiles).possible
    requires nf == (|np| == 1)
    requires done' == if nf then done + [queue[0]] else done
    requires cells' == if nf then cells + [grid[queue[0].y][queue[0].x]] else cells
    requires |q'| >= |queue| - 1 && q'[..|queue| - 1] == queue[1..]
    requires forall c :: c in q' ==> c in queue || c in ReduceCandidates(Q[queue[0].y][queue[0].x], queue[0].x, queue[0].y, Q, tiles).affected
    requires forall c :: c in ReduceCandidates(Q[queue[0].y][queue[0].x], queue[0].x, queue[0].y, Q, tiles).affected && c !in done ==> c in q'
    requires |np| != |Q[queue[0].y][queue[0].x]|
    ensures Inv(grid, tiles, start, P0, F0, guard, Put(Q, queue[0], np), Put(G, queue[0], nf), q', done', cells')
    ensures Count(Put(Q, queue[0], np)) < Count(Q)
  {
    var b := queue[0];
    var r := ReduceCandidates(Q[b.y][b.x], b.x, b.y, Q, tiles);
    ShrinkCount(Q, b, tiles);
    AffectedInBounds(Q, b, tiles);
    ShrinkBooks(grid, start, P0, F0, Q, G, queue, done, cells, q', r.affected, b, r.possible, nf);
    ShrinkContents(grid, tiles, P0, F0, Q, G, b, nf);
    if guard {
      ShrinkSettled(Q, G, queue, done, q', b, tiles);
      CascadeShrink(P0, Q, G, queue, done, q', b, nf, tiles);
    }
  }

  /** A strictly shorter list at `b` lowers the total number of candidates. */
  lemma ShrinkCount(Q: Snapshot, b: Coord, tiles: TileMap)
    requires Rectangular(Q) && InBounds(b, Q) && ReduceDefined(Q[b.y][b.x], b.x, b.y, Q, tiles)
    requires |ReduceCandidates(Q[b.y][b.x], b.x, b.y, Q, tiles).possible| != |Q[b.y][b.x]|
    ensures Count(Put(Q, b, ReduceCandidates(Q[b.y][b.x], b.x, b.y, Q, tiles).possible)) < Count(Q)
  {
    ReduceShrinks(Q[b.y][b.x], b.x, b.y, Q, tiles);
    CountPut(Q, b, ReduceCandidates(Q[b.y][b.x], b.x, b.y, Q, tiles).possible);
  }

  /** The settled half of a commit at `b`. */
  lemma ShrinkSettled(Q: Snapshot, G: Flags, queue: seq<Coord>, done: seq<Coord>, q': seq<Coord>, b: Coord, tiles: TileMap)
    requires Rectangular(Q) && SameShape(Q, G) && queue != [] && b == queue[0] && InBounds(b, Q)
    requires !G[b.y][b.x] && ReduceDefined(Q[b.y][b.x], b.x, b.y, Q, tiles)
    requires Settled(Q, G, queue, tiles) && Sound(Q, G)
    requires forall d :: d in done ==> InBounds(d, Q) && G[d.y][d.x]
    requires |q'| >= |queue| - 1 && q'[..|queue| - 1] == queue[1..]
    requires forall c :: c in ReduceCandidates(Q[b.y][b.x], b.x, b.y, Q, tiles).affected && c !in done ==> c in q'
    ensures var np := ReduceCandidates(Q[b.y][b.x], b.x, b.y, Q, tiles).possible;
            Settled(Put(Q, b, np), Put(G, b, |np| == 1), q', tiles) && Sound(Put(Q, b, np), Put(G, b, |np| == 1))
  {
    var r := ReduceCandidates(Q[b.y][b.x], b.x, b.y, Q, tiles);
    var nf := |r.possible| == 1;
    ReduceAffected(Q[b.y][b.x], b.x, b.y, Q, tiles);
    forall c | c in queue && c != b
      ensures c in q'
    {
      var k :| 0 <= k < |queue| && queue[k] == c;
      assert k != 0;
      assert q'[k - 1] == queue[1..][k - 1];
    }
    if nf {
      forall c | InBounds(c, Q) && Adjacent(c, b.x, b.y) && !G[c.y][c.x]
        ensures c in q'
      {
        assert c in r.affected;
      }
    }
    SettledUpdate(Q, G, queue, q', b, r.possible, nf, tiles);
  }
  /** The cascade half of a commit at `b`: the new list at `b` fits all its neighbours, and
      the neighbours of `b` that are not done are queued. */
  lemma CascadeShrink(P0: Snapshot, Q: Snapshot, G: Flags, queue: seq<Coord>, done: seq<Coord>, q': seq<Coord>,
                      b: Coord, nf: bool, tiles: TileMap)
    requires Rectangular(Q) && SameShape(Q, G) && |P0| == |Q| && (forall i :: 0 <= i < |Q| ==> |P0[i]| == |Q[i]|)
    requires queue != [] && b == queue[0] && InBounds(b, Q) && ReduceDefined(Q[b.y][b.x], b.x, b.y, Q, tiles)
    requires Cascaded(P0, Q, G, queue, tiles)
    requires forall d :: d in done ==> InBounds(d, Q) && G[d.y][d.x]
    requires |q'| >= |queue| - 1 && q'[..|queue| - 1] == queue[1..]
    requires forall c :: c in ReduceCandidates(Q[b.y][b.x], b.x, b.y, Q, tiles).affected && c !in done ==> c in q'
    ensures var np := ReduceCandidates(Q[b.y][b.x], b.x, b.y, Q, tiles).possible;
            SameShape(Put(Q, b, np), Put(G, b, nf)) && Cascaded(P0, Put(Q, b, np), Put(G, b, nf), q', tiles)
  {
    var r := ReduceCandidates(Q[b.y][b.x], b.x, b.y, Q, tiles);
    ReduceAffected(Q[b.y][b.x], b.x, b.y, Q, tiles);
    SurvivorsSurvive(Q, b, tiles);
    forall c | c in queue && c != b
      ensures c in q'
    {
      var k :| 0 <= k < |queue| && queue[k] == c;
      assert q'[k - 1] == queue[1..][k - 1];
    }
    forall c | InBounds(c, Q) && Adjacent(c, b.x, b.y) && !G[c.y][c.x]
      ensures c in q'
    {
      assert c in r.affected;
    }
    CascadePut(P0, Q, G, queue, q', b, r.possible, nf, tiles);
  }

  /** The pairwise part of `CascadeShrink`, for any list `np` of survivors at `b`. */
  lemma CascadePut(P0: Snapshot, Q: Snapshot, G: Flags, queue: seq<Coord>, q': seq<Coord>,
                   b: Coord, np: seq<TileId>, nf: bool, tiles: TileMap)
    requires Rectangular(Q) && SameShape(Q, G) && |P0| == |Q| && (forall i :: 0 <= i < |Q| ==> |P0[i]| == |Q[i]|)
    requires InBounds(b, Q) && Cascaded(P0, Q, G, queue, tiles)
    requires forall t :: t in np ==> Survives(t, b.x, b.y, Q, tiles)
    requires forall c :: c in queue && c != b ==> c in q'
    requires forall c :: InBounds(c, Q) && Adjacent(c, b.x, b.y) && !G[c.y][c.x] ==> c in q'
    ensures SameShape(Put(Q, b, np), Put(G, b, nf)) && Cascaded(P0, Put(Q, b, np), Put(G, b, nf), q', tiles)
  {
    var Q', G' := Put(Q, b, np), Put(G, b, nf);
    forall u, c | InBounds(u, Q') && InBounds(c, Q') && Adjacent(c, u.x, u.y) && (G'[c.y][c.x] || Q'[c.y][c.x] != P0[c.y][c.x])
      ensures G'[u.y][u.x] || u in q' || Supported(Q', u, c, tiles)
    {
      if u == b {
        UpdatedSupported(Q, b, c, np, tiles);
      } else if c == b {
        FacingFlip(u, c);
      } else {
        CascadeAway(P0, Q, G, queue, q', b, u, c, np, nf, tiles);
      }
    }
  }

  /** A pair of positions away from `b` keeps what it had: collapse, place in the queue, or
      support. */
  lemma CascadeAway(P0: Snapshot, Q: Snapshot, G: Flags, queue: seq<Coord>, q': seq<Coord>,
                    b: Coord, u: Coord, c: Coord, np: seq<TileId>, nf: bool, tiles: TileMap)
    requires Rectangular(Q) && SameShape(Q, G) && |P0| == |Q| && (forall i :: 0 <= i < |Q| ==> |P0[i]| == |Q[i]|)
    requires InBounds(b, Q) && InBounds(u, Q) && InBounds(c, Q) && u != b && c != b && Adjacent(c, u.x, u.y)
    requires Cascaded(P0, Q, G, queue, tiles)
    requires forall c :: c in queue && c != b ==> c in q'
    requires Put(G, b, nf)[c.y][c.x] || Put(Q, b, np)[c.y][c.x] != P0[c.y][c.x]
    ensures Put(G, b, nf)[u.y][u.x] || u in q' || Supported(Put(Q, b, np), u, c, tiles)
  {
    var Q' := Put(Q, b, np);
    assert Q'[u.y][u.x] == Q[u.y][u.x] && Q'[c.y][c.x] == Q[c.y][c.x];
    assert G[c.y][c.x] || Q[c.y][c.x] != P0[c.y][c.x];
  }
}
