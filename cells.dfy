/** One grid position (cell.py): its candidate tiles, whether it has collapsed, and the
    neighbour filter `reduce` that keeps only the candidates compatible with every
    in-bounds neighbour. The filter is a query, modelled as functions on a snapshot of the
    grid's candidate lists; `collapse` changes the cell and is a method of class `Cell`. */
module Cells {
  import opened Seqs
  import opened Tiles
  import opened Catalog

  datatype Option<T> = None | Some(value: T)

  /** A grid position: column `x`, row `y`. */
  datatype Coord = Coord(x: int, y: int)

  /** What `reduce` returns: the surviving candidates and the neighbour coordinates. */
  datatype Reduction = Reduction(possible: seq<TileId>, affected: seq<Coord>)

  /** The candidate lists of a grid, indexed `[y][x]`. */
  type Snapshot = seq<seq<seq<TileId>>>

  /** At least one row, and every row as wide as the first (`len(grid[0])` is the width). */
  predicate Rectangular<T>(g: seq<seq<T>>)
  {
    |g| > 0 && forall i :: 0 <= i < |g| ==> |g[i]| == |g[0]|
  }

  predicate InBounds<T>(c: Coord, g: seq<seq<T>>)
  {
    0 <= c.y < |g| && 0 <= c.x < |g[c.y]|
  }

  /** The candidate list at `c`, or none outside the grid. */
  function Cand(P: Snapshot, c: Coord): (r: seq<TileId>)
  {
    if InBounds(c, P) then P[c.y][c.x] else []
  }

  function Abs(n: int): (r: nat)
  {
    if n < 0 then -n else n
  }

  /** `c` shares an edge with `(x, y)`. */
  predicate Adjacent(c: Coord, x: int, y: int)
  {
    Abs(c.x - x) + Abs(c.y - y) == 1
  }

  /** The side of the tile at `(x, y)` that faces the adjacent position `c`. */
  function Facing(x: int, y: int, c: Coord): (side: nat)
    ensures side < 4
  {
    if c.x < x then Left else if c.x > x then Right else if c.y < y then Top else Bottom
  }

  /** Tile `t` has a compatible partner among the neighbour's candidates `nb`. */
  predicate Fits(t: TileId, nb: seq<TileId>, tiles: TileMap, ownSide: nat, otherSide: nat)
  {
    && t in tiles && ownSide < |tiles[t].sides|
    && exists n :: n in nb && n in tiles && otherSide < |tiles[n].sides|
                   && Compatible(tiles[t], ownSide, tiles[n], otherSide)
  }

  /** Tile `t` fits every in-bounds neighbour of `(x, y)` on the shared edge. */
  ghost predicate Survives(t: TileId, x: int, y: int, P: Snapshot, tiles: TileMap)
  {
    forall c :: Adjacent(c, x, y) && InBounds(c, P) ==>
      Fits(t, P[c.y][c.x], tiles, Facing(x, y, c), Opposite(Facing(x, y, c)))
  }

  /** Every tile `reduce` looks up is in the catalog with four sides: for each neighbour that
      exists, the cell's own candidates and the neighbour's. */
  ghost predicate ReduceDefined(own: seq<TileId>, x: int, y: int, P: Snapshot, tiles: TileMap)
    requires Rectangular(P) && InBounds(Coord(x, y), P)
  {
    && (x > 0 ==> Known(own, tiles) && Known(P[y][x - 1], tiles))
    && (x < |P[0]| - 1 ==> Known(own, tiles) && Known(P[y][x + 1], tiles))
    && (y > 0 ==> Known(own, tiles) && Known(P[y - 1][x], tiles))
    && (y < |P| - 1 ==> Known(own, tiles) && Known(P[y + 1][x], tiles))
  }

  /** `list(map(lambda cell: tiles[cell].sides[side], nb))`: the neighbour's edge signatures. */
  function Sockets(nb: seq<TileId>, tiles: TileMap, side: nat): (r: seq<string>)
    requires Known(nb, tiles) && side < 4
  {
    seq(|nb|, i requires 0 <= i < |nb| => tiles[nb[i]].sides[side])
  }

  /** The loop of `_reduce_single_side`: keep each candidate whose own side, reversed, is
      among the neighbour's signatures. */
  function KeepMatching(own: seq<TileId>, sockets: seq<string>, tiles: TileMap, ownSide: nat): (r: seq<TileId>)
    requires Known(own, tiles) && ownSide < 4
  {
    if own == [] then []
    else
      (if Reverse(tiles[own[0]].sides[ownSide]) in sockets then [own[0]] else [])
      + KeepMatching(own[1..], sockets, tiles, ownSide)
  }

  /** `_reduce_single_side`: the candidates, in order, that fit some candidate of the neighbour. */
  function ReduceSingleSide(own: seq<TileId>, nb: seq<TileId>, tiles: TileMap, ownSide: nat, otherSide: nat): (r: seq<TileId>)
    requires Known(own, tiles) && Known(nb, tiles) && ownSide < 4 && otherSide < 4
    ensures r == Filter(own, t => Fits(t, nb, tiles, ownSide, otherSide))
  {
    KeepMatchingFits(own, nb, tiles, ownSide, otherSide);
    KeepMatching(own, Sockets(nb, tiles, otherSide), tiles, ownSide)
  }

  lemma SocketMatch(t: TileId, nb: seq<TileId>, tiles: TileMap, ownSide: nat, otherSide: nat)
    requires Known([t], tiles) && Known(nb, tiles) && ownSide < 4 && otherSide < 4
    ensures Reverse(tiles[t].sides[ownSide]) in Sockets(nb, tiles, otherSide)
            <==> Fits(t, nb, tiles, ownSide, otherSide)
  {
    var sockets := Sockets(nb, tiles, otherSide);
    if Reverse(tiles[t].sides[ownSide]) in sockets {
      var i :| 0 <= i < |sockets| && sockets[i] == Reverse(tiles[t].sides[ownSide]);
      assert nb[i] in nb && Compatible(tiles[t], ownSide, tiles[nb[i]], otherSide);
    }
    if Fits(t, nb, tiles, ownSide, otherSide) {
      var n :| n in nb && n in tiles && otherSide < |tiles[n].sides|
               && Compatible(tiles[t], ownSide, tiles[n], otherSide);
      var i :| 0 <= i < |nb| && nb[i] == n;
      assert sockets[i] == Reverse(tiles[t].sides[ownSide]);
    }
  }

  lemma {:induction false} KeepMatchingFits(own: seq<TileId>, nb: seq<TileId>, tiles: TileMap, ownSide: nat, otherSide: nat)
    requires Known(own, tiles) && Known(nb, tiles) && ownSide < 4 && otherSide < 4
    ensures KeepMatching(own, Sockets(nb, tiles, otherSide), tiles, ownSide)
            == Filter(own, t => Fits(t, nb, tiles, ownSide, otherSide))
  {
    if own != [] {
      SocketMatch(own[0], nb, tiles, ownSide, otherSide);
      KeepMatchingFits(own[1..], nb, tiles, ownSide, otherSide);
    }
  }

  /** One of the four steps of `reduce`: when the neighbour `n` exists, record it and keep the
      single-side survivors that were still candidates (`filter(lambda cell: cell in ...)`). */
  function Narrow(acc: Reduction, present: bool, n: Coord, own: seq<TileId>, P: Snapshot,
                  tiles: TileMap, ownSide: nat, otherSide: nat): (r: Reduction)
    requires present ==> InBounds(n, P) && Known(own, tiles) && Known(P[n.y][n.x], tiles)
    requires ownSide < 4 && otherSide < 4
  {
    if !present then acc
    else
      var single := ReduceSingleSide(own, P[n.y][n.x], tiles, ownSide, otherSide);
      Reduction(Filter(single, t => t in acc.possible), acc.affected + [n])
  }

  /** `reduce`: filter the candidates `own` of the cell at `(x, y)` against its left, right,
      upper and lower neighbours, where they exist. Nothing is changed. */
  function ReduceCandidates(own: seq<TileId>, x: int, y: int, P: Snapshot, tiles: TileMap): (r: Reduction)
    requires Rectangular(P) && InBounds(Coord(x, y), P)
    requires ReduceDefined(own, x, y, P, tiles)
    ensures forall t :: t in r.possible ==> t in own
  {
    NeighbourInBounds(x, y, P);
    var r0 := Reduction(own, []);
    var r1 := Narrow(r0, x > 0, Coord(x - 1, y), own, P, tiles, Left, Right);
    var r2 := Narrow(r1, x < |P[0]| - 1, Coord(x + 1, y), own, P, tiles, Right, Left);
    var r3 := Narrow(r2, y > 0, Coord(x, y - 1), own, P, tiles, Top, Bottom);
    Narrow(r3, y < |P| - 1, Coord(x, y + 1), own, P, tiles, Bottom, Top)
  }

  /** The source's four bounds tests are exactly "the neighbour lies inside the grid". */
  lemma NeighbourInBounds(x: int, y: int, P: Snapshot)
    requires Rectangular(P) && InBounds(Coord(x, y), P)
    ensures x > 0 <==> InBounds(Coord(x - 1, y), P)
    ensures x < |P[0]| - 1 <==> InBounds(Coord(x + 1, y), P)
    ensures y > 0 <==> InBounds(Coord(x, y - 1), P)
    ensures y < |P| - 1 <==> InBounds(Coord(x, y + 1), P)
  {
  }

  /** `[c]` when `b` holds, otherwise nothing. */
  function Opt(b: bool, c: Coord): (r: seq<Coord>)
  {
    if b then [c] else []
  }

  /** `affected` lists the in-bounds neighbours: at most four distinct positions, each inside
      the grid and sharing an edge with the cell, and every such position. */
  lemma ReduceAffected(own: seq<TileId>, x: int, y: int, P: Snapshot, tiles: TileMap)
    requires Rectangular(P) && InBounds(Coord(x, y), P)
    requires ReduceDefined(own, x, y, P, tiles)
    ensures forall c :: c in ReduceCandidates(own, x, y, P, tiles).affected <==> Adjacent(c, x, y) && InBounds(c, P)
    ensures NoDup(ReduceCandidates(own, x, y, P, tiles).affected)
    ensures |ReduceCandidates(own, x, y, P, tiles).affected| <= 4
  {
    ReduceAffectedList(own, x, y, P, tiles);
    InBoundsNeighbours(x, y, P);
  }

  /** The in-bounds neighbours, in the order left, right, up, down, are every in-bounds
      position sharing an edge with `(x, y)`, each once. */
  lemma InBoundsNeighbours(x: int, y: int, P: Snapshot)
    requires Rectangular(P) && InBounds(Coord(x, y), P)
    ensures var a := Opt(x > 0, Coord(x - 1, y)) + Opt(x < |P[0]| - 1, Coord(x + 1, y))
                     + Opt(y > 0, Coord(x, y - 1)) + Opt(y < |P| - 1, Coord(x, y + 1));
            && (forall c :: c in a <==> Adjacent(c, x, y) && InBounds(c, P))
            && NoDup(a) && |a| <= 4
  {
    var cl, cr, cu, cd := Coord(x - 1, y), Coord(x + 1, y), Coord(x, y - 1), Coord(x, y + 1);
    var pl, pr, pu, pd := x > 0, x < |P[0]| - 1, y > 0, y < |P| - 1;
    NeighbourInBounds(x, y, P);
    forall c
      ensures c in Opt(pl, cl) + Opt(pr, cr) + Opt(pu, cu) + Opt(pd, cd) <==> Adjacent(c, x, y) && InBounds(c, P)
    {
      OptMembers(pl, pr, pu, pd, cl, cr, cu, cd, c);
      if Adjacent(c, x, y) {
        AdjacentCases(c, x, y);
      }
    }
    OptNoDup(pl, pr, pu, pd, cl, cr, cu, cd);
  }

  lemma OptMembers(pa: bool, pb: bool, pc: bool, pd: bool, a: Coord, b: Coord, c: Coord, d: Coord, e: Coord)
    ensures e in Opt(pa, a) + Opt(pb, b) + Opt(pc, c) + Opt(pd, d)
            <==> (pa && e == a) || (pb && e == b) || (pc && e == c) || (pd && e == d)
  {
  }

  /** Up to four distinct positions, each kept or not, form a list without repeats. */
  lemma OptNoDup(pa: bool, pb: bool, pc: bool, pd: bool, a: Coord, b: Coord, c: Coord, d: Coord)
    requires a != b && a != c && a != d && b != c && b != d && c != d
    ensures NoDup(Opt(pa, a) + Opt(pb, b) + Opt(pc, c) + Opt(pd, d))
    ensures |Opt(pa, a) + Opt(pb, b) + Opt(pc, c) + Opt(pd, d)| <= 4
  {
    var s := Opt(pa, a) + Opt(pb, b) + Opt(pc, c) + Opt(pd, d);
    forall i, j | 0 <= i < j < |s|
      ensures s[i] != s[j]
    {
      assert s[i] in s[..j] && s[j] in s[j..];
      assert s[..j] + s[j..] == s;
    }
  }

  /** One step of `reduce` records its neighbour exactly when that neighbour exists. */
  lemma NarrowAffected(acc: Reduction, present: bool, n: Coord, own: seq<TileId>, P: Snapshot,
                       tiles: TileMap, ownSide: nat, otherSide: nat)
    requires present ==> InBounds(n, P) && Known(own, tiles) && Known(P[n.y][n.x], tiles)
    requires ownSide < 4 && otherSide < 4
    ensures Narrow(acc, present, n, own, P, tiles, ownSide, otherSide).affected == acc.affected + Opt(present, n)
  {
  }

  /** `affected` lists the in-bounds neighbours in the order left, right, up, down. */
  lemma ReduceAffectedList(own: seq<TileId>, x: int, y: int, P: Snapshot, tiles: TileMap)
    requires Rectangular(P) && InBounds(Coord(x, y), P)
    requires ReduceDefined(own, x, y, P, tiles)
    ensures ReduceCandidates(own, x, y, P, tiles).affected
            == Opt(x > 0, Coord(x - 1, y)) + Opt(x < |P[0]| - 1, Coord(x + 1, y))
               + Opt(y > 0, Coord(x, y - 1)) + Opt(y < |P| - 1, Coord(x, y + 1))
  {
    NeighbourInBounds(x, y, P);
    var r0 := Reduction(own, []);
    var r1 := Narrow(r0, x > 0, Coord(x - 1, y), own, P, tiles, Left, Right);
    NarrowAffected(r0, x > 0, Coord(x - 1, y), own, P, tiles, Left, Right);
    assert r0.affected + Opt(x > 0, Coord(x - 1, y)) == Opt(x > 0, Coord(x - 1, y));
    var r2 := Narrow(r1, x < |P[0]| - 1, Coord(x + 1, y), own, P, tiles, Right, Left);
    NarrowAffected(r1, x < |P[0]| - 1, Coord(x + 1, y), own, P, tiles, Right, Left);
    var r3 := Narrow(r2, y > 0, Coord(x, y - 1), own, P, tiles, Top, Bottom);
    NarrowAffected(r2, y > 0, Coord(x, y - 1), own, P, tiles, Top, Bottom);
    var r4 := Narrow(r3, y < |P| - 1, Coord(x, y + 1), own, P, tiles, Bottom, Top);
    NarrowAffected(r3, y < |P| - 1, Coord(x, y + 1), own, P, tiles, Bottom, Top);
    assert r4 == ReduceCandidates(own, x, y, P, tiles);
  }

  /** The candidates that survive `reduce` are exactly, and in their original order, those that
      fit every in-bounds neighbour. */
  lemma ReduceSurvivors(own: seq<TileId>, x: int, y: int, P: Snapshot, tiles: TileMap)
    requires Rectangular(P) && InBounds(Coord(x, y), P)
    requires ReduceDefined(own, x, y, P, tiles)
    ensures ReduceCandidates(own, x, y, P, tiles).possible == Filter(own, t => Survives(t, x, y, P, tiles))
  {
    ReduceFour(own, x, y, P, tiles);
    forall t | t in own
      ensures FourFits(t, x, y, P, tiles) == Survives(t, x, y, P, tiles)
    {
      SurvivesFour(t, x, y, P, tiles);
    }
    FilterExtOn(own, t => FourFits(t, x, y, P, tiles), t => Survives(t, x, y, P, tiles));
  }

  /** The source's four bounds-guarded tests, each a single-side fit. */
  ghost predicate FourFits(t: TileId, x: int, y: int, P: Snapshot, tiles: TileMap)
    requires Rectangular(P) && InBounds(Coord(x, y), P)
  {
    && (x > 0 ==> Fits(t, Cand(P, Coord(x - 1, y)), tiles, Left, Right))
    && (x < |P[0]| - 1 ==> Fits(t, Cand(P, Coord(x + 1, y)), tiles, Right, Left))
    && (y > 0 ==> Fits(t, Cand(P, Coord(x, y - 1)), tiles, Top, Bottom))
    && (y < |P| - 1 ==> Fits(t, Cand(P, Coord(x, y + 1)), tiles, Bottom, Top))
  }

  /** The four steps of `reduce` keep, in order, the candidates passing all four tests. */
  lemma ReduceFour(own: seq<TileId>, x: int, y: int, P: Snapshot, tiles: TileMap)
    requires Rectangular(P) && InBounds(Coord(x, y), P)
    requires ReduceDefined(own, x, y, P, tiles)
    ensures ReduceCandidates(own, x, y, P, tiles).possible == Filter(own, t => FourFits(t, x, y, P, tiles))
  {
    NeighbourInBounds(x, y, P);
    var cl, cr, cu, cd := Coord(x - 1, y), Coord(x + 1, y), Coord(x, y - 1), Coord(x, y + 1);
    var pl, pr, pu, pd := x > 0, x < |P[0]| - 1, y > 0, y < |P| - 1;
    var q0: TileId -> bool := t => true;
    var q1: TileId -> bool := t => q0(t) && (pl ==> Fits(t, Cand(P, cl), tiles, Left, Right));
    var q2: TileId -> bool := t => q1(t) && (pr ==> Fits(t, Cand(P, cr), tiles, Right, Left));
    var q3: TileId -> bool := t => q2(t) && (pu ==> Fits(t, Cand(P, cu), tiles, Top, Bottom));
    var q4: TileId -> bool := t => q3(t) && (pd ==> Fits(t, Cand(P, cd), tiles, Bottom, Top));
    var r0 := Reduction(own, []);
    FilterAll(own, q0);
    var r1 := Narrow(r0, pl, cl, own, P, tiles, Left, Right);
    NarrowFilters(r0, pl, cl, own, P, tiles, Left, Right, q0, q1);
    var r2 := Narrow(r1, pr, cr, own, P, tiles, Right, Left);
    NarrowFilters(r1, pr, cr, own, P, tiles, Right, Left, q1, q2);
    var r3 := Narrow(r2, pu, cu, own, P, tiles, Top, Bottom);
    NarrowFilters(r2, pu, cu, own, P, tiles, Top, Bottom, q2, q3);
    var r4 := Narrow(r3, pd, cd, own, P, tiles, Bottom, Top);
    NarrowFilters(r3, pd, cd, own, P, tiles, Bottom, Top, q3, q4);
    assert r4 == ReduceCandidates(own, x, y, P, tiles);
    FilterExtOn(own, q4, t => FourFits(t, x, y, P, tiles));
  }

  lemma NarrowFilters(acc: Reduction, present: bool, n: Coord, own: seq<TileId>, P: Snapshot,
                      tiles: TileMap, ownSide: nat, otherSide: nat, q: TileId -> bool, q': TileId -> bool)
    requires present ==> InBounds(n, P) && Known(own, tiles) && Known(P[n.y][n.x], tiles)
    requires ownSide < 4 && otherSide < 4
    requires acc.possible == Filter(own, q)
    requires forall t :: q'(t) == (q(t) && (present ==> Fits(t, Cand(P, n), tiles, ownSide, otherSide)))
    ensures Narrow(acc, present, n, own, P, tiles, ownSide, otherSide).possible == Filter(own, q')
  {
    if !present {
      FilterExtOn(own, q, q');
    } else {
      var fits := t => Fits(t, P[n.y][n.x], tiles, ownSide, otherSide);
      var single := ReduceSingleSide(own, P[n.y][n.x], tiles, ownSide, otherSide);
      assert single == Filter(own, fits);
      FilterExtOn(single, t => t in acc.possible, q);
      FilterFilter(own, fits, q, q');
    }
  }

  /** `Survives` spelled out as the source's four bounds-guarded tests. */
  lemma SurvivesFour(t: TileId, x: int, y: int, P: Snapshot, tiles: TileMap)
    requires Rectangular(P) && InBounds(Coord(x, y), P)
    ensures Survives(t, x, y, P, tiles) <==> FourFits(t, x, y, P, tiles)
  {
    if Survives(t, x, y, P, tiles) {
      SurvivesToFour(t, x, y, P, tiles);
    }
    if FourFits(t, x, y, P, tiles) {
      FourToSurvives(t, x, y, P, tiles);
    }
  }

  lemma SurvivesToFour(t: TileId, x: int, y: int, P: Snapshot, tiles: TileMap)
    requires Rectangular(P) && InBounds(Coord(x, y), P)
    requires Survives(t, x, y, P, tiles)
    ensures x > 0 ==> Fits(t, Cand(P, Coord(x - 1, y)), tiles, Left, Right)
    ensures x < |P[0]| - 1 ==> Fits(t, Cand(P, Coord(x + 1, y)), tiles, Right, Left)
    ensures y > 0 ==> Fits(t, Cand(P, Coord(x, y - 1)), tiles, Top, Bottom)
    ensures y < |P| - 1 ==> Fits(t, Cand(P, Coord(x, y + 1)), tiles, Bottom, Top)
  {
    NeighbourInBounds(x, y, P);
    if x > 0 {
      SurvivesAt(t, x, y, P, tiles, Coord(x - 1, y));
    }
    if x < |P[0]| - 1 {
      SurvivesAt(t, x, y, P, tiles, Coord(x + 1, y));
    }
    if y > 0 {
      SurvivesAt(t, x, y, P, tiles, Coord(x, y - 1));
    }
    if y < |P| - 1 {
      SurvivesAt(t, x, y, P, tiles, Coord(x, y + 1));
    }
  }

  lemma SurvivesAt(t: TileId, x: int, y: int, P: Snapshot, tiles: TileMap, c: Coord)
    requires Survives(t, x, y, P, tiles)
    requires Adjacent(c, x, y) && InBounds(c, P)
    ensures Fits(t, Cand(P, c), tiles, Facing(x, y, c), Opposite(Facing(x, y, c)))
  {
  }

  lemma FourToSurvives(t: TileId, x: int, y: int, P: Snapshot, tiles: TileMap)
    requires Rectangular(P) && InBounds(Coord(x, y), P)
    requires x > 0 ==> Fits(t, Cand(P, Coord(x - 1, y)), tiles, Left, Right)
    requires x < |P[0]| - 1 ==> Fits(t, Cand(P, Coord(x + 1, y)), tiles, Right, Left)
    requires y > 0 ==> Fits(t, Cand(P, Coord(x, y - 1)), tiles, Top, Bottom)
    requires y < |P| - 1 ==> Fits(t, Cand(P, Coord(x, y + 1)), tiles, Bottom, Top)
    ensures Survives(t, x, y, P, tiles)
  {
    NeighbourInBounds(x, y, P);
    forall c | Adjacent(c, x, y) && InBounds(c, P)
      ensures Fits(t, P[c.y][c.x], tiles, Facing(x, y, c), Opposite(Facing(x, y, c)))
    {
      AdjacentCases(c, x, y);
      assert Cand(P, c) == P[c.y][c.x];
      if c == Coord(x - 1, y) {
        assert Facing(x, y, c) == Left;
      } else if c == Coord(x + 1, y) {
        assert Facing(x, y, c) == Right;
      } else if c == Coord(x, y - 1) {
        assert Facing(x, y, c) == Top;
      } else {
        assert Facing(x, y, c) == Bottom;
      }
    }
  }

  /** The four positions that share an edge with `(x, y)`. */
  lemma AdjacentCases(c: Coord, x: int, y: int)
    requires Adjacent(c, x, y)
    ensures c == Coord(x - 1, y) || c == Coord(x + 1, y) || c == Coord(x, y - 1) || c == Coord(x, y + 1)
  {
    if c.x == x {
      assert c == Coord(x, y - 1) || c == Coord(x, y + 1);
    } else {
      assert c.y == y;
      assert c == Coord(x - 1, y) || c == Coord(x + 1, y);
    }
  }

  /** Candidate lists only shrink under `reduce`: the result is a subsequence of the input, so
      it is no longer, and a result of the same length is the input itself. */
  lemma ReduceShrinks(own: seq<TileId>, x: int, y: int, P: Snapshot, tiles: TileMap)
    requires Rectangular(P) && InBounds(Coord(x, y), P)
    requires ReduceDefined(own, x, y, P, tiles)
    ensures IsSubseq(ReduceCandidates(own, x, y, P, tiles).possible, own)
    ensures |ReduceCandidates(own, x, y, P, tiles).possible| <= |own|
    ensures |ReduceCandidates(own, x, y, P, tiles).possible| == |own| ==>
              ReduceCandidates(own, x, y, P, tiles).possible == own
  {
    ReduceSurvivors(own, x, y, P, tiles);
    FilterSubseq(own, t => Survives(t, x, y, P, tiles));
    SubseqLength(ReduceCandidates(own, x, y, P, tiles).possible, own);
  }

  /** `g` with the entry at `b` replaced by `v`. */
  function Put<T>(g: seq<seq<T>>, b: Coord, v: T): (r: seq<seq<T>>)
    requires InBounds(b, g)
    ensures |r| == |g| && forall i :: 0 <= i < |g| ==> |r[i]| == |g[i]|
    ensures r[b.y][b.x] == v
    ensures forall i, j :: 0 <= i < |g| && 0 <= j < |g[i]| && (i, j) != (b.y, b.x) ==> r[i][j] == g[i][j]
  {
    g[b.y := g[b.y][b.x := v]]
  }

  /** Every candidate of every position is a catalog tile with four sides. */
  ghost predicate AllKnown(P: Snapshot, tiles: TileMap)
  {
    forall i, j :: 0 <= i < |P| && 0 <= j < |P[i]| ==> Known(P[i][j], tiles)
  }

  lemma KnownDefined(P: Snapshot, x: int, y: int, tiles: TileMap)
    requires Rectangular(P) && InBounds(Coord(x, y), P) && AllKnown(P, tiles)
    ensures ReduceDefined(P[y][x], x, y, P, tiles)
  {
  }

  /** `collapse` at `b` raises: `reduce` keeps none of its candidates. */
  ghost predicate Stuck(P: Snapshot, b: Coord, tiles: TileMap)
  {
    && Rectangular(P) && InBounds(b, P) && ReduceDefined(P[b.y][b.x], b.x, b.y, P, tiles)
    && ReduceCandidates(P[b.y][b.x], b.x, b.y, P, tiles).possible == []
  }

  /** A complete placement `S` (one tile per position) in which horizontally and vertically
      adjacent tiles fit along their shared edge. */
  ghost predicate ValidTiling(S: seq<seq<TileId>>, tiles: TileMap)
  {
    && Rectangular(S)
    && (forall i, j :: 0 <= i < |S| && 0 <= j < |S[i]| ==> S[i][j] in tiles && |tiles[S[i][j]].sides| == 4)
    && (forall i, j :: 0 <= i < |S| && 0 <= j < |S[i]| - 1 ==> FitsRight(S, i, j, tiles))
    && (forall i, j :: 0 <= i < |S| - 1 && 0 <= j < |S[i]| ==> FitsBelow(S, i, j, tiles))
  }

  /** The tile at `(j, i)` and the one to its right fit along their shared edge. */
  ghost predicate FitsRight(S: seq<seq<TileId>>, i: int, j: int, tiles: TileMap)
    requires 0 <= i < |S| && 0 <= j < |S[i]| - 1
  {
    && S[i][j] in tiles && S[i][j + 1] in tiles
    && |tiles[S[i][j]].sides| == 4 && |tiles[S[i][j + 1]].sides| == 4
    && Compatible(tiles[S[i][j]], Right, tiles[S[i][j + 1]], Left)
  }

  /** The tile at `(j, i)` and the one below it fit along their shared edge. */
  ghost predicate FitsBelow(S: seq<seq<TileId>>, i: int, j: int, tiles: TileMap)
    requires 0 <= i < |S| - 1 && 0 <= j < |S[i]| && j < |S[i + 1]|
  {
    && S[i][j] in tiles && S[i + 1][j] in tiles
    && |tiles[S[i][j]].sides| == 4 && |tiles[S[i + 1][j]].sides| == 4
    && Compatible(tiles[S[i][j]], Bottom, tiles[S[i + 1][j]], Top)
  }

  /** The candidate lists `P` still allow the placement `S`. */
  ghost predicate Allows(P: Snapshot, S: seq<seq<TileId>>)
  {
    && |S| == |P|
    && (forall i :: 0 <= i < |P| ==> |S[i]| == |P[i]|)
    && (forall i, j :: 0 <= i < |P| && 0 <= j < |P[i]| ==> S[i][j] in P[i][j])
  }

  /** `reduce` never discards a tile that some valid tiling allowed by the grid puts there. */
  lemma ReduceKeepsTiling(x: int, y: int, P: Snapshot, tiles: TileMap, S: seq<seq<TileId>>)
    requires Rectangular(P) && InBounds(Coord(x, y), P)
    requires ReduceDefined(P[y][x], x, y, P, tiles)
    requires ValidTiling(S, tiles) && Allows(P, S)
    ensures S[y][x] in ReduceCandidates(P[y][x], x, y, P, tiles).possible
  {
    var t := S[y][x];
    if x > 0 {
      assert FitsRight(S, y, x - 1, tiles);
      CompatibleSymmetric(tiles[S[y][x - 1]], Right, tiles[t], Left);
      assert S[y][x - 1] in Cand(P, Coord(x - 1, y));
    }
    if x < |P[0]| - 1 {
      assert FitsRight(S, y, x, tiles);
      assert S[y][x + 1] in Cand(P, Coord(x + 1, y));
    }
    if y > 0 {
      assert FitsBelow(S, y - 1, x, tiles);
      CompatibleSymmetric(tiles[S[y - 1][x]], Bottom, tiles[t], Top);
      assert S[y - 1][x] in Cand(P, Coord(x, y - 1));
    }
    if y < |P| - 1 {
      assert FitsBelow(S, y, x, tiles);
      assert S[y + 1][x] in Cand(P, Coord(x, y + 1));
    }
    FourToSurvives(t, x, y, P, tiles);
    ReduceSurvivors(P[y][x], x, y, P, tiles);
  }

  /** All cells of a grid. */
  ghost function CellsOf(grid: seq<seq<Cell>>): (r: set<Cell>)
  {
    set i, j | 0 <= i < |grid| && 0 <= j < |grid[i]| :: grid[i][j]
  }

  /** The grid's candidate lists as a value. */
  function Possibles(grid: seq<seq<Cell>>): (P: Snapshot)
    reads CellsOf(grid)
    ensures |P| == |grid|
    ensures forall i :: 0 <= i < |grid| ==> |P[i]| == |grid[i]|
    ensures forall i, j :: 0 <= i < |grid| && 0 <= j < |grid[i]| ==> P[i][j] == grid[i][j].possible
  {
    seq(|grid|, i requires 0 <= i < |grid| reads CellsOf(grid) =>
      seq(|grid[i]|, j requires 0 <= j < |grid[i]| reads CellsOf(grid) => grid[i][j].possible))
  }

  /** The collapsed flags of a grid as a value. */
  ghost function FlagsOf(grid: seq<seq<Cell>>): (F: seq<seq<bool>>)
    reads CellsOf(grid)
    ensures |F| == |grid|
    ensures forall i :: 0 <= i < |grid| ==> |F[i]| == |grid[i]|
    ensures forall i, j :: 0 <= i < |grid| && 0 <= j < |grid[i]| ==> F[i][j] == grid[i][j].collapsed
  {
    seq(|grid|, i requires 0 <= i < |grid| reads CellsOf(grid) =>
      seq(|grid[i]|, j requires 0 <= j < |grid[i]| reads CellsOf(grid) => grid[i][j].collapsed))
  }

  /** A snapshot is determined by its shape and its entries. */
  lemma SnapshotIs(grid: seq<seq<Cell>>, Q: Snapshot)
    requires |Q| == |grid| && forall i :: 0 <= i < |grid| ==> |Q[i]| == |grid[i]|
    requires forall i, j :: 0 <= i < |grid| && 0 <= j < |grid[i]| ==> Q[i][j] == grid[i][j].possible
    ensures Possibles(grid) == Q
  {
    var P := Possibles(grid);
    forall i | 0 <= i < |grid|
      ensures P[i] == Q[i]
    {
    }
  }

  lemma FlagsAre(grid: seq<seq<Cell>>, G: seq<seq<bool>>)
    requires |G| == |grid| && forall i :: 0 <= i < |grid| ==> |G[i]| == |grid[i]|
    requires forall i, j :: 0 <= i < |grid| && 0 <= j < |grid[i]| ==> G[i][j] == grid[i][j].collapsed
    ensures FlagsOf(grid) == G
  {
    var F := FlagsOf(grid);
    forall i | 0 <= i < |grid|
      ensures F[i] == G[i]
    {
    }
  }

  /** Writing back the entry a grid already holds changes nothing. */
  lemma PutSame<T>(g: seq<seq<T>>, b: Coord)
    requires InBounds(b, g)
    ensures Put(g, b, g[b.y][b.x]) == g
  {
    assert g[b.y][b.x := g[b.y][b.x]] == g[b.y];
  }

  /** A grid whose cells hold the entries of `P` and `F` everywhere but at `b`, where they
      hold `v` and `f`, has the snapshots `Put(P, b, v)` and `Put(F, b, f)`. */
  lemma SnapshotPut(grid: seq<seq<Cell>>, P: Snapshot, F: seq<seq<bool>>, b: Coord, v: seq<TileId>, f: bool)
    requires InBounds(b, grid) && |P| == |grid| && |F| == |grid|
    requires forall i :: 0 <= i < |grid| ==> |P[i]| == |grid[i]| && |F[i]| == |grid[i]|
    requires forall i, j :: 0 <= i < |grid| && 0 <= j < |grid[i]| && (i, j) != (b.y, b.x) ==>
               P[i][j] == grid[i][j].possible && F[i][j] == grid[i][j].collapsed
    requires grid[b.y][b.x].possible == v && grid[b.y][b.x].collapsed == f
    ensures Possibles(grid) == Put(P, b, v) && FlagsOf(grid) == Put(F, b, f)
  {
    SnapshotIs(grid, Put(P, b, v));
    FlagsAre(grid, Put(F, b, f));
  }

  /** Each cell sits in the grid at its own coordinates (`grid[y][x]` has `x` and `y`), so
      distinct positions hold distinct cells. */
  predicate Placed(grid: seq<seq<Cell>>)
  {
    && Rectangular(grid)
    && forall i, j :: 0 <= i < |grid| && 0 <= j < |grid[i]| ==> grid[i][j].x == j && grid[i][j].y == i
  }

  class Cell {
    var possible: seq<TileId>
    var collapsed: bool
    const x: int
    const y: int

    /** `Cell.__init__`: a new cell is not collapsed and holds the given candidates. */
    constructor (possible: seq<TileId>, x: int, y: int)
      ensures this.possible == possible && !this.collapsed
      ensures this.x == x && this.y == y
    {
      this.possible := possible;
      this.collapsed := false;
      this.x := x;
      this.y := y;
    }

    /** `reduce`: this cell's candidates filtered against the neighbours found in `grid`.
        It keeps, in order, exactly the candidates that fit every neighbour inside the grid,
        and lists exactly those neighbours. */
    function Reduce(grid: seq<seq<Cell>>, tiles: TileMap): (r: Reduction)
      reads this, CellsOf(grid)
      requires Rectangular(grid) && InBounds(Coord(x, y), grid)
      requires ReduceDefined(possible, x, y, Possibles(grid), tiles)
      ensures var P := Possibles(grid); r.possible == Filter(possible, t => Survives(t, x, y, P, tiles))
      ensures forall c :: c in r.affected <==> Adjacent(c, x, y) && InBounds(c, grid)
    {
      ReduceSurvivors(possible, x, y, Possibles(grid), tiles);
      ReduceAffected(possible, x, y, Possibles(grid), tiles);
      ReduceCandidates(possible, x, y, Possibles(grid), tiles)
    }

    /** `collapse`: commit to one surviving candidate and report the neighbours. When no
        candidate survives, `random.sample` raises and nothing is assigned: `None`. */
    method Collapse(grid: seq<seq<Cell>>, tiles: TileMap) returns (affected: Option<seq<Coord>>)
      requires Rectangular(grid) && InBounds(Coord(x, y), grid)
      requires ReduceDefined(possible, x, y, Possibles(grid), tiles)
      modifies this
      ensures old(Reduce(grid, tiles)).possible == [] ==>
                affected == None && possible == old(possible) && collapsed == old(collapsed)
      ensures old(Reduce(grid, tiles)).possible != [] ==>
                && affected == Some(old(Reduce(grid, tiles)).affected)
                && collapsed && |possible| == 1
                && possible[0] in old(Reduce(grid, tiles)).possible
      ensures IsSubseq(possible, old(possible))
    {
      var r := Reduce(grid, tiles);
      if r.possible == [] {
        affected := None;
        SubseqRefl(possible);
      } else {
        assert r.possible[0] in r.possible;
        var chosen :| chosen in r.possible;
        SubseqSingleton(chosen, possible);
        possible := [chosen];
        collapsed := true;
        affected := Some(r.affected);
      }
    }
  }
}
