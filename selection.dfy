/** `get_lowest_entropy_cells` (main.py): one row-major pass over the grid that keeps the
    cells with the fewest candidates. The pass is specified by `Scan`, a fold of `Step` over
    the cells in row-major order; the lemmas say what the fold computes. */
module Selection {
  import opened Seqs
  import opened Cells

  /** The starting value of `current_Lowest`: larger than any expected candidate count. */
  const Sentinel: nat := 1000

  /** The two variables of the pass: `current_Lowest` and `collection`. */
  datatype Pick = Pick(lowest: int, chosen: seq<Cell>)

  /** One iteration of the inner loop. An uncollapsed cell with fewer candidates restarts the
      collection; otherwise any cell, collapsed or not, with exactly `lowest` candidates joins. */
  function Step(acc: Pick, c: Cell): (r: Pick)
    reads c
  {
    if !c.collapsed && |c.possible| < acc.lowest then Pick(|c.possible|, [c])
    else if |c.possible| == acc.lowest then Pick(acc.lowest, acc.chosen + [c])
    else acc
  }

  /** The pass over `cells`, in order. */
  function Scan(cells: seq<Cell>): (r: Pick)
    reads cells
  {
    if cells == [] then Pick(Sentinel, [])
    else Step(Scan(cells[..|cells| - 1]), cells[|cells| - 1])
  }

  /** The cells of `grid` row by row, as the nested `for` loops visit them. */
  function RowMajor(grid: seq<seq<Cell>>): (r: seq<Cell>)
  {
    if grid == [] then [] else RowMajor(grid[..|grid| - 1]) + grid[|grid| - 1]
  }

  /** Every cell of the grid is visited by the pass. */
  lemma {:induction false} RowMajorHas(grid: seq<seq<Cell>>, i: int, j: int)
    requires 0 <= i < |grid| && 0 <= j < |grid[i]|
    ensures grid[i][j] in RowMajor(grid)
  {
    var front := grid[..|grid| - 1];
    assert RowMajor(grid) == RowMajor(front) + grid[|grid| - 1];
    if i < |grid| - 1 {
      assert grid[i] == front[i];
      RowMajorHas(front, i, j);
    } else {
      assert grid[i][j] in grid[|grid| - 1];
    }
  }

  /** The pass visits nothing but cells of the grid. */
  lemma {:induction false} RowMajorFrom(grid: seq<seq<Cell>>, c: Cell)
    requires c in RowMajor(grid)
    ensures exists i, j :: 0 <= i < |grid| && 0 <= j < |grid[i]| && c == grid[i][j]
  {
    var front := grid[..|grid| - 1];
    var last := grid[|grid| - 1];
    assert RowMajor(grid) == RowMajor(front) + last;
    if c in last {
      var j :| 0 <= j < |last| && last[j] == c;
      assert c == grid[|grid| - 1][j];
    } else {
      RowMajorFrom(front, c);
      var i, j :| 0 <= i < |front| && 0 <= j < |front[i]| && c == front[i][j];
      assert c == grid[i][j];
    }
  }

  /** `get_lowest_entropy_cells`: the nested loops, proved to compute the fold. */
  method LowestEntropyCells(grid: seq<seq<Cell>>) returns (collection: seq<Cell>)
    ensures collection == Scan(RowMajor(grid)).chosen
  {
    var lowest: int := Sentinel;
    collection := [];
    var i := 0;
    while i < |grid|
      invariant 0 <= i <= |grid|
      invariant Pick(lowest, collection) == Scan(RowMajor(grid[..i]))
    {
      var row := grid[i];
      var j := 0;
      assert RowMajor(grid[..i]) + row[..0] == RowMajor(grid[..i]);
      while j < |row|
        invariant 0 <= j <= |row|
        invariant Pick(lowest, collection) == Scan(RowMajor(grid[..i]) + row[..j])
      {
        var cell := row[j];
        ghost var before := RowMajor(grid[..i]) + row[..j];
        ghost var acc := Scan(before);
        assert RowMajor(grid[..i]) + row[..j + 1] == before + [cell];
        assert (before + [cell])[..|before|] == before;
        assert Scan(before + [cell]) == Step(acc, cell);
        if !cell.collapsed && |cell.possible| < lowest {
          collection := [cell];
          lowest := |cell.possible|;
        } else if |cell.possible| == lowest {
          collection := collection + [cell];
        }
        assert Pick(lowest, collection) == Step(acc, cell);
        j := j + 1;
      }
      assert grid[..i + 1][..i] == grid[..i];
      assert row[..j] == row;
      i := i + 1;
    }
    assert grid[..i] == grid;
  }

  /** `lowest` never exceeds the sentinel, is at most the count of every uncollapsed cell, and
      unless it is still the sentinel it is the count of some uncollapsed cell. */
  lemma {:induction false} ScanLowest(cells: seq<Cell>)
    ensures Scan(cells).lowest <= Sentinel
    ensures forall c :: c in cells && !c.collapsed ==> Scan(cells).lowest <= |c.possible|
    ensures Scan(cells).lowest == Sentinel ||
            exists c :: c in cells && !c.collapsed && |c.possible| == Scan(cells).lowest
  {
    if cells != [] {
      var front, last := cells[..|cells| - 1], cells[|cells| - 1];
      ScanLowest(front);
      assert cells == front + [last];
      var lo := Scan(front).lowest;
      if lo != Sentinel && Scan(cells).lowest == lo {
        var w :| w in front && !w.collapsed && |w.possible| == lo;
        assert w in cells;
      }
    }
  }

  /** The collection holds, in grid order, cells whose count is `lowest`; it holds every
      uncollapsed cell with that count (collapsed ones may join through the `elif`). */
  lemma {:induction false} ScanChosen(cells: seq<Cell>)
    ensures forall c :: c in Scan(cells).chosen ==> c in cells && |c.possible| == Scan(cells).lowest
    ensures forall c :: c in cells && !c.collapsed && |c.possible| == Scan(cells).lowest ==> c in Scan(cells).chosen
    ensures IsSubseq(Scan(cells).chosen, cells)
  {
    if cells != [] {
      var front, last := cells[..|cells| - 1], cells[|cells| - 1];
      assert cells == front + [last];
      ScanChosen(front);
      ScanLowest(front);
      var acc := Scan(front);
      if !last.collapsed && |last.possible| < acc.lowest {
        SubseqSingleton(last, cells);
      } else if |last.possible| == acc.lowest {
        SubseqAppend(acc.chosen, front, last);
      } else {
        SubseqExtend(acc.chosen, front, last);
      }
    }
  }

  /** When collapsed cells hold exactly one candidate, the pass comes back empty exactly when
      every uncollapsed cell has more candidates than the sentinel; so with at most 1000
      tiles it comes back empty exactly when the whole grid has collapsed. */
  lemma ScanEmpty(cells: seq<Cell>)
    requires forall c :: c in cells && c.collapsed ==> |c.possible| == 1
    ensures Scan(cells).chosen == [] <==> forall c :: c in cells && !c.collapsed ==> |c.possible| > Sentinel
  {
    ScanLowest(cells);
    ScanChosen(cells);
    var r := Scan(cells);
    if r.chosen == [] {
      assert r.lowest == Sentinel;
    } else {
      var c := r.chosen[0];
      assert c in r.chosen;
      if c.collapsed {
        assert r.lowest == 1;
        var w :| w in cells && !w.collapsed && |w.possible| == r.lowest;
        assert |w.possible| <= Sentinel;
      }
    }
  }

  /** The `elif` does not test `collapsed`: a collapsed cell with one candidate is selected
      beside an uncollapsed cell that also has one candidate. */
  lemma ScanMaySelectCollapsed(u: Cell, c: Cell)
    requires !u.collapsed && |u.possible| == 1
    requires c.collapsed && |c.possible| == 1
    ensures Scan([u, c]).chosen == [u, c]
  {
    assert [u, c][..1] == [u];
    assert [u][..0] == [];
    assert Scan([u]) == Pick(1, [u]);
  }
}
