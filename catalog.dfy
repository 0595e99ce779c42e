/** The tile catalog that `read_files` (main.py) builds: a map from tile id to tile, and the
    rotation of a side list by `collections.deque.rotate` that yields the rotated variants. */
module Catalog {
  import opened Tiles

  type TileMap = map<TileId, Tile>

  /** Every id in `ids` names a catalog tile with four sides, so `tiles[t].sides[k]` is defined. */
  predicate Known(ids: seq<TileId>, tiles: TileMap)
  {
    forall t :: t in ids ==> t in tiles && |tiles[t].sides| == 4
  }

  /** `deque(sides).rotate(r)`: `r` steps to the right (to the left when `r` is negative).
      The last `r mod n` sides move to the front. */
  function RotateSides(sides: seq<string>, r: int): (s: seq<string>)
    ensures |s| == |sides|
    ensures forall j :: 0 <= j < |s| ==> s[j] == sides[(j - r) % |s|]
  {
    if |sides| == 0 then sides
    else
      var n := |sides|;
      var k := r % n;
      var s := sides[n - k..] + sides[..n - k];
      assert r == (r / n) * n + k;
      forall j | 0 <= j < n
        ensures s[j] == sides[(j - r) % n]
      {
        if j < k {
          assert j - r == (-(r / n) - 1) * n + (n - k + j) by { MulSub(-(r / n), 1, n); }
          ModUnique(j - r, -(r / n) - 1, n - k + j, n);
        } else {
          assert j - r == (-(r / n)) * n + (j - k) by { MulNeg(r / n, n); }
          ModUnique(j - r, -(r / n), j - k, n);
        }
      }
      s
  }

  /** Side `i` ends up at position `(i + r) mod n`. */
  lemma RotateMoves(sides: seq<string>, r: int, i: int)
    requires 0 <= i < |sides|
    ensures RotateSides(sides, r)[(i + r) % |sides|] == sides[i]
  {
    ShiftBack(i, r, |sides|);
  }

  /** Euclidean division is determined by any quotient and in-range remainder. */
  lemma ModUnique(x: int, k: int, m: int, n: int)
    requires n > 0 && 0 <= m < n && x == k * n + m
    ensures x % n == m
  {
    var q, r := x / n, x % n;
    assert x == q * n + r;
    var d := k - q;
    MulSub(k, q, n);
    assert d * n == r - m;
    if d > 0 {
      MulAtLeast(d, n);
    } else if d < 0 {
      MulAtLeast(-d, n);
      MulNeg(d, n);
    }
  }

  lemma MulSub(k: int, q: int, n: int)
    ensures (k - q) * n == k * n - q * n
  {
  }

  lemma MulNeg(d: int, n: int)
    ensures (-d) * n == -(d * n)
  {
  }

  lemma {:induction false} MulAtLeast(d: int, n: int)
    requires d >= 1 && n > 0
    ensures d * n >= n
  {
    if d > 1 {
      MulAtLeast(d - 1, n);
      MulSub(d, 1, n);
    }
  }

  lemma ShiftBack(i: int, r: int, n: int)
    requires 0 <= i < n
    ensures ((i + r) % n - r) % n == i
  {
    var q := (i + r) / n;
    assert i + r == q * n + (i + r) % n;
    assert (i + r) % n - r == (-q) * n + i;
    ModUnique((i + r) % n - r, -q, i, n);
  }

  /** Rotating by zero steps leaves the sides as they were. */
  lemma RotateByZero(sides: seq<string>)
    ensures RotateSides(sides, 0) == sides
  {
    var s := RotateSides(sides, 0);
    forall j | 0 <= j < |sides|
      ensures s[j] == sides[j]
    {
      ModUnique(j - 0, 0, j, |sides|);
    }
  }

  /** Two rotations make one rotation by the sum of the steps. */
  lemma RotateCompose(sides: seq<string>, a: int, b: int)
    ensures RotateSides(RotateSides(sides, a), b) == RotateSides(sides, a + b)
  {
    var n := |sides|;
    if n > 0 {
      var once := RotateSides(sides, a);
      var lhs := RotateSides(once, b);
      var rhs := RotateSides(sides, a + b);
      forall j | 0 <= j < n
        ensures lhs[j] == rhs[j]
      {
        var k := (j - b) % n;
        assert lhs[j] == once[k];
        assert once[k] == sides[(k - a) % n];
        ShiftTwice(j, a, b, n);
      }
    }
  }

  lemma ShiftTwice(j: int, a: int, b: int, n: int)
    requires n > 0
    ensures ((j - b) % n - a) % n == (j - (a + b)) % n
  {
    SumMod(j - b, -a, n);
    assert (j - b) % n - a == (j - b) % n + -a;
    assert j - b + -a == j - (a + b);
  }

  lemma SumMod(x: int, y: int, n: int)
    requires n > 0
    ensures (x % n + y) % n == (x + y) % n
  {
    var t := x + y;
    assert x == (x / n) * n + x % n;
    assert t == (t / n) * n + t % n;
    assert x % n + y == (t / n - x / n) * n + t % n;
    ModUnique(x % n + y, t / n - x / n, t % n, n);
  }

  /** A quarter turn moves the last side to the front: (a, b, c, d) becomes (d, a, b, c). */
  lemma RotateQuarter(a: string, b: string, c: string, d: string)
    ensures RotateSides([a, b, c, d], 1) == [d, a, b, c]
  {
    var sides := [a, b, c, d];
    var s := RotateSides(sides, 1);
    assert (0 - 1) % 4 == 3 && (1 - 1) % 4 == 0 && (2 - 1) % 4 == 1 && (3 - 1) % 4 == 2;
    assert s[0] == sides[3] && s[1] == sides[0] && s[2] == sides[1] && s[3] == sides[2];
  }

  /** Four quarter turns of a four-sided tile bring every side back. */
  lemma RotateFullTurn(sides: seq<string>)
    requires |sides| == 4
    ensures RotateSides(sides, 4) == sides
  {
    var s := RotateSides(sides, 4);
    forall j | 0 <= j < 4
      ensures s[j] == sides[j]
    {
      ModUnique(j - 4, -1, j, 4);
    }
  }
}
