/** One tile variant (tile.py): its four edge signatures, read clockwise around the tile,
    and the identifier derived from its image's file name. The image itself is not modelled;
    the file name stands in for it. */
module Tiles {
  import opened Seqs

  type TileId = string

  /** Side indices, clockwise from the top. */
  const Top: nat := 0
  const Right: nat := 1
  const Bottom: nat := 2
  const Left: nat := 3

  /** The side that touches side `side` of a neighbouring tile. */
  function Opposite(side: nat): (o: nat)
    requires side < 4
    ensures o < 4 && o != side
    ensures (side == Left <==> o == Right) && (side == Right <==> o == Left)
    ensures (side == Top <==> o == Bottom) && (side == Bottom <==> o == Top)
  {
    (side + 2) % 4
  }

  datatype Tile = Tile(id: TileId, sides: seq<string>)

  /** Python's `s.split(sep)[-1]`: the text after the last `sep`, or all of `s`. */
  function AfterLast(s: string, sep: char): (r: string)
    ensures sep !in r
    ensures |r| <= |s| && r == s[|s| - |r|..]
    ensures |r| < |s| ==> s[|s| - |r| - 1] == sep
  {
    if s == [] then []
    else if s[|s| - 1] == sep then []
    else AfterLast(s[..|s| - 1], sep) + [s[|s| - 1]]
  }

  /** Python's `s.split(sep)[0]`: the text before the first `sep`, or all of `s`. */
  function BeforeFirst(s: string, sep: char): (r: string)
    ensures sep !in r
    ensures r <= s
    ensures |r| < |s| ==> s[|r|] == sep
  {
    if s == [] then []
    else if s[0] == sep then []
    else [s[0]] + BeforeFirst(s[1..], sep)
  }

  /** The tile identifier: the file name's last `\`-separated segment, cut at its first `.`. */
  function IdOf(filename: string): (id: TileId)
    ensures '\\' !in id && '.' !in id
    ensures id <= AfterLast(filename, '\\')
    ensures |id| < |AfterLast(filename, '\\')| ==> AfterLast(filename, '\\')[|id|] == '.'
    ensures '\\' !in filename && '.' !in filename ==> id == filename
  {
    BeforeFirst(AfterLast(filename, '\\'), '.')
  }

  /** The constructor `Tile.__init__`: the sides are kept as given, the id comes from the name. */
  function NewTile(filename: string, sides: seq<string>): (t: Tile)
    ensures t.sides == sides && t.id == IdOf(filename)
  {
    Tile(IdOf(filename), sides)
  }

  /** Side `ownSide` of `a` fits side `otherSide` of `b`: both are read clockwise, so
      along a shared edge one runs against the other and `a`'s is reversed. */
  predicate Compatible(a: Tile, ownSide: nat, b: Tile, otherSide: nat)
    requires ownSide < |a.sides| && otherSide < |b.sides|
  {
    Reverse(a.sides[ownSide]) == b.sides[otherSide]
  }

  /** Compatibility does not depend on which of the two tiles is looked at from. */
  lemma CompatibleSymmetric(a: Tile, ownSide: nat, b: Tile, otherSide: nat)
    requires ownSide < |a.sides| && otherSide < |b.sides|
    ensures Compatible(a, ownSide, b, otherSide) <==> Compatible(b, otherSide, a, ownSide)
  {
    ReverseReverse(a.sides[ownSide]);
    ReverseReverse(b.sides[otherSide]);
  }
}
