/** Square grids of modules. */
module Grid {
  import opened Geometry

  type Grid = seq<seq<bool>>

  ghost predicate Square(g: Grid, size: int) {
    |g| == size && forall y :: 0 <= y < size ==> |g[y]| == size
  }

  function BlankGrid(size: nat): (g: Grid)
    ensures Square(g, size)
    ensures forall t: Pos :: Inside(size, t) ==> !At(g, size, t)
  {
    seq(size, y => seq(size, x => false))
  }

  function At(g: Grid, ghost size: int, t: Pos): bool
    requires Square(g, size) && Inside(size, t)
  {
    g[t.y][t.x]
  }

  function Set(g: Grid, ghost size: int, t: Pos, v: bool): (g': Grid)
    requires Square(g, size) && Inside(size, t)
    ensures Square(g', size)
    ensures forall u: Pos :: Inside(size, u) ==> At(g', size, u) == if u == t then v else At(g, size, u)
  {
    g[t.y := g[t.y][t.x := v]]
  }

  /** Grids that agree everywhere are equal. */
  lemma SameGrid(g: Grid, h: Grid, size: int)
    requires Square(g, size) && Square(h, size)
    requires forall t: Pos :: Inside(size, t) ==> At(g, size, t) == At(h, size, t)
    ensures g == h
  {
    forall y | 0 <= y < size
      ensures g[y] == h[y]
    {
      forall x | 0 <= x < size
        ensures g[y][x] == h[y][x]
      {
        assert At(g, size, Pos(x, y)) == At(h, size, Pos(x, y));
      }
    }
  }
}
