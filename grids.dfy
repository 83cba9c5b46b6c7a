/** Cells, grids of markers, and which cells of a grid are land. */
module Grids {

  /** A cell coordinate: (row, column). */
  type Cell = (int, int)

  /** Every row is as long as the first one. */
  predicate Rectangular(g: seq<seq<char>>) {
    forall i :: 0 <= i < |g| ==> |g[i]| == |g[0]|
  }

  /** A grid of markers: '1' is land, every other marker is water. */
  type Grid = g: seq<seq<char>> | Rectangular(g) witness []

  /** The column count is read off the first row; an empty grid has none. */
  function Cols(grid: Grid): nat {
    if grid == [] then 0 else |grid[0]|
  }

  predicate InBounds(grid: Grid, x: Cell) {
    0 <= x.0 < |grid| && 0 <= x.1 < Cols(grid)
  }

  predicate IsLand(grid: Grid, x: Cell) {
    InBounds(grid, x) && grid[x.0][x.1] == '1'
  }

  /** All land cells of the grid. */
  function LandCells(grid: Grid): (land: set<Cell>)
    ensures forall x {:trigger x in land} :: x in land <==> IsLand(grid, x)
  {
    set r, c | 0 <= r < |grid| && 0 <= c < Cols(grid) && grid[r][c] == '1' :: (r, c)
  }

  /** The four steps of a flood fill, in the order they are tried: the neighbours of the origin. */
  const Directions: seq<(int, int)> := Neighbours((0, 0))

  /** The four cells one step away from x: down, up, right, left. */
  function Neighbours(x: Cell): seq<Cell> {
    [(x.0 + 1, x.1), (x.0 - 1, x.1), (x.0, x.1 + 1), (x.0, x.1 - 1)]
  }

  /** Stepping by Directions[i] from x reaches Neighbours(x)[i], which no earlier direction reaches. */
  lemma NeighbourAt(x: Cell, i: int)
    requires 0 <= i < |Directions|
    ensures |Neighbours(x)| == |Directions|
    ensures Neighbours(x)[i] == (x.0 + Directions[i].0, x.1 + Directions[i].1)
    ensures Neighbours(x)[i] !in Neighbours(x)[..i]
  {
  }

  predicate Adjacent(a: Cell, b: Cell) {
    b in Neighbours(a)
  }

  lemma AdjacentSymmetric(a: Cell, b: Cell)
    requires Adjacent(a, b)
    ensures Adjacent(b, a)
  {
  }
}
