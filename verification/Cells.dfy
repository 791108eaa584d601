// The one-degree grids that both builders file points under.
module Cells {
  datatype Cell = Cell(x: int, y: int)

  type Grid = map<Cell, seq<nat>>

  /** The order in which both builders scan cells. */
  predicate CellBefore(c: Cell, d: Cell) {
    c.x < d.x || (c.x == d.x && c.y < d.y)
  }

  /** The ids filed under a cell. */
  function Mates(grid: Grid, x: int, y: int): seq<nat> {
    if Cell(x, y) in grid then grid[Cell(x, y)] else []
  }

  /** `grid.set(key, [..., id])`. */
  function FileUnder(grid: Grid, c: Cell, id: nat): Grid {
    grid[c := Mates(grid, c.x, c.y) + [id]]
  }
}
