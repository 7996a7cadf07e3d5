/** The 16x16 matrix of cells behind the board (`Board.data` in helpers.js). */
module Cells {

  /** Rows and columns of the board. */
  const Size := 16

  /** Number of cells, the length of a share-link digit string. */
  const CellCount := 256

  /** A cell's `on` value. JavaScript leaves it `undefined`, sets it to 0, or to `NaN` when a link
      holds a non-digit; all three are falsy and act alike, so all three are 0 here. Every writer
      stores a single digit (toggle: 1 or 2, generated drums: 2, decode: 1..9). */
  type Cell = v: int | 0 <= v <= 9

  const Off: Cell := 0
  const Synth: Cell := 1
  const Drum: Cell := 2

  predicate IsGrid(g: seq<seq<Cell>>) {
    |g| == Size && forall i :: 0 <= i < |g| ==> |g[i]| == Size
  }

  type Grid = g: seq<seq<Cell>> | IsGrid(g) witness seq(16, i => seq(16, j => 0))

  /** Both indices address a cell of the board. */
  predicate InRange(i: int, j: int) {
    0 <= i < Size && 0 <= j < Size
  }

  /** The board after `reset()`: every cell off. */
  function Blank(): (g: Grid)
    ensures forall i, j :: InRange(i, j) ==> g[i][j] == Off
  {
    seq(16, i => seq(16, j => 0))
  }

  /** The cell at row-major position `k`, i.e. row `k / 16`, column `k % 16`. */
  function At(g: Grid, k: int): (c: Cell)
    requires 0 <= k < CellCount
  {
    g[k / Size][k % Size]
  }

  /** `g` with the one cell (i, j) set to `v`. */
  function Write(g: Grid, i: int, j: int, v: Cell): (r: Grid)
    requires InRange(i, j)
    ensures r[i][j] == v
    ensures forall a, b :: InRange(a, b) && (a != i || b != j) ==> r[a][b] == g[a][b]
  {
    var row: seq<Cell> := g[i][j := v];
    g[i := row]
  }
}
