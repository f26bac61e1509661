/**
 * The 9 x 9 grids the game state keeps (board values, pencil lists), as
 * sequences of rows, and the cell update both kinds of grid use.
 */
module Grid {
  import opened PuzzleStore

  predicate IsGrid<T>(g: seq<seq<T>>) {
    |g| == BoardSize && forall r :: 0 <= r < BoardSize ==> |g[r]| == BoardSize
  }

  /** `grid[row][col] = x`: one cell changes, every other cell keeps its content. */
  function Update<T>(g: seq<seq<T>>, p: Pos, x: T): (r: seq<seq<T>>)
    requires IsGrid(g) && OnBoard(p.0, p.1)
    ensures IsGrid(r)
    ensures forall row, col :: OnBoard(row, col) ==>
      r[row][col] == if (row, col) == p then x else g[row][col]
  {
    g[p.0 := g[p.0][p.1 := x]]
  }

  /** Two grids that agree on every cell are the same grid. */
  lemma GridsEqual<T>(a: seq<seq<T>>, b: seq<seq<T>>)
    requires IsGrid(a) && IsGrid(b)
    requires forall row, col :: OnBoard(row, col) ==> a[row][col] == b[row][col]
    ensures a == b
  {
    forall row | 0 <= row < BoardSize ensures a[row] == b[row] {
      assert forall col :: 0 <= col < BoardSize ==> a[row][col] == b[row][col];
    }
  }

  predicate Distinct<T(==)>(s: seq<T>) {
    forall i, j :: 0 <= i < j < |s| ==> s[i] != s[j]
  }

  /** The set of a sequence's elements: a list passed where Python builds `set(cells)`. */
  function Elements<T(==)>(s: seq<T>): set<T> {
    set x | x in s
  }
}
