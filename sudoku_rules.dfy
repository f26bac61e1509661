/**
 * The rules the game state checks entries against: the peers of a cell
 * (its row, its column and its 3 x 3 box), the uniqueness conflicts among
 * peers, and the cage-sum rule. These are the specifications that the
 * methods of GameState are proved against.
 */
module SudokuRules {
  import opened PuzzleStore
  import opened Grid

  predicate SameBox(row: int, col: int, r: int, c: int) {
    r / 3 == row / 3 && c / 3 == col / 3
  }

  /** `(r, c)` shares a row, a column or a box with `(row, col)`; a cell is its own peer. */
  predicate IsPeer(row: int, col: int, r: int, c: int) {
    OnBoard(r, c) && (r == row || c == col || SameBox(row, col, r, c))
  }

  /** Some other peer of `(row, col)` holds the value that `(row, col)` holds (0 included). */
  ghost predicate ValueConflict(board: seq<seq<int>>, row: int, col: int)
    requires IsGrid(board) && OnBoard(row, col)
  {
    exists r, c :: IsPeer(row, col, r, c) && (r, c) != (row, col) && board[r][c] == board[row][col]
  }

  /** Some peer of `(row, col)`, the cell itself included, holds the value `mark`. */
  ghost predicate MarkBlocked(board: seq<seq<int>>, mark: int, row: int, col: int)
    requires IsGrid(board)
  {
    exists r, c :: IsPeer(row, col, r, c) && board[r][c] == mark
  }

  /** A conflict is seen from both of the two cells that hold the equal values. */
  lemma ConflictIsMutual(board: seq<seq<int>>, row: int, col: int, r: int, c: int)
    requires IsGrid(board) && OnBoard(row, col)
    requires IsPeer(row, col, r, c) && (r, c) != (row, col) && board[r][c] == board[row][col]
    ensures ValueConflict(board, r, c)
  {
    assert IsPeer(r, c, row, col);
  }

  /** The total of the board values of `cells`, in list order. */
  function CellsSum(board: seq<seq<int>>, cells: seq<Pos>): int
    requires IsGrid(board) && AllOnBoard(cells)
  {
    if cells == [] then 0
    else
      var last := cells[|cells| - 1];
      CellsSum(board, cells[..|cells| - 1]) + board[last.0][last.1]
  }

  predicate HasEmptyCell(board: seq<seq<int>>, cells: seq<Pos>)
    requires IsGrid(board) && AllOnBoard(cells)
  {
    exists p :: p in cells && board[p.0][p.1] == 0
  }

  /**
   * The cage-sum rule: a complete cage must hit its sum exactly, a cage with
   * an empty cell must still be strictly below it.
   */
  predicate CageValid(board: seq<seq<int>>, cageSum: int, cells: seq<Pos>)
    requires IsGrid(board) && AllOnBoard(cells)
    ensures CageValid(board, cageSum, cells) ==> CellsSum(board, cells) <= cageSum
  {
    if HasEmptyCell(board, cells) then CellsSum(board, cells) < cageSum
    else CellsSum(board, cells) == cageSum
  }

  lemma {:induction false} CellsSumAppend(board: seq<seq<int>>, s: seq<Pos>, t: seq<Pos>)
    requires IsGrid(board) && AllOnBoard(s) && AllOnBoard(t)
    ensures AllOnBoard(s + t)
    ensures CellsSum(board, s + t) == CellsSum(board, s) + CellsSum(board, t)
  {
    if t == [] {
      assert s + t == s;
    } else {
      var init := t[..|t| - 1];
      assert (s + t)[..|s + t| - 1] == s + init;
      CellsSumAppend(board, s, init);
    }
  }

  /** Taking one cell out of the list takes its value out of the total. */
  lemma CellsSumRemoveAt(board: seq<seq<int>>, t: seq<Pos>, j: int)
    requires IsGrid(board) && AllOnBoard(t) && 0 <= j < |t|
    ensures AllOnBoard(t[..j] + t[j + 1..])
    ensures CellsSum(board, t) == CellsSum(board, t[..j] + t[j + 1..]) + board[t[j].0][t[j].1]
  {
    var x := t[j];
    assert t == (t[..j] + [x]) + t[j + 1..];
    CellsSumAppend(board, t[..j] + [x], t[j + 1..]);
    CellsSumAppend(board, t[..j], [x]);
    CellsSumAppend(board, t[..j], t[j + 1..]);
    assert [x][..0] == [];
  }

  /** Taking the last cell of `s` out of `s`, and an equal cell out of `t`, keeps the two multisets equal. */
  lemma MultisetRemoveLast(s: seq<Pos>, t: seq<Pos>, j: int)
    requires multiset(s) == multiset(t) && s != []
    requires 0 <= j < |t| && t[j] == s[|s| - 1]
    ensures multiset(t[..j] + t[j + 1..]) == multiset(s[..|s| - 1])
  {
    var x := s[|s| - 1];
    var init := s[..|s| - 1];
    var rest := t[..j] + t[j + 1..];
    assert s == init + [x];
    assert t == t[..j] + [x] + t[j + 1..];
    assert multiset(t) == multiset(t[..j]) + multiset{x} + multiset(t[j + 1..]);
    assert multiset(s) == multiset(init) + multiset{x};
    assert multiset(rest) == multiset(t[..j]) + multiset(t[j + 1..]);
    forall y ensures multiset(rest)[y] == multiset(init)[y] {
      assert multiset(t)[y] == multiset(rest)[y] + multiset{x}[y];
      assert multiset(s)[y] == multiset(init)[y] + multiset{x}[y];
    }
  }

  /** The sum of a cage's values does not depend on the order its cells are listed in. */
  lemma {:induction false} CellsSumPermutation(board: seq<seq<int>>, s: seq<Pos>, t: seq<Pos>)
    requires IsGrid(board) && AllOnBoard(s) && AllOnBoard(t)
    requires multiset(s) == multiset(t)
    ensures CellsSum(board, s) == CellsSum(board, t)
    decreases |s|
  {
    if s == [] {
      assert |t| == |multiset(t)| == 0;
    } else {
      var x := s[|s| - 1];
      var init := s[..|s| - 1];
      assert s == init + [x];
      assert x in multiset(t);
      var j :| 0 <= j < |t| && t[j] == x;
      var rest := t[..j] + t[j + 1..];
      MultisetRemoveLast(s, t, j);
      CellsSumRemoveAt(board, t, j);
      CellsSumPermutation(board, init, rest);
    }
  }

  /** `is_cage_valid` gives the same answer for any ordering of the cage's cells. */
  lemma CageValidOrderIndependent(board: seq<seq<int>>, cageSum: int, s: seq<Pos>, t: seq<Pos>)
    requires IsGrid(board) && AllOnBoard(s) && AllOnBoard(t)
    requires multiset(s) == multiset(t)
    ensures CageValid(board, cageSum, s) == CageValid(board, cageSum, t)
  {
    CellsSumPermutation(board, s, t);
    forall p ensures p in s <==> p in t {
      assert p in s <==> p in multiset(s);
      assert p in t <==> p in multiset(t);
    }
  }
}
