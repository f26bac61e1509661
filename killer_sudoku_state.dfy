/**
 * The puzzle state and move engine of src/killer_sudoku_state.py: the 9 x 9
 * board of digits (0 = empty), the 9 x 9 grid of pencil lists, the log of
 * applied moves, the bound puzzle, and the validity queries the board view
 * asks of them.
 */
module GameState {
  import opened Wrappers
  import opened PuzzleStore
  import opened Grid
  import opened PencilMarks
  import opened SudokuRules
  import opened Moves

  /** `add_cell` inside `get_sudoku_neighbours`: append `p` unless it is already listed. */
  function AddCell(s: seq<Pos>, p: Pos): (r: seq<Pos>)
    ensures Distinct(s) ==> Distinct(r)
    ensures |r| == if p in s then |s| else |s| + 1
    ensures forall q :: q in r <==> q in s || q == p
    ensures |s| > 0 ==> |r| > 0 && r[0] == s[0]
  {
    if p in s then s else s + [p]
  }

  /** Both ends of the 3 x 3 box that a board coordinate lies in. */
  lemma BoxStart(x: int)
    requires 0 <= x < BoardSize
    ensures 0 <= (x / 3) * 3 <= x < (x / 3) * 3 + 3 <= BoardSize
    ensures forall y :: (x / 3) * 3 <= y < (x / 3) * 3 + 3 <==> 0 <= y < BoardSize && y / 3 == x / 3
  {
  }

  /**
   * `get_sudoku_neighbours`: the cell itself first, then its row and column
   * interleaved, then the rest of its box, each peer once: 21 cells.
   */
  method GetSudokuNeighbours(row: int, col: int) returns (neighbours: seq<Pos>)
    requires OnBoard(row, col)
    ensures |neighbours| == 21 && neighbours[0] == (row, col)
    ensures Distinct(neighbours)
    ensures forall r, c :: (r, c) in neighbours <==> IsPeer(row, col, r, c)
  {
    neighbours := [(row, col)];
    var rowStart := (row / 3) * 3;
    var colStart := (col / 3) * 3;
    BoxStart(row);
    BoxStart(col);
    for index := 0 to BoardSize
      invariant |neighbours| > 0 && neighbours[0] == (row, col) && Distinct(neighbours)
      invariant forall r, c :: (r, c) in neighbours <==>
        (r, c) == (row, col) || (r == row && 0 <= c < index) || (0 <= r < index && c == col)
      invariant |neighbours| == 1 + 2 * index - (if col < index then 1 else 0) - (if row < index then 1 else 0)
    {
      neighbours := AddCell(neighbours, (row, index));
      neighbours := AddCell(neighbours, (index, col));
    }
    for r0 := rowStart to rowStart + 3
      invariant |neighbours| > 0 && neighbours[0] == (row, col) && Distinct(neighbours)
      invariant forall r, c :: (r, c) in neighbours <==>
        (r == row && 0 <= c < BoardSize) || (0 <= r < BoardSize && c == col) ||
        (rowStart <= r < r0 && colStart <= c < colStart + 3)
      invariant |neighbours| == 17 + 2 * (r0 - rowStart - (if rowStart <= row < r0 then 1 else 0))
    {
      for c0 := colStart to colStart + 3
        invariant |neighbours| > 0 && neighbours[0] == (row, col) && Distinct(neighbours)
        invariant forall r, c :: (r, c) in neighbours <==>
          (r == row && 0 <= c < BoardSize) || (0 <= r < BoardSize && c == col) ||
          (rowStart <= r < r0 && colStart <= c < colStart + 3) || (r == r0 && colStart <= c < c0)
        invariant |neighbours| == 17 + 2 * (r0 - rowStart - (if rowStart <= row < r0 then 1 else 0)) +
          (if r0 == row then 0 else c0 - colStart - (if colStart <= col < c0 then 1 else 0))
      {
        neighbours := AddCell(neighbours, (r0, c0));
      }
    }
  }

  /** The all-zero board of a fresh or cleared state. */
  function EmptyBoard(): (b: seq<seq<int>>)
    ensures IsGrid(b) && forall r, c :: OnBoard(r, c) ==> b[r][c] == 0
  {
    seq(BoardSize, _ => seq(BoardSize, _ => 0))
  }

  /** The pencil grid of a fresh state: every list empty. */
  function EmptyMarks(): (m: seq<seq<seq<int>>>)
    ensures IsGrid(m) && forall r, c :: OnBoard(r, c) ==> m[r][c] == []
  {
    seq(BoardSize, _ => seq(BoardSize, _ => []))
  }

  /**
   * `is_value_valid` does not exempt empty cells: on the empty board every
   * cell conflicts with an empty peer in its own row.
   */
  lemma EmptyBoardConflicts(row: int, col: int)
    requires OnBoard(row, col)
    ensures ValueConflict(EmptyBoard(), row, col)
  {
    var c := if col == 0 then 1 else 0;
    assert IsPeer(row, col, row, c) && (row, c) != (row, col) && EmptyBoard()[row][c] == 0;
  }

  class KillerSudokuState {
    var puzzle: Option<Puzzle>
    var board: seq<seq<int>>
    var marks: seq<seq<seq<int>>>
    /** The move log; its last element is the top of the stack. */
    var moves: seq<Move>

    /** Both grids 9 x 9, every pencil list valid, every logged move well formed. */
    ghost predicate Valid()
      reads this
    {
      GridsOk(Grids(board, marks)) && forall i :: 0 <= i < |moves| ==> MoveOk(moves[i])
    }

    function View(): Grids
      reads this
    {
      Grids(board, marks)
    }

    /** A fresh state: no puzzle, every value 0, every pencil list empty, no moves. */
    constructor ()
      ensures Valid() && puzzle == None && moves == []
      ensures forall r, c :: OnBoard(r, c) ==> board[r][c] == 0 && marks[r][c] == []
    {
      puzzle := None;
      board := EmptyBoard();
      marks := EmptyMarks();
      moves := [];
    }

    /** `state[index]`: the values of one board row. */
    function Row(index: int): (r: seq<int>)
      reads this
      requires IsGrid(board) && 0 <= index < BoardSize
      ensures |r| == BoardSize
      ensures forall c :: 0 <= c < BoardSize ==> r[c] == board[index][c]
    {
      board[index]
    }

    /** `get_pencil_markings`: the cell's pencil list, sorted, duplicate-free, digits 1..9, at most nine. */
    function GetPencilMarkings(row: int, col: int): (m: seq<int>)
      reads this
      requires Valid() && OnBoard(row, col)
      ensures m == marks[row][col]
      ensures MarksOk(m) && |m| <= 9
    {
      MarksAtMostNine(marks[row][col]);
      marks[row][col]
    }

    /**
     * `undo_move`: with an empty log nothing happens; otherwise the top move
     * is popped and every cell of its snapshot gets back its recorded value
     * and pencil list.
     */
    method UndoMove()
      requires Valid()
      modifies this
      ensures Valid() && puzzle == old(puzzle)
      ensures old(moves) == [] ==> moves == [] && View() == old(View())
      ensures old(moves) != [] ==>
        && moves == old(moves)[..|old(moves)| - 1]
        && View() == Undo(old(View()), old(moves)[|old(moves)| - 1])
    {
      if moves == [] {
        return;
      }
      var move := moves[|moves| - 1];
      moves := moves[..|moves| - 1];
      assert forall i :: 0 <= i < |moves| ==> moves[i] == old(moves)[i];

      RestoreValues(move.prevVals);
      RestoreMarks(move.prevMarks);
      UndoKeepsGridsOk(old(View()), move);
    }

    /** The first loop of `undo_move`: every snapshot cell gets its recorded value back. */
    method RestoreValues(snap: map<Pos, int>)
      requires IsGrid(board) && forall p :: p in snap ==> OnBoard(p.0, p.1)
      modifies this
      ensures board == Restore(old(board), snap)
      ensures marks == old(marks) && moves == old(moves) && puzzle == old(puzzle)
    {
      var pending := snap.Keys;
      ghost var done: set<Pos> := {};
      while pending != {}
        invariant pending !! done && pending + done == snap.Keys
        invariant IsGrid(board) && marks == old(marks) && moves == old(moves) && puzzle == old(puzzle)
        invariant forall r, c :: OnBoard(r, c) ==>
          board[r][c] == if (r, c) in done then snap[(r, c)] else old(board)[r][c]
        decreases pending
      {
        var p :| p in pending;
        board := Update(board, p, snap[p]);
        pending := pending - {p};
        done := done + {p};
      }
      GridsEqual(board, Restore(old(board), snap));
    }

    /** The second loop of `undo_move`: every snapshot cell gets its recorded pencil list back. */
    method RestoreMarks(snap: map<Pos, seq<int>>)
      requires IsGrid(marks) && forall p :: p in snap ==> OnBoard(p.0, p.1)
      modifies this
      ensures marks == Restore(old(marks), snap)
      ensures board == old(board) && moves == old(moves) && puzzle == old(puzzle)
    {
      var pending := snap.Keys;
      ghost var done: set<Pos> := {};
      while pending != {}
        invariant pending !! done && pending + done == snap.Keys
        invariant IsGrid(marks) && board == old(board) && moves == old(moves) && puzzle == old(puzzle)
        invariant forall r, c :: OnBoard(r, c) ==>
          marks[r][c] == if (r, c) in done then snap[(r, c)] else old(marks)[r][c]
        decreases pending
      {
        var p :| p in pending;
        marks := Update(marks, p, snap[p]);
        pending := pending - {p};
        done := done + {p};
      }
      GridsEqual(marks, Restore(old(marks), snap));
    }

    /** `process_move`: apply the move to the grids, then push it onto the log. */
    method ProcessMove(move: Move)
      requires Valid() && MoveOk(move)
      modifies this
      ensures Valid() && puzzle == old(puzzle)
      ensures moves == old(moves) + [move]
      ensures View() == Apply(old(View()), move)
    {
      if move.Place? {
        HandlePlace(move);
      } else {
        HandleDelete(move);
      }
      moves := moves + [move];
    }

    /**
     * `is_value_valid`: false exactly when another peer holds the cell's
     * own value. The value 0 is not exempt: an empty cell with an empty
     * peer is reported invalid (the board view only asks about filled cells).
     */
    method IsValueValid(row: int, col: int) returns (ok: bool)
      requires IsGrid(board) && OnBoard(row, col)
      ensures ok <==> !ValueConflict(board, row, col)
    {
      var value := board[row][col];
      var neighbours := GetSudokuNeighbours(row, col);
      forall j | 0 <= j < |neighbours| ensures OnBoard(neighbours[j].0, neighbours[j].1) {
        var (r, c) := neighbours[j];
        assert (r, c) in neighbours;
      }
      for i := 0 to |neighbours|
        invariant forall j :: 0 <= j < i && neighbours[j] != (row, col) ==>
          board[neighbours[j].0][neighbours[j].1] != value
      {
        var (r, c) := neighbours[i];
        assert neighbours[i] in neighbours;
        if (r, c) == (row, col) {
          continue;
        }
        if board[r][c] == value {
          return false;
        }
      }
      forall r, c | IsPeer(row, col, r, c) && (r, c) != (row, col)
        ensures board[r][c] != value
      {
        var j :| 0 <= j < |neighbours| && neighbours[j] == (r, c);
      }
      return true;
    }

    /**
     * `is_mark_valid`: the mark must be in the cell's pencil list (asserted by
     * the source); the answer is true exactly when no peer, the cell itself
     * included, holds the mark as its value.
     */
    method IsMarkValid(mark: int, row: int, col: int) returns (ok: bool)
      requires IsGrid(board) && IsGrid(marks) && OnBoard(row, col)
      requires mark in marks[row][col]
      ensures ok <==> !MarkBlocked(board, mark, row, col)
    {
      var neighbours := GetSudokuNeighbours(row, col);
      forall j | 0 <= j < |neighbours| ensures OnBoard(neighbours[j].0, neighbours[j].1) {
        var (r, c) := neighbours[j];
        assert (r, c) in neighbours;
      }
      for i := 0 to |neighbours|
        invariant forall j :: 0 <= j < i ==> board[neighbours[j].0][neighbours[j].1] != mark
      {
        var (r, c) := neighbours[i];
        assert neighbours[i] in neighbours;
        if board[r][c] == mark {
          return false;
        }
      }
      forall r, c | IsPeer(row, col, r, c) ensures board[r][c] != mark {
        var j :| 0 <= j < |neighbours| && neighbours[j] == (r, c);
      }
      return true;
    }

    /**
     * `is_cage_valid`: sums the cage's values; a complete cage must match the
     * sum exactly, one with an empty cell must still be strictly below it.
     */
    method IsCageValid(cageSum: int, cageCells: seq<Pos>) returns (ok: bool)
      requires IsGrid(board) && AllOnBoard(cageCells)
      ensures ok == CageValid(board, cageSum, cageCells)
    {
      var currentSum := 0;
      var isComplete := true;
      for i := 0 to |cageCells|
        invariant currentSum == CellsSum(board, cageCells[..i])
        invariant isComplete == !HasEmptyCell(board, cageCells[..i])
      {
        var (row, col) := cageCells[i];
        assert cageCells[..i + 1][..i] == cageCells[..i];
        assert forall p :: p in cageCells[..i + 1] <==> p in cageCells[..i] || p == cageCells[i];
        var cellVal := board[row][col];
        currentSum := currentSum + cellVal;
        if cellVal == 0 {
          isComplete := false;
        }
      }
      assert cageCells[..|cageCells|] == cageCells;
      if isComplete {
        return currentSum == cageSum;
      }
      return currentSum < cageSum;
    }

    /**
     * `clear`: a fresh all-zero board and every pencil list emptied in place;
     * the bound puzzle and the move log are left as they were.
     */
    method Clear()
      requires Valid()
      modifies this
      ensures Valid() && puzzle == old(puzzle) && moves == old(moves)
      ensures forall r, c :: OnBoard(r, c) ==> board[r][c] == 0 && marks[r][c] == []
    {
      board := EmptyBoard();
      for row := 0 to BoardSize
        invariant IsGrid(marks) && board == EmptyBoard() && moves == old(moves) && puzzle == old(puzzle)
        invariant forall r, c :: OnBoard(r, c) ==>
          marks[r][c] == if r < row then [] else old(marks)[r][c]
      {
        for col := 0 to BoardSize
          invariant IsGrid(marks) && board == EmptyBoard() && moves == old(moves) && puzzle == old(puzzle)
          invariant forall r, c :: OnBoard(r, c) ==>
            marks[r][c] == if r < row || (r == row && c < col) then [] else old(marks)[r][c]
        {
          marks := Update(marks, (row, col), []);
        }
      }
    }

    /** `_handle_place`: the cells in list order, each toggled or overwritten. */
    method HandlePlace(place: Move)
      requires Valid() && MoveOk(place) && place.Place?
      modifies this
      ensures Valid() && puzzle == old(puzzle) && moves == old(moves)
      ensures View() == PlaceAll(old(View()), place.cells, place.value, place.isPencil)
    {
      var cells := place.cells;
      for i := 0 to |cells|
        invariant Valid() && puzzle == old(puzzle) && moves == old(moves)
        invariant View() == PlaceAll(old(View()), cells[..i], place.value, place.isPencil)
      {
        var (row, col) := cells[i];
        assert cells[i] in cells;
        assert cells[..i + 1][..i] == cells[..i];
        if place.isPencil {
          AddPencilMark(row, col, place.value);
        } else {
          board := Update(board, (row, col), place.value);
        }
      }
      assert cells[..|cells|] == cells;
    }

    /** `_handle_delete`: per cell, a non-zero value is cleared, else the pencil list is. */
    method HandleDelete(delete: Move)
      requires Valid() && MoveOk(delete) && delete.Delete?
      modifies this
      ensures Valid() && puzzle == old(puzzle) && moves == old(moves)
      ensures View() == DeleteAll(old(View()), delete.cells)
    {
      var cells := delete.cells;
      for i := 0 to |cells|
        invariant Valid() && puzzle == old(puzzle) && moves == old(moves)
        invariant View() == DeleteAll(old(View()), cells[..i])
      {
        var (row, col) := cells[i];
        assert cells[i] in cells;
        assert cells[..i + 1][..i] == cells[..i];
        DeleteOne(row, col);
      }
      assert cells[..|cells|] == cells;
    }

    /** One pass of `_handle_delete`'s loop. */
    method DeleteOne(row: int, col: int)
      requires Valid() && OnBoard(row, col)
      modifies this
      ensures Valid() && puzzle == old(puzzle) && moves == old(moves)
      ensures View() == DeleteCell(old(View()), (row, col))
    {
      var cellVal := board[row][col];
      if cellVal != 0 {
        board := Update(board, (row, col), 0);
      } else {
        marks := Update(marks, (row, col), []);
      }
    }

    /**
     * `_add_pencil_mark`: toggles `mark` in the cell's pencil list (0 is
     * ignored); the list stays sorted, duplicate-free and at most nine long.
     */
    method AddPencilMark(row: int, col: int, mark: int)
      requires Valid() && OnBoard(row, col) && 0 <= mark <= 9
      modifies this
      ensures Valid() && puzzle == old(puzzle) && moves == old(moves) && board == old(board)
      ensures marks == Update(old(marks), (row, col), Toggle(old(marks)[row][col], mark))
    {
      var markings := marks[row][col];
      if mark == 0 {
        GridsEqual(marks, Update(marks, (row, col), markings));
        return;
      }
      if mark in markings {
        markings := Remove(markings, mark);
      } else {
        markings := Insert(markings, mark);
      }
      ToggleKeepsMarksOk(marks[row][col], mark);
      assert 0 <= |markings| <= 9;
      marks := Update(marks, (row, col), markings);
    }

    /** The `puzzle` getter: the source asserts that a puzzle has been set. */
    function GetPuzzle(): (p: Puzzle)
      reads this
      requires puzzle.Some?
      ensures puzzle == Some(p)
    {
      puzzle.value
    }

    /** The `puzzle` setter: binds a puzzle and changes nothing else. */
    method SetPuzzle(newPuzzle: Puzzle)
      modifies this
      ensures puzzle == Some(newPuzzle)
      ensures board == old(board) && marks == old(marks) && moves == old(moves)
    {
      puzzle := Some(newPuzzle);
    }

    /** The `puzzle` deleter: afterwards the getter fails again. */
    method DeletePuzzle()
      modifies this
      ensures puzzle == None
      ensures board == old(board) && marks == old(marks) && moves == old(moves)
    {
      puzzle := None;
    }
  }

  /**
   * Constructing a `Place` against the current state, processing it and
   * undoing it gives back the board, the pencil lists and the log.
   */
  method PlaceThenUndo(state: KillerSudokuState, cells: seq<Pos>, value: int, isPencil: bool)
    requires state.Valid() && AllOnBoard(cells) && (isPencil ==> 0 <= value <= 9)
    modifies state
    ensures state.Valid() && state.puzzle == old(state.puzzle)
    ensures state.board == old(state.board) && state.marks == old(state.marks)
    ensures state.moves == old(state.moves)
  {
    var move := NewPlace(state.View(), cells, value, isPencil);
    state.ProcessMove(move);
    state.UndoMove();
    UndoAfterApply(old(state.View()), move);
  }

  /** The same round trip for a `Delete`. */
  method DeleteThenUndo(state: KillerSudokuState, cells: seq<Pos>)
    requires state.Valid() && AllOnBoard(cells)
    modifies state
    ensures state.Valid() && state.puzzle == old(state.puzzle)
    ensures state.board == old(state.board) && state.marks == old(state.marks)
    ensures state.moves == old(state.moves)
  {
    var move := NewDelete(state.View(), cells);
    state.ProcessMove(move);
    state.UndoMove();
    UndoAfterApply(old(state.View()), move);
  }
}
