/**
 * Moves of src/killer_sudoku_state.py as values: a `Place` or a `Delete` over
 * a list of cells, carrying the snapshot of those cells' values and pencil
 * lists taken when the move was constructed. Applying a move and undoing it
 * are given here as functions on the two grids; the class KillerSudokuState
 * (module GameState) performs them in place and is proved to agree.
 */
module Moves {
  import opened PuzzleStore
  import opened Grid
  import opened PencilMarks

  /** The two grids of the game state: board values (0 = empty) and pencil lists. */
  datatype Grids = Grids(vals: seq<seq<int>>, marks: seq<seq<seq<int>>>)

  predicate GridsShape(g: Grids) {
    IsGrid(g.vals) && IsGrid(g.marks)
  }

  /** Both grids are 9 x 9 and every pencil list is sorted, duplicate-free and within 1..9. */
  ghost predicate GridsOk(g: Grids) {
    GridsShape(g) && forall r, c :: OnBoard(r, c) ==> MarksOk(g.marks[r][c])
  }

  datatype Move =
    | Place(cells: seq<Pos>, prevVals: map<Pos, int>, prevMarks: map<Pos, seq<int>>,
            value: int, isPencil: bool)
    | Delete(cells: seq<Pos>, prevVals: map<Pos, int>, prevMarks: map<Pos, seq<int>>)

  /**
   * What the game state needs of a move it is given: board cells only, a
   * snapshot of board cells holding valid pencil lists, and a pencil digit
   * 0..9 (the source asserts that a pencil list never exceeds nine marks).
   */
  predicate MoveOk(m: Move) {
    && AllOnBoard(m.cells)
    && (forall p :: p in m.prevVals ==> OnBoard(p.0, p.1))
    && (forall p :: p in m.prevMarks ==> OnBoard(p.0, p.1) && MarksOk(m.prevMarks[p]))
    && (m.Place? && m.isPencil ==> 0 <= m.value <= 9)
  }

  /** `m` holds, for exactly the cells it affects, their values and pencil lists in `g`. */
  predicate SnapshotOf(m: Move, g: Grids)
    requires GridsShape(g)
  {
    && AllOnBoard(m.cells)
    && m.prevVals.Keys == Elements(m.cells)
    && m.prevMarks.Keys == Elements(m.cells)
    && forall p :: p in Elements(m.cells) ==>
         m.prevVals[p] == g.vals[p.0][p.1] && m.prevMarks[p] == g.marks[p.0][p.1]
  }

  /** `Move.__init__`: the dictionaries of prior values and (copied) prior pencil lists. */
  function Snapshot(g: Grids, cells: seq<Pos>): (s: (map<Pos, int>, map<Pos, seq<int>>))
    requires GridsShape(g) && AllOnBoard(cells)
    ensures SnapshotOf(Delete(cells, s.0, s.1), g)
  {
    (map p | p in cells :: g.vals[p.0][p.1], map p | p in cells :: g.marks[p.0][p.1])
  }

  /** `Place(affected_cells, state, value, is_pencil)`. */
  function NewPlace(g: Grids, cells: seq<Pos>, value: int, isPencil: bool): (m: Move)
    requires GridsShape(g) && AllOnBoard(cells)
    ensures m.Place? && m.cells == cells && m.value == value && m.isPencil == isPencil
    ensures SnapshotOf(m, g)
    ensures GridsOk(g) && (isPencil ==> 0 <= value <= 9) ==> MoveOk(m)
  {
    var s := Snapshot(g, cells);
    Place(cells, s.0, s.1, value, isPencil)
  }

  /** `Delete(affected_cells, state)`. */
  function NewDelete(g: Grids, cells: seq<Pos>): (m: Move)
    requires GridsShape(g) && AllOnBoard(cells)
    ensures m.Delete? && m.cells == cells
    ensures SnapshotOf(m, g)
    ensures GridsOk(g) ==> MoveOk(m)
  {
    var s := Snapshot(g, cells);
    Delete(cells, s.0, s.1)
  }

  /**
   * One step of `_handle_place`: a pencil step toggles the mark in the
   * cell's list and keeps the board, a value step overwrites the cell's value
   * and keeps the pencil lists; no other cell changes.
   */
  function PlaceCell(g: Grids, p: Pos, value: int, isPencil: bool): (r: Grids)
    requires GridsShape(g) && OnBoard(p.0, p.1)
    ensures GridsShape(r)
    ensures isPencil ==> r.vals == g.vals && r.marks[p.0][p.1] == Toggle(g.marks[p.0][p.1], value)
    ensures !isPencil ==> r.marks == g.marks && r.vals[p.0][p.1] == value
    ensures forall row, col :: OnBoard(row, col) && (row, col) != p ==>
      r.vals[row][col] == g.vals[row][col] && r.marks[row][col] == g.marks[row][col]
  {
    if isPencil then Grids(g.vals, Update(g.marks, p, Toggle(g.marks[p.0][p.1], value)))
    else Grids(Update(g.vals, p, value), g.marks)
  }

  /**
   * `_handle_place`, one step per listed cell in list order: a pencil place
   * keeps the whole board, a value place keeps every pencil list (the
   * per-cell effect is PlaceValueAt and PencilMarksAt).
   */
  function PlaceAll(g: Grids, cells: seq<Pos>, value: int, isPencil: bool): (r: Grids)
    requires GridsShape(g) && AllOnBoard(cells)
    ensures GridsShape(r)
    ensures isPencil ==> r.vals == g.vals
    ensures !isPencil ==> r.marks == g.marks
    decreases |cells|
  {
    if cells == [] then g
    else PlaceCell(PlaceAll(g, cells[..|cells| - 1], value, isPencil), cells[|cells| - 1], value, isPencil)
  }

  /**
   * One step of `_handle_delete`: the cell ends empty; a filled cell keeps
   * its pencil list, an empty one loses it; no other cell changes.
   */
  function DeleteCell(g: Grids, p: Pos): (r: Grids)
    requires GridsShape(g) && OnBoard(p.0, p.1)
    ensures GridsShape(r)
    ensures r.vals[p.0][p.1] == 0
    ensures r.marks[p.0][p.1] == if g.vals[p.0][p.1] != 0 then g.marks[p.0][p.1] else []
    ensures forall row, col :: OnBoard(row, col) && (row, col) != p ==>
      r.vals[row][col] == g.vals[row][col] && r.marks[row][col] == g.marks[row][col]
  {
    if g.vals[p.0][p.1] != 0 then Grids(Update(g.vals, p, 0), g.marks)
    else Grids(g.vals, Update(g.marks, p, []))
  }

  /**
   * `_handle_delete`, one step per listed cell in list order: every listed
   * cell ends empty (the per-cell effect, pencil lists included, is
   * DeleteAllAt).
   */
  function DeleteAll(g: Grids, cells: seq<Pos>): (r: Grids)
    requires GridsShape(g) && AllOnBoard(cells)
    ensures GridsShape(r)
    ensures forall i :: 0 <= i < |cells| ==> r.vals[cells[i].0][cells[i].1] == 0
    decreases |cells|
  {
    if cells == [] then g
    else
      var init := cells[..|cells| - 1];
      var prev := DeleteAll(g, init);
      var r := DeleteCell(prev, cells[|cells| - 1]);
      assert forall i :: 0 <= i < |init| ==> init[i] == cells[i];
      r
  }

  /**
   * `process_move` on the grids, dispatching on the kind of move: a pencil
   * `Place` changes only pencil lists, a value `Place` only values, and a
   * `Delete` leaves every listed cell empty.
   */
  function Apply(g: Grids, m: Move): (r: Grids)
    requires GridsShape(g) && AllOnBoard(m.cells)
    ensures GridsShape(r)
    ensures m.Place? && m.isPencil ==> r.vals == g.vals
    ensures m.Place? && !m.isPencil ==> r.marks == g.marks
    ensures m.Delete? ==> forall i :: 0 <= i < |m.cells| ==> r.vals[m.cells[i].0][m.cells[i].1] == 0
  {
    match m
    case Place(cells, _, _, value, isPencil) => PlaceAll(g, cells, value, isPencil)
    case Delete(cells, _, _) => DeleteAll(g, cells)
  }

  /** Every cell named in `snap` takes its snapshot content, every other cell keeps its own. */
  function Restore<T>(g: seq<seq<T>>, snap: map<Pos, T>): (r: seq<seq<T>>)
    requires IsGrid(g)
    ensures IsGrid(r)
    ensures forall row, col :: OnBoard(row, col) ==>
      r[row][col] == if (row, col) in snap then snap[(row, col)] else g[row][col]
  {
    seq(BoardSize, row requires 0 <= row < BoardSize =>
      seq(BoardSize, col requires 0 <= col < BoardSize =>
        if (row, col) in snap then snap[(row, col)] else g[row][col]))
  }

  /**
   * `undo_move` on the grids, for the move it pops: every cell in the move's
   * snapshot takes back its recorded value and pencil list, and every other
   * cell keeps its own.
   */
  function Undo(g: Grids, m: Move): (r: Grids)
    requires GridsShape(g)
    ensures GridsShape(r)
    ensures forall row, col :: OnBoard(row, col) ==>
      && r.vals[row][col] == (if (row, col) in m.prevVals then m.prevVals[(row, col)] else g.vals[row][col])
      && r.marks[row][col] == (if (row, col) in m.prevMarks then m.prevMarks[(row, col)] else g.marks[row][col])
  {
    Grids(Restore(g.vals, m.prevVals), Restore(g.marks, m.prevMarks))
  }

  lemma MultisetSnoc(s: seq<Pos>, p: Pos)
    requires s != []
    ensures multiset(s)[p] == multiset(s[..|s| - 1])[p] + (if s[|s| - 1] == p then 1 else 0)
  {
    assert s == s[..|s| - 1] + [s[|s| - 1]];
  }

  /**
   * The effect of a value `Place` on one cell: a listed cell takes the value
   * whatever it held before, an unlisted one keeps its value, and no pencil
   * list changes.
   */
  lemma {:induction false} PlaceValueAt(g: Grids, cells: seq<Pos>, value: int, row: int, col: int)
    requires GridsShape(g) && AllOnBoard(cells) && OnBoard(row, col)
    ensures var r := PlaceAll(g, cells, value, false);
      && r.marks[row][col] == g.marks[row][col]
      && r.vals[row][col] == if (row, col) in cells then value else g.vals[row][col]
    decreases |cells|
  {
    if cells != [] {
      var init := cells[..|cells| - 1];
      PlaceValueAt(g, init, value, row, col);
      assert cells == init + [cells[|cells| - 1]];
    }
  }

  /**
   * The effect of a pencil `Place` on one cell: the mark is toggled once per
   * listing of the cell, so a cell listed an odd number of times ends
   * toggled and one listed an even number of times (or not at all) ends
   * where it started.
   */
  lemma {:induction false} PencilMarksAt(g: Grids, cells: seq<Pos>, value: int, row: int, col: int)
    requires GridsShape(g) && AllOnBoard(cells) && OnBoard(row, col)
    requires StrictlySorted(g.marks[row][col])
    ensures PlaceAll(g, cells, value, true).marks[row][col] ==
      ToggledIfOdd(g.marks[row][col], value, multiset(cells)[(row, col)])
    decreases |cells|
  {
    if cells != [] {
      var init := cells[..|cells| - 1];
      PencilMarksAt(g, init, value, row, col);
      MultisetSnoc(cells, (row, col));
      PencilLastStep(g.marks[row][col], PlaceAll(g, init, value, true), cells[|cells| - 1], value, row, col,
        multiset(init)[(row, col)]);
    }
  }

  /** The last listing of a pencil place toggles the cell once more, or leaves it alone. */
  lemma PencilLastStep(m: seq<int>, prev: Grids, last: Pos, value: int, row: int, col: int, k: nat)
    requires GridsShape(prev) && OnBoard(last.0, last.1) && OnBoard(row, col)
    requires StrictlySorted(m) && prev.marks[row][col] == ToggledIfOdd(m, value, k)
    ensures PlaceCell(prev, last, value, true).marks[row][col] ==
      ToggledIfOdd(m, value, k + if last == (row, col) then 1 else 0)
  {
    if last == (row, col) {
      ToggledIfOddStep(m, value, k);
    }
  }

  /** `m` toggled by `mark` when `k` is odd, `m` itself when `k` is even. */
  function ToggledIfOdd(m: seq<int>, mark: int, k: nat): seq<int> {
    if k % 2 == 1 then Toggle(m, mark) else m
  }

  lemma ToggledIfOddStep(m: seq<int>, mark: int, k: nat)
    requires StrictlySorted(m)
    ensures Toggle(ToggledIfOdd(m, mark, k), mark) == ToggledIfOdd(m, mark, k + 1)
  {
    if k % 2 == 1 {
      ToggleTwice(m, mark);
    }
  }

  /**
   * The effect of a `Delete` on one cell listed k times: with k = 0 nothing
   * changes; otherwise the value ends at 0, and the pencil list survives only
   * when the cell held a value and is listed once (the first pass clears the
   * value, any later pass finds the cell empty and clears its marks).
   */
  lemma {:induction false} DeleteAllAt(g: Grids, cells: seq<Pos>, row: int, col: int)
    requires GridsShape(g) && AllOnBoard(cells) && OnBoard(row, col)
    ensures var r := DeleteAll(g, cells);
      var k := multiset(cells)[(row, col)];
      && r.vals[row][col] == (if k == 0 then g.vals[row][col] else 0)
      && r.marks[row][col] ==
           if k == 0 || (k == 1 && g.vals[row][col] != 0) then g.marks[row][col] else []
    decreases |cells|
  {
    if cells != [] {
      var init := cells[..|cells| - 1];
      DeleteAllAt(g, init, row, col);
      MultisetSnoc(cells, (row, col));
    }
  }

  /** A move changes nothing outside the cells it lists. */
  lemma ApplyOutsideCells(g: Grids, m: Move, row: int, col: int)
    requires GridsShape(g) && AllOnBoard(m.cells) && OnBoard(row, col)
    requires (row, col) !in m.cells
    ensures Apply(g, m).vals[row][col] == g.vals[row][col]
    ensures Apply(g, m).marks[row][col] == g.marks[row][col]
  {
    assert multiset(m.cells)[(row, col)] == 0;
    match m
    case Place(cells, _, _, value, isPencil) =>
      if isPencil {
        PlaceTogglesOnlyListed(g, cells, value, row, col);
        PlaceKeepsValuesWhenPencil(g, cells, value, row, col);
      } else {
        PlaceValueAt(g, cells, value, row, col);
      }
    case Delete(cells, _, _) =>
      DeleteAllAt(g, cells, row, col);
  }

  /** A pencil place never changes a board value. */
  lemma {:induction false} PlaceKeepsValuesWhenPencil(g: Grids, cells: seq<Pos>, value: int, row: int, col: int)
    requires GridsShape(g) && AllOnBoard(cells) && OnBoard(row, col)
    ensures PlaceAll(g, cells, value, true).vals[row][col] == g.vals[row][col]
    decreases |cells|
  {
    if cells != [] {
      PlaceKeepsValuesWhenPencil(g, cells[..|cells| - 1], value, row, col);
    }
  }

  /** A pencil place leaves the pencil list of an unlisted cell alone. */
  lemma {:induction false} PlaceTogglesOnlyListed(g: Grids, cells: seq<Pos>, value: int, row: int, col: int)
    requires GridsShape(g) && AllOnBoard(cells) && OnBoard(row, col)
    requires (row, col) !in cells
    ensures PlaceAll(g, cells, value, true).marks[row][col] == g.marks[row][col]
    decreases |cells|
  {
    if cells != [] {
      var init := cells[..|cells| - 1];
      assert (row, col) !in init;
      PlaceTogglesOnlyListed(g, init, value, row, col);
    }
  }

  /** Applying a well-formed move keeps every pencil list valid. */
  lemma ApplyKeepsGridsOk(g: Grids, m: Move)
    requires GridsOk(g) && MoveOk(m)
    ensures GridsOk(Apply(g, m))
  {
    var r := Apply(g, m);
    forall row, col | OnBoard(row, col) ensures MarksOk(r.marks[row][col]) {
      match m
      case Place(cells, _, _, value, isPencil) =>
        if isPencil {
          PencilMarksAt(g, cells, value, row, col);
          ToggleKeepsMarksOk(g.marks[row][col], value);
        } else {
          PlaceValueAt(g, cells, value, row, col);
        }
      case Delete(cells, _, _) =>
        DeleteAllAt(g, cells, row, col);
    }
  }

  /** Undoing a well-formed move keeps every pencil list valid. */
  lemma UndoKeepsGridsOk(g: Grids, m: Move)
    requires GridsOk(g) && MoveOk(m)
    ensures GridsOk(Undo(g, m))
  {
  }

  /**
   * Apply followed by undo is the identity: a move applied to the grids its
   * snapshot was taken from, and then undone, gives those grids back.
   */
  lemma UndoAfterApply(g: Grids, m: Move)
    requires GridsOk(g) && SnapshotOf(m, g)
    ensures Undo(Apply(g, m), m) == g
  {
    var a := Apply(g, m);
    var u := Undo(a, m);
    forall row, col | OnBoard(row, col)
      ensures u.vals[row][col] == g.vals[row][col] && u.marks[row][col] == g.marks[row][col]
    {
      if (row, col) in m.cells {
        assert (row, col) in Elements(m.cells);
      } else {
        assert (row, col) !in Elements(m.cells);
        ApplyOutsideCells(g, m, row, col);
      }
    }
    GridsEqual(u.vals, g.vals);
    GridsEqual(u.marks, g.marks);
  }

  /** Toggling the same pencil mark over the same cells twice restores every pencil list. */
  lemma PencilPlaceTwice(g: Grids, cells: seq<Pos>, value: int)
    requires GridsOk(g) && AllOnBoard(cells)
    ensures PlaceAll(PlaceAll(g, cells, value, true), cells, value, true) == g
  {
    var once := PlaceAll(g, cells, value, true);
    var twice := PlaceAll(once, cells, value, true);
    forall row, col | OnBoard(row, col)
      ensures twice.vals[row][col] == g.vals[row][col] && twice.marks[row][col] == g.marks[row][col]
    {
      var m := g.marks[row][col];
      PencilMarksAt(g, cells, value, row, col);
      PlaceKeepsValuesWhenPencil(g, cells, value, row, col);
      ToggleMembership(m, value);
      assert StrictlySorted(once.marks[row][col]);
      PencilMarksAt(once, cells, value, row, col);
      PlaceKeepsValuesWhenPencil(once, cells, value, row, col);
      ToggleTwice(m, value);
    }
    GridsEqual(twice.vals, g.vals);
    GridsEqual(twice.marks, g.marks);
  }
}
