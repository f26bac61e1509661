/**
 * The grid logic of the board view (src/gui_board.py): the four step
 * directions, the cell selection and the sum it shows, selecting every cell
 * that holds the same digit, and the in-board neighbours of a cell that the
 * cage outlines are drawn from. Cells are identified by their `(row, col)`.
 */
module GuiBoard {
  import opened Wrappers
  import opened PuzzleStore
  import opened Grid
  import opened GameState

  datatype Direction = Up | Down | Left | Right {
    /** `Direction.get`: the `(row, col)` step to the adjacent cell. */
    function Get(): (offset: Pos)
      ensures (offset.0 == 0) != (offset.1 == 0)
      ensures -1 <= offset.0 <= 1 && -1 <= offset.1 <= 1
    {
      match this
      case Up => (-1, 0)
      case Down => (1, 0)
      case Left => (0, -1)
      case Right => (0, 1)
    }
  }

  const AllDirections: set<Direction> := {Up, Down, Left, Right}

  /** Different directions step to different cells, and Up/Down and Left/Right cancel. */
  lemma DirectionSteps()
    ensures forall d: Direction, e: Direction :: d.Get() == e.Get() ==> d == e
    ensures Up.Get().0 == -Down.Get().0 && Up.Get().1 == Down.Get().1
    ensures Left.Get().1 == -Right.Get().1 && Left.Get().0 == Right.Get().0
  {
    forall d: Direction, e: Direction | d.Get() == e.Get() ensures d == e {
      match d
      case Up =>
      case Down =>
      case Left =>
      case Right =>
    }
  }

  /** The cell one step from `(row, col)` in direction `d`. */
  function Step(row: int, col: int, d: Direction): Pos {
    (row + d.Get().0, col + d.Get().1)
  }

  /**
   * `_get_neighbours`: the directions in which an on-board cell has an
   * on-board neighbour; none for an off-board cell (per side, see
   * InBoardDirectionsMembers; how many, NeighbourCount).
   */
  function InBoardDirections(row: int, col: int): (r: set<Direction>)
    ensures r <= AllDirections
    ensures forall d :: d in r ==> OnBoard(row, col) && OnBoard(Step(row, col, d).0, Step(row, col, d).1)
  {
    if !OnBoard(row, col) then {}
    else set d | d in AllDirections && OnBoard(Step(row, col, d).0, Step(row, col, d).1)
  }

  /** An on-board cell has a neighbour above unless in the top row, and so on for each side. */
  lemma InBoardDirectionsMembers(row: int, col: int)
    requires OnBoard(row, col)
    ensures Up in InBoardDirections(row, col) <==> row > 0
    ensures Down in InBoardDirections(row, col) <==> row < BoardSize - 1
    ensures Left in InBoardDirections(row, col) <==> col > 0
    ensures Right in InBoardDirections(row, col) <==> col < BoardSize - 1
    ensures InBoardDirections(row, col) <= AllDirections
  {
  }

  /** `{d}` when `b` holds, otherwise nothing. */
  function Only(b: bool, d: Direction): set<Direction> {
    if b then {d} else {}
  }

  function Count(b: bool): int {
    if b then 1 else 0
  }

  lemma TwoSidesCard(a: bool, b: bool, da: Direction, db: Direction)
    requires da != db
    ensures |Only(a, da) + Only(b, db)| == Count(a) + Count(b)
  {
    if a && b {
      assert Only(a, da) + Only(b, db) == {da, db};
    } else if a {
      assert Only(a, da) + Only(b, db) == {da};
    } else if b {
      assert Only(a, da) + Only(b, db) == {db};
    } else {
      assert Only(a, da) + Only(b, db) == {};
    }
  }

  lemma {:induction false} DisjointCard(x: set<Direction>, y: set<Direction>)
    requires x !! y
    ensures |x + y| == |x| + |y|
  {
    if x != {} {
      var e :| e in x;
      DisjointCard(x - {e}, y);
      assert (x - {e}) + y == (x + y) - {e};
    }
  }

  lemma FourSidesCard(up: bool, down: bool, left: bool, right: bool)
    ensures |Only(up, Up) + Only(down, Down) + (Only(left, Left) + Only(right, Right))| ==
      Count(up) + Count(down) + Count(left) + Count(right)
  {
    TwoSidesCard(up, down, Up, Down);
    TwoSidesCard(left, right, Left, Right);
    DisjointCard(Only(up, Up) + Only(down, Down), Only(left, Left) + Only(right, Right));
  }

  /** The in-board directions of an on-board cell, side by side. */
  lemma InBoardSides(row: int, col: int)
    requires OnBoard(row, col)
    ensures InBoardDirections(row, col) ==
      Only(row > 0, Up) + Only(row < BoardSize - 1, Down) + (Only(col > 0, Left) + Only(col < BoardSize - 1, Right))
  {
    var sides := Only(row > 0, Up) + Only(row < BoardSize - 1, Down) + (Only(col > 0, Left) + Only(col < BoardSize - 1, Right));
    InBoardDirectionsMembers(row, col);
    forall d | d in InBoardDirections(row, col) ensures d in sides {
      assert d in AllDirections;
    }
  }

  /** Corner cells have two neighbours, other border cells three, inner cells four. */
  lemma NeighbourCount(row: int, col: int)
    requires OnBoard(row, col)
    ensures |InBoardDirections(row, col)| ==
      4 - (if row == 0 then 1 else 0) - (if row == BoardSize - 1 then 1 else 0)
        - (if col == 0 then 1 else 0) - (if col == BoardSize - 1 then 1 else 0)
  {
    InBoardSides(row, col);
    FourSidesCard(row > 0, row < BoardSize - 1, col > 0, col < BoardSize - 1);
  }

  /** A sum over a set of board cells, in no particular order. */
  ghost function SetSum(board: seq<seq<int>>, cells: set<Pos>): int
    requires IsGrid(board) && forall p :: p in cells ==> OnBoard(p.0, p.1)
    decreases cells
  {
    if cells == {} then 0
    else
      var p :| p in cells;
      assert OnBoard(p.0, p.1);
      board[p.0][p.1] + SetSum(board, cells - {p})
  }

  /** Any element can be taken out of the set sum first. */
  lemma {:induction false} SetSumRemove(board: seq<seq<int>>, cells: set<Pos>, q: Pos)
    requires IsGrid(board) && forall p :: p in cells ==> OnBoard(p.0, p.1)
    requires q in cells
    ensures SetSum(board, cells) == board[q.0][q.1] + SetSum(board, cells - {q})
    decreases cells
  {
    var p :| p in cells && SetSum(board, cells) == board[p.0][p.1] + SetSum(board, cells - {p});
    if p != q {
      SetSumRemove(board, cells - {p}, q);
      SetSumRemove(board, cells - {q}, p);
      assert cells - {p} - {q} == cells - {q} - {p};
    }
  }

  /**
   * The cage test of `get_selection_sum`: the remaining selection meets the
   * cage's cells in as many cells as the cage lists.
   */
  predicate Covered(rem: set<Pos>, cells: seq<Pos>) {
    |rem * Elements(cells)| == |cells|
  }

  lemma DistinctSnoc(init: seq<Pos>, last: Pos)
    ensures Distinct(init + [last]) <==> Distinct(init) && last !in init
  {
    var s := init + [last];
    if Distinct(init) && last !in init {
      forall i, j | 0 <= i < j < |s| ensures s[i] != s[j] {
        if j == |init| {
          assert s[i] == init[i];
        } else {
          assert s[i] == init[i] && s[j] == init[j];
        }
      }
    }
    if Distinct(s) {
      forall i, j | 0 <= i < j < |init| ensures init[i] != init[j] {
        assert s[i] == init[i] && s[j] == init[j];
      }
      forall k | 0 <= k < |init| ensures init[k] != last {
        assert s[k] == init[k] && s[|init|] == last;
      }
    }
  }

  /** A list has at least as many entries as distinct elements, and as many exactly when it has no repeats. */
  lemma {:induction false} ElementsCard(s: seq<Pos>)
    ensures |Elements(s)| <= |s|
    ensures |Elements(s)| == |s| <==> Distinct(s)
  {
    if s != [] {
      var init := s[..|s| - 1];
      var last := s[|s| - 1];
      ElementsCard(init);
      assert s == init + [last];
      DistinctSnoc(init, last);
      assert Elements(s) == Elements(init) + {last};
      if last in init {
        assert last in Elements(init);
      }
    }
  }

  /** A cage counts exactly when its cells are listed once each and all still selected. */
  lemma CoveredMeans(rem: set<Pos>, cells: seq<Pos>)
    ensures Covered(rem, cells) <==> Distinct(cells) && Elements(cells) <= rem
  {
    var e := Elements(cells);
    ElementsCard(cells);
    assert rem * e <= e;
    if |rem * e| == |e| {
      assert |e - rem * e| == |e| - |rem * e|;
      assert e - rem * e == {};
      assert e <= rem;
    }
    if e <= rem {
      assert rem * e == e;
    }
  }

  /**
   * The first loop of `get_selection_sum`, over the puzzle's cages in order:
   * the declared sums of the cages the remaining selection covers, and the
   * selection left once their cells are taken out.
   */
  function CoverCages(cages: seq<Cage>, selected: set<Pos>): (r: (int, set<Pos>))
    ensures r.1 <= selected
  {
    if cages == [] then (0, selected)
    else
      var prev := CoverCages(cages[..|cages| - 1], selected);
      var cage := cages[|cages| - 1];
      if Covered(prev.1, cage.cells) then (prev.0 + cage.sum, prev.1 - Elements(cage.cells))
      else prev
  }

  /** One more cage of the loop over `cages`. */
  lemma CoverCagesStep(cages: seq<Cage>, selected: set<Pos>, i: int)
    requires 0 <= i < |cages|
    ensures var prev := CoverCages(cages[..i], selected);
      CoverCages(cages[..i + 1], selected) ==
        if Covered(prev.1, cages[i].cells) then (prev.0 + cages[i].sum, prev.1 - Elements(cages[i].cells))
        else prev
  {
    assert cages[..i + 1][..i] == cages[..i];
  }

  /** Only cells of some cage leave the selection, so a selected cell in no cage is always summed as a cell. */
  lemma {:induction false} CoverRemovesCageCells(cages: seq<Cage>, selected: set<Pos>, p: Pos)
    requires p in selected && p !in CoverCages(cages, selected).1
    ensures exists i :: 0 <= i < |cages| && p in cages[i].cells
    decreases |cages|
  {
    var init := cages[..|cages| - 1];
    var cage := cages[|cages| - 1];
    if p in CoverCages(init, selected).1 {
      assert p in cage.cells;
    } else {
      CoverRemovesCageCells(init, selected, p);
      var i :| 0 <= i < |init| && p in init[i].cells;
      assert init[i] == cages[i];
    }
  }

  /** `p` is listed in none of the cages. */
  predicate InNoCage(cages: seq<Cage>, p: Pos) {
    forall i :: 0 <= i < |cages| ==> p !in cages[i].cells
  }

  /** A selected cell that no cage lists is still selected after the cage loop. */
  lemma UncagedStay(cages: seq<Cage>, selected: set<Pos>)
    ensures forall p :: p in selected && InNoCage(cages, p) ==> p in CoverCages(cages, selected).1
  {
    forall p | p in selected && InNoCage(cages, p) ensures p in CoverCages(cages, selected).1 {
      if p !in CoverCages(cages, selected).1 {
        CoverRemovesCageCells(cages, selected, p);
      }
    }
  }

  /**
   * What `get_selection_sum` shows: 0 for no selection; otherwise the sums of
   * the covered cages plus the values of the other selected cells, or 0 as
   * soon as one of those other cells is empty.
   */
  ghost function SelectionSum(board: seq<seq<int>>, cages: seq<Cage>, selected: set<Pos>): (r: int)
    requires IsGrid(board) && forall p :: p in selected ==> OnBoard(p.0, p.1)
    ensures (exists p :: p in selected && OnBoard(p.0, p.1) && board[p.0][p.1] == 0 && InNoCage(cages, p)) ==> r == 0
  {
    if selected == {} then 0
    else
      var (cageTotal, rem) := CoverCages(cages, selected);
      UncagedStay(cages, selected);
      if exists p :: p in rem && OnBoard(p.0, p.1) && board[p.0][p.1] == 0 then 0
      else cageTotal + SetSum(board, rem)
  }

  /** A selection that covers no cage whole is summed cell by cell. */
  lemma {:induction false} NoCageCovered(board: seq<seq<int>>, cages: seq<Cage>, selected: set<Pos>)
    requires IsGrid(board) && forall p :: p in selected ==> OnBoard(p.0, p.1)
    requires forall i :: 0 <= i < |cages| ==> !(Elements(cages[i].cells) <= selected)
    ensures CoverCages(cages, selected) == (0, selected)
    decreases |cages|
  {
    if cages != [] {
      var init := cages[..|cages| - 1];
      assert forall i :: 0 <= i < |init| ==> init[i] == cages[i];
      NoCageCovered(board, init, selected);
      CoveredMeans(selected, cages[|cages| - 1].cells);
    }
  }

  /** A selection that is exactly one cage's cells, listed once each, shows that cage's sum. */
  lemma OneCageSelected(board: seq<seq<int>>, cage: Cage)
    requires IsGrid(board) && AllOnBoard(cage.cells) && Distinct(cage.cells) && cage.cells != []
    ensures SelectionSum(board, [cage], Elements(cage.cells)) == cage.sum
  {
    var selected := Elements(cage.cells);
    assert cage.cells[0] in selected;
    CoveredMeans(selected, cage.cells);
    assert [cage][..0] == [];
    assert CoverCages([], selected) == (0, selected);
    assert Covered(selected, cage.cells);
    assert selected - Elements(cage.cells) == {};
    assert CoverCages([cage], selected) == (cage.sum, {});
  }

  class Selection {
    var selected: set<Pos>
    var selecting: bool

    /** An empty selection, not being dragged. */
    constructor ()
      ensures selected == {} && !selecting
    {
      selected := {};
      selecting := false;
    }

    /** `add_cell`: the selection gains the cell; adding a selected cell changes nothing. */
    method AddCell(cell: Pos)
      modifies this
      ensures selected == old(selected) + {cell}
      ensures selecting == old(selecting)
    {
      if cell in selected {
        return;
      }
      selected := selected + {cell};
    }

    /** `get_single_selection`: the selected cell when exactly one is selected, otherwise nothing. */
    function GetSingleSelection(): (single: Option<Pos>)
      reads this
      ensures single.Some? <==> |selected| == 1
      ensures single.Some? ==> single.value in selected && selected == {single.value}
    {
      if |selected| != 1 then None
      else
        SingletonElement(selected);
        var p :| p in selected;
        Some(p)
    }

    /** `clear`: nothing selected afterwards. */
    method Clear()
      modifies this
      ensures selected == {} && selecting == old(selecting)
    {
      selected := {};
    }

    /**
     * `get_selection_sum`: the cages wholly covered by the selection add
     * their declared sums, the remaining selected cells add their values,
     * and any empty one among those makes the answer 0.
     */
    method GetSelectionSum(state: KillerSudokuState) returns (total: int)
      requires IsGrid(state.board) && forall p :: p in selected ==> OnBoard(p.0, p.1)
      requires selected != {} ==> state.puzzle.Some?
      ensures selected == {} ==> total == 0
      ensures selected != {} ==> total == SelectionSum(state.board, state.puzzle.value.cages, selected)
    {
      total := 0;
      if |selected| == 0 {
        return total;
      }
      var cageTotal, rest := SumCoveredCages(state.GetPuzzle().cages, selected);
      total := AddCellValues(state.board, rest, cageTotal);
    }
  }

  /**
   * The first loop of `get_selection_sum`: each cage in turn that the
   * remaining selection covers adds its declared sum and gives up its cells.
   */
  method SumCoveredCages(cages: seq<Cage>, selected: set<Pos>) returns (total: int, rest: set<Pos>)
    ensures (total, rest) == CoverCages(cages, selected)
  {
    total := 0;
    rest := selected;
    for i := 0 to |cages|
      invariant total == CoverCages(cages[..i], selected).0
      invariant rest == CoverCages(cages[..i], selected).1
    {
      CoverCagesStep(cages, selected, i);
      var cage := cages[i];
      if |rest * Elements(cage.cells)| == |cage.cells| {
        total := total + cage.sum;
        rest := rest - Elements(cage.cells);
      }
    }
    assert cages[..|cages|] == cages;
  }

  /**
   * The second loop of `get_selection_sum`: the values of the remaining
   * cells are added to `cageTotal`, and an empty cell among them makes the
   * whole answer 0.
   */
  method AddCellValues(board: seq<seq<int>>, cells: set<Pos>, cageTotal: int) returns (total: int)
    requires IsGrid(board) && forall p :: p in cells ==> OnBoard(p.0, p.1)
    ensures total == if exists p :: p in cells && OnBoard(p.0, p.1) && board[p.0][p.1] == 0 then 0
      else cageTotal + SetSum(board, cells)
  {
    total := cageTotal;
    var pending := cells;
    while pending != {}
      invariant pending <= cells
      invariant forall p :: p in cells - pending ==> board[p.0][p.1] != 0
      invariant total == cageTotal + SetSum(board, cells - pending)
      decreases pending
    {
      var p :| p in pending;
      var cellVal := board[p.0][p.1];
      if cellVal == 0 {
        assert p in cells && OnBoard(p.0, p.1) && board[p.0][p.1] == 0;
        return 0;
      }
      ghost var done := cells - pending;
      assert cells - (pending - {p}) == done + {p};
      SetSumRemove(board, done + {p}, p);
      assert done + {p} - {p} == done;
      total := total + cellVal;
      pending := pending - {p};
    }
    assert cells - pending == cells;
  }

  /** A set of size one holds a single element. */
  lemma SingletonElement(s: set<Pos>)
    requires |s| == 1
    ensures forall p, q :: p in s && q in s ==> p == q
    ensures exists p :: s == {p}
  {
    var x :| x in s;
    assert |s - {x}| == 0;
    assert s == {x};
  }

  class BoardGui {
    const state: KillerSudokuState
    const selection: Selection

    /** The board view over a game state, with nothing selected. */
    constructor (state: KillerSudokuState)
      ensures this.state == state && fresh(selection)
      ensures selection.selected == {} && !selection.selecting
    {
      this.state := state;
      selection := new Selection();
    }

    /**
     * `_select_equal_values`: when exactly one cell is selected and it holds
     * a digit, the selection becomes every cell that holds that digit;
     * otherwise nothing changes.
     */
    method SelectEqualValues()
      requires IsGrid(state.board)
      requires forall p :: p in selection.selected ==> OnBoard(p.0, p.1)
      modifies selection
      ensures selection.selecting == old(selection.selecting)
      ensures var single := old(selection.GetSingleSelection());
        if single.Some? && OnBoard(single.value.0, single.value.1) && state.board[single.value.0][single.value.1] != 0 then
          forall p :: p in selection.selected <==>
            OnBoard(p.0, p.1) && state.board[p.0][p.1] == state.board[single.value.0][single.value.1]
        else
          selection.selected == old(selection.selected)
    {
      var selected := selection.GetSingleSelection();
      if selected.None? {
        return;
      }
      var (row, col) := selected.value;
      assert selected.value in selection.selected;
      var selectedVal := state.Row(row)[col];
      if selectedVal == 0 {
        return;
      }
      selection.Clear();
      for r := 0 to BoardSize
        invariant selection.selecting == old(selection.selecting)
        invariant forall p :: p in selection.selected <==>
          OnBoard(p.0, p.1) && p.0 < r && state.board[p.0][p.1] == selectedVal
      {
        for c := 0 to BoardSize
          invariant selection.selecting == old(selection.selecting)
          invariant forall p :: p in selection.selected <==>
            OnBoard(p.0, p.1) && (p.0 < r || (p.0 == r && p.1 < c)) && state.board[p.0][p.1] == selectedVal
        {
          if state.Row(r)[c] == selectedVal {
            selection.AddCell((r, c));
          }
        }
      }
    }

    /** `_get_neighbours`: the directions in which the adjacent cell is on the board. */
    method GetNeighbours(row: int, col: int) returns (neighbours: set<Direction>)
      ensures neighbours == InBoardDirections(row, col)
    {
      neighbours := {};
      if row >= BoardSize || row < 0 {
        return neighbours;
      }
      if col >= BoardSize || col < 0 {
        return neighbours;
      }
      var order := [Down, Up, Right, Left];
      for i := 0 to |order|
        invariant neighbours == set d | d in order[..i] && OnBoard(Step(row, col, d).0, Step(row, col, d).1)
      {
        var direction := order[i];
        var index := Step(row, col, direction);
        assert order[..i + 1] == order[..i] + [direction];
        if index.0 >= BoardSize || index.0 < 0 {
          continue;
        }
        if index.1 >= BoardSize || index.1 < 0 {
          continue;
        }
        neighbours := neighbours + {direction};
      }
      assert order[..|order|] == order;
      assert forall d :: d in order <==> d in AllDirections;
    }

    /**
     * `_get_present_neighbours`: of the in-board directions, those whose
     * adjacent cell is in `presentCells` (the cells of the cage being drawn).
     */
    method GetPresentNeighbours(row: int, col: int, presentCells: set<Pos>) returns (present: set<Direction>)
      ensures present <= InBoardDirections(row, col)
      ensures forall d :: d in present <==> d in InBoardDirections(row, col) && Step(row, col, d) in presentCells
    {
      var neighbours := GetNeighbours(row, col);
      present := {};
      var pending := neighbours;
      while pending != {}
        invariant pending <= neighbours
        invariant forall d :: d in present <==> d in neighbours - pending && Step(row, col, d) in presentCells
        decreases pending
      {
        var neighbour :| neighbour in pending;
        var index := Step(row, col, neighbour);
        if index in presentCells {
          present := present + {neighbour};
        }
        pending := pending - {neighbour};
      }
    }
  }
}
