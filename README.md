# Killer Sudoku game state, in Dafny

This project models the core of a Killer Sudoku game written in Python:

- the game state (`KillerSudokuState`): a 9 x 9 board of digits where 0 means an empty cell, a 9 x 9 grid of pencil-mark lists, the bound puzzle, and a last-in-first-out log of moves;
- the two kinds of move, `Place` and `Delete`. Each carries a snapshot of the cells it affects, taken when the move is built;
- the rule checks that paint cells and cages as invalid;
- the grid logic of the board view: the cell selection and the sum it shows, selecting all cells that hold the same digit, and the in-board neighbours of a cell.

Module layout, following the program:

| module | file | models |
|---|---|---|
| `PuzzleStore` | puzzle_store.dfy | `Puzzle`, `Cage`, `PuzzleDifficulty` as plain data |
| `PencilMarks` | pencil_marks.dfy | the pencil toggle of `_add_pencil_mark`, on one list |
| `Grid` | grid.dfy | the 9 x 9 grids and single-cell assignment |
| `SudokuRules` | sudoku_rules.dfy | peers (row, column, 3 x 3 box), value and mark conflicts, the cage-sum rule |
| `Moves` | moves.dfy | `Move`/`Place`/`Delete` as values; applying and undoing a move as functions on the two grids |
| `GameState` | killer_sudoku_state.dfy | `KillerSudokuState` as a class whose methods update its fields in place, and `get_sudoku_neighbours` |
| `GuiBoard` | gui_board.dfy | `Direction`, `Selection`, and the grid logic of `BoardGui` |

The class methods are proved against the functions of `Moves` and `SudokuRules`:

- `ProcessMove` leaves the grids equal to `Apply(old grids, move)` and pushes the move onto the log.
- `UndoMove` either does nothing, or pops the top move and leaves `Undo(old grids, top)`.
- The properties of the game are proved about those functions. Examples: apply-then-undo is the identity, the pencil toggle keeps lists sorted, and a move changes nothing outside its cells.

Behaviours of the code that a reader may not expect, all kept by the model:

- `clear()` empties the board and the pencil lists but keeps the move log. Launching a new game runs only `clear()` and then the puzzle setter (src/page_killer_sudoku.py:58-59). So after a new game starts, the log still holds the previous game's moves (see `KillerSudokuState.Clear`).
- `is_value_valid` does not exempt an empty cell: a 0 next to another 0 is reported invalid (`EmptyBoardConflicts`). The board view only asks about filled cells.
- `is_mark_valid` checks every peer, the cell itself included. A cell can hold a value and pencil marks at once: a value `Place` and a `Delete` of a filled cell both keep the marks. So for a filled cell holding one of its own marks, `IsMarkValid` answers false. The board view asks only about empty cells (src/gui_board.py:348-349), and for those the self-check never fires.
- A move's cells are a list, not a set. A cell listed twice is handled twice; `PencilMarksAt` and `DeleteAllAt` state what that does.

## Model

| member | source | states |
|---|---|---|
| PencilMarks.Insert | src/killer_sudoku_state.py:145-146 | append then sort: the result holds exactly the old marks plus the new one (as multisets) |
| PencilMarks.Remove | src/killer_sudoku_state.py:142 | `list.remove`: the result holds the old marks minus one occurrence of the mark |
| PencilMarks.InsertKeepsSorted | src/killer_sudoku_state.py:145-146 | inserting an absent mark into a strictly sorted list keeps it strictly sorted |
| PencilMarks.RemoveKeepsSorted | src/killer_sudoku_state.py:142 | removing from a strictly sorted list keeps it strictly sorted |
| PencilMarks.RemoveDropsAll | src/killer_sudoku_state.py:141-142 | on a duplicate-free list, one removal leaves the mark absent |
| PencilMarks.Toggle | src/killer_sudoku_state.py:135-146 | mark 0 leaves the list alone; otherwise, as a multiset, a present mark loses one copy and an absent one is added |
| PencilMarks.ToggleMembership | src/killer_sudoku_state.py:135-146 | mark 0 leaves the list unchanged; any other mark is present afterwards iff it was absent; all other marks keep their presence; sortedness is kept |
| PencilMarks.MarksAtMostNine | src/killer_sudoku_state.py:148 | a sorted, duplicate-free list of digits 1..9 has at most nine entries (the source's assertion) |
| PencilMarks.ToggleKeepsMarksOk | src/killer_sudoku_state.py:135-148 | toggling a digit 0..9 keeps a list sorted, duplicate-free, within 1..9 and at most nine long |
| PencilMarks.RemoveAfterInsert | src/killer_sudoku_state.py:141-146 | inserting an absent mark and then removing it gives back the list |
| PencilMarks.InsertAfterRemove | src/killer_sudoku_state.py:141-146 | removing a present mark from a sorted list and inserting it again gives back the list |
| PencilMarks.ToggleTwice | src/killer_sudoku_state.py:135-146 | toggling the same mark twice restores a sorted, duplicate-free list |
| Grid.Update | src/killer_sudoku_state.py:124 | `grid[row][col] = x` changes that one cell and no other |
| SudokuRules.CageValid | src/killer_sudoku_state.py:98-111 | the cage-sum rule; a valid cage's cells never add up to more than the declared sum |
| SudokuRules.ConflictIsMutual | src/killer_sudoku_state.py:79-88 | if a cell conflicts with a peer, that peer conflicts with the cell |
| SudokuRules.CellsSumPermutation | src/killer_sudoku_state.py:98-111 | a cage's cell total does not depend on the order of its cells |
| SudokuRules.CageValidOrderIndependent | src/killer_sudoku_state.py:98-111 | the cage verdict does not depend on the order of its cells |
| Moves.Snapshot | src/killer_sudoku_state.py:17-22 | the move's dictionaries have exactly the affected cells as keys, each mapped to its current value and a copy of its pencil list |
| Moves.NewPlace | src/killer_sudoku_state.py:25-31 | a `Place` holding the cells, value and pencil flag you give it, with a snapshot of the current grids |
| Moves.NewDelete | src/killer_sudoku_state.py:34-37 | a `Delete` holding the cells you give it, with a snapshot of the current grids |
| Moves.PlaceCell | src/killer_sudoku_state.py:119-124 | one pass of the place loop: a pencil pass toggles the mark and keeps the board, a value pass sets the value and keeps the pencil lists; no other cell changes |
| Moves.PlaceAll | src/killer_sudoku_state.py:118-124 | the place loop in list order: a pencil place keeps the whole board and a value place keeps every pencil list |
| Moves.DeleteCell | src/killer_sudoku_state.py:127-133 | one pass of the delete loop: the cell ends empty, keeps its pencil list if it held a value and loses it otherwise; no other cell changes |
| Moves.DeleteAll | src/killer_sudoku_state.py:126-133 | the delete loop in list order: every listed cell ends empty |
| Moves.Apply | src/killer_sudoku_state.py:64-72 | the dispatch of `process_move`: a pencil `Place` changes only pencil lists, a value `Place` only values, and a `Delete` leaves every listed cell empty |
| Moves.Restore | src/killer_sudoku_state.py:56-62 | every cell named in a snapshot takes its recorded content, every other cell keeps its own |
| Moves.Undo | src/killer_sudoku_state.py:51-62 | the grids after `undo_move`: every snapshot cell takes back its recorded value and pencil list, every other cell keeps its own |
| Moves.PlaceValueAt | src/killer_sudoku_state.py:118-124 | a value `Place` sets every listed cell to the value, leaves unlisted cells alone, and changes no pencil list |
| Moves.PencilMarksAt | src/killer_sudoku_state.py:118-121 | a pencil `Place` toggles a cell's mark once per listing: toggled if listed an odd number of times, unchanged if even |
| Moves.DeleteAllAt | src/killer_sudoku_state.py:126-133 | `Delete` clears a non-zero value and keeps the marks, or clears the marks of an empty cell; listing a cell again also clears its marks |
| Moves.ApplyOutsideCells | src/killer_sudoku_state.py:64-74 | a move changes no cell outside its list |
| Moves.PlaceKeepsValuesWhenPencil | src/killer_sudoku_state.py:118-121 | a pencil `Place` changes no board value |
| Moves.PlaceTogglesOnlyListed | src/killer_sudoku_state.py:118-121 | a pencil `Place` changes no unlisted pencil list |
| Moves.ApplyKeepsGridsOk | src/killer_sudoku_state.py:64-74 | applying a well-formed move keeps every pencil list sorted, duplicate-free and within 1..9 |
| Moves.UndoKeepsGridsOk | src/killer_sudoku_state.py:51-62 | undoing a well-formed move keeps every pencil list valid |
| Moves.UndoAfterApply | src/killer_sudoku_state.py:51-74 | undoing a move applied to the grids it was built from gives back those grids exactly |
| Moves.PencilPlaceTwice | src/killer_sudoku_state.py:118-121 | placing the same pencil mark over the same cells twice gives back the grids |
| GameState.AddCell | src/killer_sudoku_state.py:170-173 | appends a cell unless it is already listed, so the list stays duplicate-free and keeps its first element |
| GameState.GetSudokuNeighbours | src/killer_sudoku_state.py:164-183 | 21 cells, the cell itself first, no duplicates, and a cell is listed iff it shares the row, the column or the 3 x 3 box |
| GameState.EmptyBoard | src/killer_sudoku_state.py:114 | a 9 x 9 board of zeros |
| GameState.EmptyMarks | src/killer_sudoku_state.py:45 | a 9 x 9 grid of empty pencil lists |
| GameState.EmptyBoardConflicts | src/killer_sudoku_state.py:79-88 | 0 is not exempt: on the empty board every cell counts as conflicting |
| GameState.KillerSudokuState.constructor | src/killer_sudoku_state.py:42-46 | no puzzle, all values 0, all pencil lists empty, empty log |
| GameState.KillerSudokuState.Row | src/killer_sudoku_state.py:48-49 | `state[index]` is that board row, nine values |
| GameState.KillerSudokuState.GetPencilMarkings | src/killer_sudoku_state.py:76-77 | the cell's pencil list, which is sorted, duplicate-free, within 1..9 and at most nine long |
| GameState.KillerSudokuState.UndoMove | src/killer_sudoku_state.py:51-62 | empty log: nothing changes; otherwise the top move is popped and its snapshot is restored; the puzzle is kept |
| GameState.KillerSudokuState.RestoreValues | src/killer_sudoku_state.py:56-58 | every snapshot cell gets its recorded value back; nothing else changes |
| GameState.KillerSudokuState.RestoreMarks | src/killer_sudoku_state.py:60-62 | every snapshot cell gets its recorded pencil list back; nothing else changes |
| GameState.KillerSudokuState.ProcessMove | src/killer_sudoku_state.py:64-74 | the grids become `Apply(old grids, move)`, the log grows by exactly that move, and the state stays valid |
| GameState.KillerSudokuState.IsValueValid | src/killer_sudoku_state.py:79-88 | true iff no other peer holds the same value (0 included) |
| GameState.KillerSudokuState.IsMarkValid | src/killer_sudoku_state.py:90-96 | requires the mark to be in the cell's list; true iff no peer, the cell itself included, holds the mark |
| GameState.KillerSudokuState.IsCageValid | src/killer_sudoku_state.py:98-111 | a complete cage must match its sum exactly; a cage with an empty cell must be strictly below it |
| GameState.KillerSudokuState.Clear | src/killer_sudoku_state.py:113-116 | all values 0 and all pencil lists empty; the puzzle and the move log are unchanged |
| GameState.KillerSudokuState.HandlePlace | src/killer_sudoku_state.py:118-124 | the grids become `PlaceAll(old grids, cells, value, isPencil)`, in list order |
| GameState.KillerSudokuState.HandleDelete | src/killer_sudoku_state.py:126-133 | the grids become `DeleteAll(old grids, cells)`, in list order |
| GameState.KillerSudokuState.DeleteOne | src/killer_sudoku_state.py:127-133 | one pass of the delete loop: the grids become `DeleteCell(old grids, cell)`; the puzzle and the log are kept |
| GameState.KillerSudokuState.AddPencilMark | src/killer_sudoku_state.py:135-148 | only that cell's pencil list changes, and it becomes the toggle of the old list; the list stays valid and at most nine long |
| GameState.KillerSudokuState.GetPuzzle | src/killer_sudoku_state.py:150-153 | requires a bound puzzle and returns it |
| GameState.KillerSudokuState.SetPuzzle | src/killer_sudoku_state.py:155-157 | binds the puzzle; the grids and the log are unchanged |
| GameState.KillerSudokuState.DeletePuzzle | src/killer_sudoku_state.py:159-161 | unbinds the puzzle; the grids and the log are unchanged |
| GameState.PlaceThenUndo | src/killer_sudoku_state.py:51-74 | building a `Place` from the state, processing it and undoing it gives back the board, the pencil lists and the log |
| GameState.DeleteThenUndo | src/killer_sudoku_state.py:51-74 | the same round trip for a `Delete` |
| GuiBoard.Direction.Get | src/gui_board.py:45-60 | every direction is a unit step along exactly one axis |
| GuiBoard.DirectionSteps | src/gui_board.py:45-60 | the four offsets are distinct; Up/Down and Left/Right are opposites |
| GuiBoard.InBoardDirections | src/gui_board.py:313-331 | a subset of the four directions, each leading from an on-board cell to an on-board cell |
| GuiBoard.InBoardDirectionsMembers | src/gui_board.py:313-331 | an on-board cell has a neighbour above unless it is in the top row, and likewise for each side |
| GuiBoard.NeighbourCount | src/gui_board.py:313-331 | corner cells have 2 neighbour directions, other border cells 3, inner cells 4 |
| GuiBoard.SetSumRemove | src/gui_board.py:104-110 | summing the selected cells gives the same total whichever cell is taken first |
| GuiBoard.ElementsCard | src/gui_board.py:100 | a list has at least as many entries as distinct cells, and the same number iff it has no repeats |
| GuiBoard.CoveredMeans | src/gui_board.py:100 | the cage test `len(selected ∩ cage) == len(cage)` holds iff the cage lists each cell once and all of them are still selected |
| GuiBoard.CoverCages | src/gui_board.py:99-102 | the selection left after the cage loop is part of the original selection |
| GuiBoard.CoverRemovesCageCells | src/gui_board.py:99-102 | only cells of some cage leave the selection |
| GuiBoard.UncagedStay | src/gui_board.py:99-104 | a selected cell that no cage lists survives the cage loop and is summed as a cell |
| GuiBoard.SelectionSum | src/gui_board.py:92-112 | the shown sum; a selected empty cell that no cage lists forces it to 0 |
| GuiBoard.NoCageCovered | src/gui_board.py:92-112 | when no cage lies wholly inside the selection, no cage sum is counted and no cell leaves the selection |
| GuiBoard.OneCageSelected | src/gui_board.py:92-112 | selecting exactly the cells of a cage shows that cage's declared sum |
| GuiBoard.SumCoveredCages | src/gui_board.py:99-102 | the first loop of `get_selection_sum` computes `CoverCages` |
| GuiBoard.AddCellValues | src/gui_board.py:104-112 | the second loop: 0 if any remaining cell is empty, otherwise the cage total plus the remaining cells' values |
| GuiBoard.Selection.constructor | src/gui_board.py:73-75 | nothing selected, not selecting |
| GuiBoard.Selection.AddCell | src/gui_board.py:77-81 | the selection becomes the old one plus the cell, so adding an already selected cell changes nothing |
| GuiBoard.Selection.GetSingleSelection | src/gui_board.py:83-87 | returns a cell iff exactly one is selected, and then that cell is the whole selection |
| GuiBoard.Selection.Clear | src/gui_board.py:89-90 | the selection becomes empty |
| GuiBoard.Selection.GetSelectionSum | src/gui_board.py:92-112 | 0 for an empty selection; otherwise `SelectionSum`: covered cages add their sums, and the other cells add their values, or the answer is 0 if one of them is empty |
| GuiBoard.BoardGui.constructor | src/gui_board.py:250-259 | the view over the given state starts with a fresh, empty selection |
| GuiBoard.BoardGui.SelectEqualValues | src/gui_board.py:273-283 | with exactly one selected cell holding v ≠ 0, the selection becomes exactly the cells holding v; otherwise it is unchanged |
| GuiBoard.BoardGui.GetNeighbours | src/gui_board.py:313-331 | the directions whose adjacent cell is on the board; none for an off-board cell |
| GuiBoard.BoardGui.GetPresentNeighbours | src/gui_board.py:334-342 | exactly the in-board directions whose adjacent cell is among the present cells, so a subset of `GetNeighbours` |

## Left out

- Rendering, fonts, themes, surfaces, mouse and keyboard events, the double-click timer (`DoubleClickInfo`, which reads the clock), and page plumbing are left out. They are I/O and drawing, not game logic.
- Loading puzzles from the JSON file and `get_puzzles` are left out: file I/O. `Puzzle` and `Cage` are modelled as plain data.
- `LifoQueue` thread safety is not modelled: the log is a sequence, and the game uses it from one thread.
- The `@cache` on `get_sudoku_neighbours` and `_get_neighbours` is not modelled. It saves work but does not change the results.
- `get_sudoku_neighbours` and the queries that use it require an on-board cell. The source gives no meaning to other inputs.
- GameState.KillerSudokuState.AddPencilMark: requires a digit 0..9. So do `GameState.KillerSudokuState.ProcessMove` and `GameState.KillerSudokuState.HandlePlace` for a pencil `Place`, through `MoveOk`, and `GameState.PlaceThenUndo` for a pencil value. The source accepts any integer but asserts that a pencil list never exceeds nine marks. No code in the program builds a `Place` or a `Delete`: both appear only in src/killer_sudoku_state.py. So no digit ever reaches `_add_pencil_mark`. The digit pad, when it is used, offers 1..9 (`Digits` in src/gui_digits.py:61-65).
- Python negative indexing is not modelled (`state[-1]`, a cell `(-1, 0)` in a move). Every board access requires an on-board position.
- `__getitem__` and `get_pencil_markings` return the live Python lists, so a caller could mutate the state through them. The model returns values. The only writes through them are in src/page_killer_sudoku.py:73 and :83. Neither can run: each first reads `_board_display.selected`, an attribute the board view does not have.
- Processing the same `Move` object twice, or changing it after it is logged, is not modelled: a move is a value.
- The `raise` for an unrecognised move type cannot happen, because `Move` is a datatype with two constructors.
- The `puzzle` deleter removes the attribute in Python, so a later read raises `AttributeError`. The model sets the puzzle to none, so a later `GetPuzzle` is outside its precondition.
- `Selection` holds `Cell` objects in the source. The model identifies a cell by its `(row, col)`. This is exact: the board surface, and with it the `Cell` objects, is built once, in the `BoardGui` constructor (src/gui_board.py:254), so there is one `Cell` per position.
- `Direction.get` returns a float `Vector2`. The model uses integer offsets; the source compares them with integer positions, so nothing changes.
- There is no "puzzle solved" check in the code, so none is modelled.
- Launching a game (src/page_killer_sudoku.py) is not part of this model; `Clear` and `SetPuzzle` are its two steps.
