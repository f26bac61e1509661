/**
 * Puzzle records as the rest of the game consumes them: a difficulty and a
 * list of cages, each cage a declared sum over a list of board positions.
 * Loading these records from the puzzle file is not part of this model.
 */
module PuzzleStore {

  /** The number of rows and of columns of the board. */
  const BoardSize: int := 9

  /** A board position `(row, col)`. */
  type Pos = (int, int)

  predicate OnBoard(row: int, col: int) {
    0 <= row < BoardSize && 0 <= col < BoardSize
  }

  predicate AllOnBoard(cells: seq<Pos>) {
    forall p :: p in cells ==> OnBoard(p.0, p.1)
  }

  datatype Difficulty = Easy | Normal | Hard | Expert | Master

  /** A cage: the sum its digits must reach and the cells it covers. */
  datatype Cage = Cage(sum: int, cells: seq<Pos>)

  datatype Puzzle = Puzzle(volume: int, book: int, id: int, diff: Difficulty, cages: seq<Cage>)
}
