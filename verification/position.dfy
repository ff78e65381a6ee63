/** The board: a fixed array of 64 squares, its default value, and the one
    mutation the program performs on it (overwriting a single square). */
module Position {
  import opened Pieces

  /** Number of squares, the length of the fixed array. */
  const SquareCount: nat := 64

  /** A sequence of exactly 64 squares, indexed `row * 8 + column`. */
  type Squares = s: seq<Square> | |s| == SquareCount witness seq(64, _ => DefaultSquare)

  /** The board record; its only field is the square array. */
  datatype Board = Board(squares: Squares)

  /** `Default` for `Board`: every square is the default square. */
  function DefaultBoard(): (b: Board)
  {
    Board(seq(SquareCount, _ => DefaultSquare))
  }

  /** Every square of `b` is the default square. */
  predicate AllDefault(b: Board)
  {
    forall k :: 0 <= k < SquareCount ==> b.squares[k] == DefaultSquare
  }

  /** The default board is the one board whose squares are all default. */
  lemma DefaultBoardIsAllDefault(b: Board)
    ensures AllDefault(b) <==> b == DefaultBoard()
  {
    if AllDefault(b) {
      assert b.squares == DefaultBoard().squares;
    }
  }

  /** Assignment `board.squares[k] = sq`: square `k` becomes `sq` and every
      other square keeps its contents. */
  function SetSquare(b: Board, k: nat, sq: Square): (b': Board)
    requires k < SquareCount
    ensures b'.squares[k] == sq
    ensures forall m :: 0 <= m < SquareCount && m != k ==> b'.squares[m] == b.squares[m]
  {
    Board(b.squares[k := sq])
  }
}
