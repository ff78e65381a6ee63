/** The text renderer `print_board`: eight rows of eight glyphs, each row
    closed by a newline, squares visited in row-major order. */
module Printing {
  import opened Pieces
  import opened Position

  /** Length of the whole rendering: eight rows of eight glyphs and a
      newline. */
  const RenderLength: nat := 72

  /** Every character the rendering can contain. */
  const RenderAlphabet: set<char> := SquareGlyphs + {'\n'}

  /** Reference description of the rendering, one cell at a time: column 8
      of every row is the row's newline, and column `c < 8` of row `i` is
      the glyph of square `i * 8 + c`. */
  function Cell(squares: seq<Square>, i: nat, c: nat): (ch: char)
    requires i * 8 + 8 <= |squares| && c < 9
  {
    if c == 8 then '\n' else Glyph(squares[i * 8 + c])
  }

  /** The output offset at which square `k` is printed: row `k / 8`,
      column `k % 8`, with nine characters per row. */
  function Offset(k: nat): (n: nat)
    requires k < SquareCount
    ensures n < RenderLength && n % 9 != 8
  {
    RowColumn(k / 8, k % 8);
    (k / 8) * 9 + k % 8
  }

  /** The glyphs of the squares of `row`, in order, then a newline. */
  function RenderRow(row: seq<Square>): (r: string)
    ensures |r| == |row| + 1
    ensures forall c :: 0 <= c < |row| ==> r[c] == Glyph(row[c])
    ensures r[|row|] == '\n'
  {
    if |row| == 0 then "\n"
    else [Glyph(row[0])] + RenderRow(row[1..])
  }

  /** `rows` rows of eight squares each, rendered one after another. */
  function RenderRows(squares: seq<Square>, rows: nat): (r: string)
    requires |squares| == 8 * rows
    ensures |r| == 9 * rows
    ensures forall i, c :: 0 <= i < rows && 0 <= c < 9 ==> r[i * 9 + c] == Cell(squares, i, c)
    decreases |squares|
  {
    if rows == 0 then ""
    else
      var first, rest := RenderRow(squares[..8]), RenderRows(squares[8..], rows - 1);
      RowThenRows(squares, rows, first, rest);
      first + rest
  }

  /** The first row followed by the later rows: the first row's cells come
      first and every later cell moves nine characters along. */
  lemma RowThenRows(squares: seq<Square>, rows: nat, first: string, rest: string)
    requires rows > 0 && |squares| == 8 * rows
    requires first == RenderRow(squares[..8])
    requires |rest| == 9 * (rows - 1)
    requires forall i, c :: 0 <= i < rows - 1 && 0 <= c < 9 ==> rest[i * 9 + c] == Cell(squares[8..], i, c)
    ensures forall i, c :: 0 <= i < rows && 0 <= c < 9 ==> (first + rest)[i * 9 + c] == Cell(squares, i, c)
  {
    forall i, c | 0 <= i < rows && 0 <= c < 9
      ensures (first + rest)[i * 9 + c] == Cell(squares, i, c)
    {
      if i == 0 {
        if c < 8 {
          assert first[c] == Glyph(squares[..8][c]);
        }
      } else {
        assert rest[(i - 1) * 9 + c] == Cell(squares[8..], i - 1, c);
        if c < 8 {
          assert squares[8..][(i - 1) * 8 + c] == squares[i * 8 + c];
        }
      }
    }
  }

  /** `print_board`: the whole rendering. It is 72 characters long and the
      character at row `i`, column `c` is the reference cell there. */
  function Render(b: Board): (r: string)
    ensures |r| == RenderLength
    ensures forall i, c :: 0 <= i < 8 && 0 <= c < 9 ==> r[i * 9 + c] == Cell(b.squares, i, c)
  {
    RenderRows(b.squares, 8)
  }

  /** Offset `i * 9 + c` is column `c` of row `i`. */
  lemma RowColumn(i: nat, c: nat)
    requires c < 9
    ensures (i * 9 + c) / 9 == i && (i * 9 + c) % 9 == c
  {
    var n := i * 9 + c;
    assert n == (n / 9) * 9 + n % 9;
  }

  /** Any offset below 72 is some row's column: offset `n` is column
      `n % 9` of row `n / 9`. */
  lemma RenderAt(b: Board, n: nat)
    requires n < RenderLength
    ensures Render(b)[n] == Cell(b.squares, n / 9, n % 9)
  {
    assert n == (n / 9) * 9 + n % 9;
  }

  /** A string of length 72 that agrees with the reference at every cell is
      the rendering. */
  lemma RenderUnique(b: Board, s: string)
    requires |s| == RenderLength
    requires forall i, c :: 0 <= i < 8 && 0 <= c < 9 ==> s[i * 9 + c] == Cell(b.squares, i, c)
    ensures s == Render(b)
  {
    forall n | 0 <= n < RenderLength
      ensures s[n] == Render(b)[n]
    {
      RenderAt(b, n);
      assert n == (n / 9) * 9 + n % 9;
    }
  }

  /** The character at row `i`, column `j` is the glyph of square
      `i * 8 + j`, and the ninth character of every row is a newline. */
  lemma RenderCell(b: Board, i: nat, j: nat)
    requires i < 8 && j < 8
    ensures Render(b)[i * 9 + j] == Glyph(b.squares[i * 8 + j])
    ensures Render(b)[i * 9 + 8] == '\n'
  {
    assert Render(b)[i * 9 + j] == Cell(b.squares, i, j);
    assert Render(b)[i * 9 + 8] == Cell(b.squares, i, 8);
  }

  /** Every character of the rendering is a square glyph or a newline. */
  lemma RenderAlphabetOnly(b: Board)
    ensures forall n :: 0 <= n < RenderLength ==> Render(b)[n] in RenderAlphabet
  {
    forall n | 0 <= n < RenderLength
      ensures Render(b)[n] in RenderAlphabet
    {
      RenderAt(b, n);
      if n % 9 != 8 {
        GlyphAlphabet(b.squares[(n / 9) * 8 + n % 9]);
      }
    }
  }

  /** Square `k` is printed at `Offset(k)`. */
  lemma OffsetIsSquare(b: Board, k: nat)
    requires k < SquareCount
    ensures Render(b)[Offset(k)] == Glyph(b.squares[k])
  {
    var i, c := k / 8, k % 8;
    assert k == i * 8 + c;
    RenderCell(b, i, c);
  }

  /** Offsets other than `Offset(k)` print squares other than `k`. */
  lemma OffsetInjective(k: nat, n: nat)
    requires k < SquareCount
    requires n < RenderLength && n % 9 != 8 && n != Offset(k)
    ensures (n / 9) * 8 + n % 9 != k
  {
    var m := (n / 9) * 8 + n % 9;
    assert m / 8 == n / 9 && m % 8 == n % 9;
    assert n == (n / 9) * 9 + n % 9;
    assert m < SquareCount && Offset(m) == n;
  }

  /** One offset other than `Offset(k)` is untouched by overwriting
      square `k`. */
  lemma LocalityAt(b: Board, k: nat, sq: Square, n: nat)
    requires k < SquareCount
    requires n < RenderLength && n != Offset(k)
    ensures Render(SetSquare(b, k, sq))[n] == Render(b)[n]
  {
    RenderAt(b, n);
    RenderAt(SetSquare(b, k, sq), n);
    if n % 9 != 8 {
      OffsetInjective(k, n);
    }
  }

  /** Overwriting square `k` changes exactly one character of the rendering:
      the one at `Offset(k)` becomes the new square's glyph, and every other
      character is unchanged. */
  lemma SetSquareLocality(b: Board, k: nat, sq: Square)
    requires k < SquareCount
    ensures Render(SetSquare(b, k, sq))[Offset(k)] == Glyph(sq)
    ensures forall n :: 0 <= n < RenderLength && n != Offset(k) ==>
              Render(SetSquare(b, k, sq))[n] == Render(b)[n]
  {
    OffsetIsSquare(SetSquare(b, k, sq), k);
    forall n | 0 <= n < RenderLength && n != Offset(k)
      ensures Render(SetSquare(b, k, sq))[n] == Render(b)[n]
    {
      LocalityAt(b, k, sq, n);
    }
  }

  /** On a board of default squares every cell is a dot, except the
      newline that closes each row. */
  lemma DefaultCell(b: Board, i: nat, c: nat)
    requires AllDefault(b)
    requires i < 8 && c < 9
    ensures Cell(b.squares, i, c) == if c == 8 then '\n' else '.'
  {
  }

  /** The rendering of the default board: eight rows, each of eight dots
      followed by a newline. It is stated for every board whose squares are
      all default, which is exactly `DefaultBoard()`. */
  lemma DefaultRender(b: Board)
    requires AllDefault(b)
    ensures forall n :: 0 <= n < RenderLength ==>
              Render(b)[n] == if n % 9 == 8 then '\n' else '.'
  {
    forall n | 0 <= n < RenderLength
      ensures Render(b)[n] == if n % 9 == 8 then '\n' else '.'
    {
      RenderAt(b, n);
      DefaultCell(b, n / 9, n % 9);
    }
  }

  /** The program's own example: writing a Black queen to square 12 puts a
      `q` at offset 13 (row 1, column 4), whatever the board held before. */
  lemma BlackQueenExample(b: Board)
    ensures Render(SetSquare(b, 12, Square(Color.Black, PieceType.Queen)))[13] == 'q'
  {
    SquareTwelveAtThirteen(b, Square(Color.Black, PieceType.Queen));
  }

  /** Square 12 is printed at offset 13. */
  lemma SquareTwelveAtThirteen(b: Board, sq: Square)
    ensures Render(SetSquare(b, 12, sq))[13] == Glyph(sq)
  {
    RenderCell(SetSquare(b, 12, sq), 1, 4);
  }

  /** The rest of the program's example: after writing a Black queen to
      square 12 of the default board, every offset other than 13 is still a
      newline closing a row or a dot. */
  lemma BlackQueenExampleElsewhere(b: Board)
    requires AllDefault(b)
    ensures forall n :: 0 <= n < RenderLength && n != 13 ==>
              Render(SetSquare(b, 12, Square(Color.Black, PieceType.Queen)))[n]
              == if n % 9 == 8 then '\n' else '.'
  {
    SetSquareLocality(b, 12, Square(Color.Black, PieceType.Queen));
    DefaultRender(b);
    assert Offset(12) == 13;
  }

  /** Equal renderings force equal canonical contents at square `k`. */
  lemma SameRenderAt(a: Board, b: Board, k: nat)
    requires k < SquareCount
    requires Render(a) == Render(b)
    ensures Canonical(a.squares[k]) == Canonical(b.squares[k])
  {
    OffsetIsSquare(a, k);
    OffsetIsSquare(b, k);
    GlyphDeterminesSquare(a.squares[k], b.squares[k]);
  }

  /** Equal canonical contents everywhere make the two boards' reference
      cells agree. */
  lemma SameCanonicalCell(a: Board, b: Board, i: nat, c: nat)
    requires forall k :: 0 <= k < SquareCount ==> Canonical(a.squares[k]) == Canonical(b.squares[k])
    requires i < 8 && c < 9
    ensures Cell(a.squares, i, c) == Cell(b.squares, i, c)
  {
    if c < 8 {
      GlyphDeterminesSquare(a.squares[i * 8 + c], b.squares[i * 8 + c]);
    }
  }

  /** Two boards render to the same text if and only if they agree square by
      square up to `Canonical`: the rendering forgets exactly the contents of
      squares that print as a dot. */
  lemma RenderDeterminesBoard(a: Board, b: Board)
    ensures Render(a) == Render(b) <==>
              forall k :: 0 <= k < SquareCount ==> Canonical(a.squares[k]) == Canonical(b.squares[k])
  {
    if Render(a) == Render(b) {
      forall k | 0 <= k < SquareCount
        ensures Canonical(a.squares[k]) == Canonical(b.squares[k])
      {
        SameRenderAt(a, b, k);
      }
    }
    if forall k :: 0 <= k < SquareCount ==> Canonical(a.squares[k]) == Canonical(b.squares[k]) {
      forall i, c | 0 <= i < 8 && 0 <= c < 9
        ensures Render(a)[i * 9 + c] == Cell(b.squares, i, c)
      {
        SameCanonicalCell(a, b, i, c);
      }
      RenderUnique(b, Render(a));
    }
  }

  /** `print_board` as the program writes it: two nested loops over rows and
      columns push one glyph per square, and a newline after each row. */
  method PrintBoard(b: Board) returns (s: string)
    ensures s == Render(b)
  {
    s := "";
    var i := 0;
    while i < 8
      invariant 0 <= i <= 8
      invariant |s| == i * 9
      invariant forall row, c :: 0 <= row < i && 0 <= c < 9 ==> s[row * 9 + c] == Cell(b.squares, row, c)
    {
      var j := 0;
      while j < 8
        invariant 0 <= j <= 8
        invariant |s| == i * 9 + j
        invariant forall row, c :: 0 <= row < i && 0 <= c < 9 ==> s[row * 9 + c] == Cell(b.squares, row, c)
        invariant forall c :: 0 <= c < j ==> s[i * 9 + c] == Cell(b.squares, i, c)
      {
        var square := b.squares[i * 8 + j];
        var glyph: char;
        if square.color == Color.White {
          glyph := PieceMap[Ordinal(square.piece)];
        } else if square.color == Color.Black {
          glyph := ToLower(PieceMap[Ordinal(square.piece)]);
        } else {
          glyph := PieceMap[0];
        }
        assert glyph == Glyph(square);
        s := s + [glyph];
        j := j + 1;
      }
      s := s + "\n";
      i := i + 1;
    }
    RenderUnique(b, s);
  }
}
