# Chess board text renderer

A Dafny model of the position data model of `rust-chess` (`src/board.rs`) and
of its text renderer `Board::print_board`.

- `pieces.dfy`, module `Pieces`: the enums `Color` (`Empty`, `White`, `Black`)
  and `PieceType` (`Empty`, `Pawn`, `Knight`, `Bishop`, `Queen`, `King`; there
  is no rook in this version), their `Default` values, the `Square` record,
  the glyph table `piece_map` (`PieceMap`), the enum discriminant used to index
  it (`Ordinal`), and the character one square prints as (`Glyph`).
- `position.dfy`, module `Position`: the `Board` record holding exactly 64
  squares, `Board::default` (`DefaultBoard`) and the single-square assignment
  the program performs (`SetSquare`).
- `printing.dfy`, module `Printing`: `print_board` as a pure function
  (`Render`), as the program's nested loops (`PrintBoard`, proved equal to
  `Render`), and the properties of the rendering.

The rendering is described independently by `Cell(b, i, c)`: column 8 of every
row is a newline and column `c < 8` of row `i` is the glyph of square
`i * 8 + c`. `Render` is proved to be the unique 72-character string that
agrees with `Cell` everywhere. A glyph is described independently of the table
by `WhiteLetter`/`BlackLetter`, written out per piece kind. `Canonical` maps
every square that prints as a dot to the default square; the rendering is
proved to determine a board exactly up to `Canonical`.

Facts of the code the model keeps: `Color` has an `Empty` variant
(src/board.rs:5-9) and it is the colour's default (src/board.rs:11-13), so the
derived default square is `{Empty, Empty}` (src/board.rs:25-33); `PieceType`
has no rook (src/board.rs:16-23), so the glyph table has six entries; and
`print_board` emits only the eight rows, nothing after them
(src/board.rs:47-64).

## Model

| member | source | states |
|---|---|---|
| Pieces.Ordinal | src/board.rs:16-23 | the discriminant of a piece kind always indexes inside the six-entry glyph table, and it is 0 exactly for `PieceType::Empty` |
| Pieces.OrdinalInjective | src/board.rs:16-23 | distinct piece kinds have distinct discriminants, so distinct table slots |
| Pieces.TableMatchesLetters | src/board.rs:40 | the table entry at a kind's discriminant is that kind's upper-case letter, lower-casing it gives the kind's lower-case letter, and lower-casing slot 0 leaves the dot |
| Pieces.Glyph | src/board.rs:52-60 | the three-branch choice of the character for one square; its partner `GlyphLetters` checks it against the per-kind letters written without the table, and `GlyphDeterminesSquare` shows it loses only the contents of dot squares |
| Pieces.ToLower | src/board.rs:56 | `to_lowercase().collect()[0]` on a table entry; its partner `TableMatchesLetters` shows that lower-casing each table entry gives the independently written lower-case letter and leaves the dot a dot |
| Pieces.GlyphLetters | src/board.rs:52-60 | a White square prints its piece's upper-case letter, a Black square the lower-case letter, a colourless square a dot whatever its piece, and a square prints a dot exactly when its colour or its piece is empty |
| Pieces.GlyphAlphabet | src/board.rs:40-60 | every square prints as one of `. P N B Q K p n b q k` |
| Pieces.GlyphDeterminesSquare | src/board.rs:52-60 | two squares print alike if and only if they have the same canonical form, so the glyph loses nothing but the contents of dot squares |
| Position.DefaultBoard | src/board.rs:68-74 | `Board::default`; its partner `DefaultBoardIsAllDefault` shows it is exactly the board whose 64 squares are all the derived default square |
| Position.DefaultBoardIsAllDefault | src/board.rs:68-74 | a board has every square default if and only if it is the default board |
| Position.SetSquare | src/board.rs:87 | assigning square `k` makes it the new square and leaves the other 63 squares as they were |
| Printing.Offset | src/board.rs:47-49 | the output offset of square `k` lies inside the 72 characters and never in a row's newline column; with `OffsetIsSquare` and `OffsetInjective` it is the inverse of the `i*8+j` indexing |
| Printing.RenderRow | src/board.rs:48-62 | one row of squares prints as one glyph per square, in order, followed by a newline, one character longer than the row |
| Printing.RowThenRows | src/board.rs:47-63 | appending the later rows after the first row shifts their cells nine characters, so the concatenation matches the reference cell at every row and column |
| Printing.RenderRows | src/board.rs:47-63 | `rows` rows of eight squares print as `9 * rows` characters matching the reference cell at every row and column |
| Printing.Render | src/board.rs:42-65 | the rendering is 72 characters and the character at row `i`, column `c` is the reference cell there |
| Printing.RenderAt | src/board.rs:47-49 | offset `n` of the rendering is column `n % 9` of row `n / 9` |
| Printing.RenderUnique | src/board.rs:42-65 | any 72-character string agreeing with the reference at every cell is the rendering |
| Printing.RenderCell | src/board.rs:47-62 | offset `i * 9 + j` holds the glyph of square `i * 8 + j` and offset `i * 9 + 8` holds the newline |
| Printing.RenderAlphabetOnly | src/board.rs:40-62 | every character of the rendering is a square glyph or a newline |
| Printing.OffsetIsSquare | src/board.rs:49 | square `k` is printed at offset `(k / 8) * 9 + k % 8` |
| Printing.OffsetInjective | src/board.rs:47-49 | no glyph offset other than `Offset(k)` prints square `k` |
| Printing.LocalityAt | src/board.rs:47-62 | overwriting square `k` leaves any single offset other than `Offset(k)` unchanged |
| Printing.SetSquareLocality | src/board.rs:47-62 | overwriting square `k` puts the new square's glyph at `Offset(k)` and changes no other character of the rendering |
| Printing.DefaultRender | src/board.rs:68-74 | a board of default squares renders as eight rows of eight dots, each ending in a newline: offset `n` is a newline when `n % 9 == 8` and a dot otherwise |
| Printing.DefaultCell | src/board.rs:29-33 | every cell of a board of default squares is a dot, except the newline ending each row |
| Printing.SquareTwelveAtThirteen | src/board.rs:49 | square 12 is printed at offset 13 |
| Printing.BlackQueenExample | src/board.rs:87-88 | after the program writes a Black queen to square 12, offset 13 of the rendering is `q` |
| Printing.BlackQueenExampleElsewhere | src/board.rs:83-88 | after the Black queen is written to square 12 of the default board, all 71 offsets other than 13 are as on the default board: a newline at each row's end and a dot elsewhere |
| Printing.SameRenderAt | src/board.rs:49-60 | equal renderings give equal canonical contents at each square |
| Printing.SameCanonicalCell | src/board.rs:49-60 | boards with equal canonical contents have equal reference cells |
| Printing.RenderDeterminesBoard | src/board.rs:42-65 | two boards render to the same text if and only if they agree on every square up to `Canonical` |
| Printing.PrintBoard | src/board.rs:42-65 | the nested loops over rows and columns build exactly the rendering |

## Left out

- The `fmt::Display` implementation (src/board.rs:76-80) only forwards the rendered string to a formatter; it is formatting I/O.
- The console output in `main` (src/board.rs:84-88); only the board assignment on line 87 is modelled, by `SetSquare` and the example lemmas.
- `src/gui.rs` and `src/main.rs`: window, image and floating-point layout code. They also refer to a position-string parser, a side to move and a rook that `src/board.rs` does not define.
- ToLower: models `char::to_lowercase` on ASCII only; the table holds only ASCII characters, so nothing the renderer can reach is lost.
- `src/board.rs` defines no move generation, position-string parsing or side to move, which `src/gui.rs` refers to; none of it is modelled.
- `usize` arithmetic in `i*8+j` cannot overflow for indices below 64, so indices are modelled as unbounded naturals.
