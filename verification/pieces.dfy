/** The contents of one square of the board: the two enums `Color` and
    `PieceType`, the `Square` record that pairs them, their defaults, and the
    single character the text renderer prints for a square. */
module Pieces {

  /** Colour of whatever stands on a square; `Empty` when nothing does. */
  datatype Color = Empty | White | Black

  /** Kind of piece on a square. This version of the program has no rook. */
  datatype PieceType = Empty | Pawn | Knight | Bishop | Queen | King

  /** One square: a colour together with a piece kind. The two fields are
      independent, so a square may be coloured yet hold `PieceType.Empty`,
      or hold a piece yet be `Color.Empty`. */
  datatype Square = Square(color: Color, piece: PieceType)

  /** `Default` for `Color`. */
  const DefaultColor: Color := Color.Empty

  /** `Default` for `PieceType`. */
  const DefaultPieceType: PieceType := PieceType.Empty

  /** The derived `Default` for `Square`: both fields take their defaults. */
  const DefaultSquare: Square := Square(DefaultColor, DefaultPieceType)

  /** The renderer's glyph table, indexed by the piece kind's ordinal. */
  const PieceMap: seq<char> := ['.', 'P', 'N', 'B', 'Q', 'K']

  /** Every character a single square can render as. */
  const SquareGlyphs: set<char> := {'.', 'P', 'N', 'B', 'Q', 'K', 'p', 'n', 'b', 'q', 'k'}

  /** The discriminant of a piece kind, i.e. `p as usize`: declaration order
      starting at 0. It always indexes inside the glyph table, and only
      `PieceType.Empty` sits at slot 0. */
  function Ordinal(p: PieceType): (n: nat)
    ensures n < |PieceMap|
    ensures n == 0 <==> p == PieceType.Empty
  {
    match p
    case Empty => 0
    case Pawn => 1
    case Knight => 2
    case Bishop => 3
    case Queen => 4
    case King => 5
  }

  /** Distinct piece kinds have distinct ordinals, so distinct table slots. */
  lemma OrdinalInjective(p: PieceType, q: PieceType)
    ensures Ordinal(p) == Ordinal(q) <==> p == q
  {
  }

  /** Lowercasing of a character, restricted to ASCII: upper-case letters
      move to their lower-case partners and every other character is kept. */
  function ToLower(c: char): (l: char)
  {
    if 'A' <= c <= 'Z' then (c as int + 32) as char else c
  }

  /** The letter a White piece of kind `p` is printed as, written out per kind
      and independent of the table. */
  function WhiteLetter(p: PieceType): (l: char)
  {
    match p
    case Empty => '.'
    case Pawn => 'P'
    case Knight => 'N'
    case Bishop => 'B'
    case Queen => 'Q'
    case King => 'K'
  }

  /** The letter a Black piece of kind `p` is printed as. */
  function BlackLetter(p: PieceType): (l: char)
  {
    match p
    case Empty => '.'
    case Pawn => 'p'
    case Knight => 'n'
    case Bishop => 'b'
    case Queen => 'q'
    case King => 'k'
  }

  /** The table entry at a kind's ordinal is that kind's White letter, and
      lower-casing it gives the Black letter; in particular lower-casing the
      dot in slot 0 leaves a dot. */
  lemma TableMatchesLetters(p: PieceType)
    ensures PieceMap[Ordinal(p)] == WhiteLetter(p)
    ensures ToLower(PieceMap[Ordinal(p)]) == BlackLetter(p)
    ensures WhiteLetter(p) == '.' <==> p == PieceType.Empty
    ensures BlackLetter(p) == '.' <==> p == PieceType.Empty
  {
    match p
    case Empty =>
    case Pawn =>
    case Knight =>
    case Bishop =>
    case Queen =>
    case King =>
  }

  /** The character printed for one square: the table entry for White, its
      lower-case form for Black, and the table's slot 0 (a dot) when the
      square has no colour. */
  function Glyph(sq: Square): (g: char)
  {
    if sq.color == Color.White then
      PieceMap[Ordinal(sq.piece)]
    else if sq.color == Color.Black then
      ToLower(PieceMap[Ordinal(sq.piece)])
    else
      PieceMap[0]
  }

  /** What each square prints as: a White piece as its upper-case letter, a
      Black piece as its lower-case letter, a colourless square as a dot
      whatever its piece field holds, and an empty piece field as a dot
      whatever its colour, because lower-casing the table's dot leaves it a
      dot. Nothing else prints as a dot. */
  lemma GlyphLetters(sq: Square)
    ensures sq.color == Color.White ==> Glyph(sq) == WhiteLetter(sq.piece)
    ensures sq.color == Color.Black ==> Glyph(sq) == BlackLetter(sq.piece)
    ensures sq.color == Color.Empty ==> Glyph(sq) == '.'
    ensures Glyph(sq) == '.' <==> sq.color == Color.Empty || sq.piece == PieceType.Empty
  {
    TableMatchesLetters(sq.piece);
    if sq.color != Color.White && sq.color != Color.Black {
      assert sq.color == Color.Empty;
    }
  }

  /** A square prints as one of the eleven square glyphs. */
  lemma GlyphAlphabet(sq: Square)
    ensures Glyph(sq) in SquareGlyphs
  {
    GlyphLetters(sq);
  }

  /** The square a glyph stands for: every square that prints as a dot is
      identified with the default square, and every other square with
      itself. */
  function Canonical(sq: Square): (c: Square)
  {
    if sq.color == Color.Empty || sq.piece == PieceType.Empty then DefaultSquare else sq
  }

  /** A glyph loses exactly the information `Canonical` forgets: two squares
      print alike if and only if they have the same canonical form. */
  lemma GlyphDeterminesSquare(a: Square, b: Square)
    ensures Glyph(a) == Glyph(b) <==> Canonical(a) == Canonical(b)
  {
    GlyphLetters(a);
    GlyphLetters(b);
    if Glyph(a) == Glyph(b) && Glyph(a) != '.' {
      assert a.color == b.color by {
        assert 'A' <= Glyph(a) <= 'Z' <==> a.color == Color.White;
        assert 'A' <= Glyph(b) <= 'Z' <==> b.color == Color.White;
      }
      assert a.piece == b.piece;
    }
  }
}
