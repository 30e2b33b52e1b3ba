/**
  The character-cell screen the terminal host paints into, and the pure rules
  by which its three paint operations (background rectangle, caret, text run)
  rewrite one cell. A cell is modelled as a record instead of the packed
  ncurses `chtype`: the character byte, the alternate-charset bit, the bold
  and underline bits and the colour-pair index.
*/
module Cells {
  import opened Wrappers

  /** The colour pairs bound at startup; 0 is the terminal's default pair. */
  const DefaultPair: nat := 0
  const CommentPair: nat := 1
  const ConstantPair: nat := 2
  const KeywordPair: nat := 3
  const MarginPair: nat := 4
  const SelectedPair: nat := 5
  const StringPair: nat := 6

  /** Code points and bytes the glyph substitution uses. */
  const Space: nat := 32
  const MiddleDot: nat := 0xB7
  const Tilde: Byte := 126
  const Question: Byte := 63

  /** One screen cell. */
  datatype Cell = Cell(glyph: Byte, alt: bool, bold: bool, underline: bool, pair: nat)

  /**
    The semantic colour roles the editing engine paints with. Roles the host
    does not distinguish are collapsed into `OtherColor`.
  */
  datatype Color =
    | BackgroundDefault
    | BackgroundSelected
    | BackgroundMargin
    | ForegroundDefault
    | ForegroundMargin
    | ForegroundMarginHighlighted
    | ForegroundKeyword
    | ForegroundKeywordConstant
    | ForegroundConstant
    | ForegroundNumber
    | ForegroundComment
    | ForegroundString
    | ForegroundDefinition
    | OtherColor

  predicate IsMargin(color: Color) {
    color == ForegroundMargin || color == ForegroundMarginHighlighted
  }

  /** What a text role contributes to a cell: a colour pair and the bold bit. */
  datatype Attributes = Attributes(pair: nat, bold: bool)

  /**
    The fixed role -> attribute mapping of renderText. Each pair is produced by
    exactly the roles listed for it; only definitions are bold, and no text
    role ever produces the selection pair.
  */
  function ColorAttributes(color: Color): (a: Attributes)
    ensures a.pair == MarginPair <==> IsMargin(color)
    ensures a.pair == KeywordPair <==> (color == ForegroundKeyword || color == ForegroundKeywordConstant)
    ensures a.pair == ConstantPair <==> (color == ForegroundConstant || color == ForegroundNumber)
    ensures a.pair == CommentPair <==> color == ForegroundComment
    ensures a.pair == StringPair <==> color == ForegroundString
    ensures a.pair != SelectedPair && a.pair <= StringPair
    ensures a.bold <==> color == ForegroundDefinition
    ensures a.bold ==> a.pair == DefaultPair
  {
    if IsMargin(color) then Attributes(MarginPair, false)
    else if color == ForegroundKeyword || color == ForegroundKeywordConstant then Attributes(KeywordPair, false)
    else if color == ForegroundConstant || color == ForegroundNumber then Attributes(ConstantPair, false)
    else if color == ForegroundComment then Attributes(CommentPair, false)
    else if color == ForegroundString then Attributes(StringPair, false)
    else if color == ForegroundDefinition then Attributes(DefaultPair, true)
    else Attributes(DefaultPair, false)
  }

  /** The character part of a cell: byte plus alternate-charset bit. */
  datatype Glyph = Glyph(ch: Byte, alt: bool)

  function GlyphOf(c: Cell): Glyph {
    Glyph(c.glyph, c.alt)
  }

  /**
    The glyph that painting code point `cp` over cell `under` leaves: a space
    keeps what is there, a middle dot becomes the alternate-charset '~', code
    points that do not fit a byte become '?', anything else is written as is.
  */
  function TextGlyph(under: Cell, cp: nat): (g: Glyph)
    ensures g.alt ==> cp == Space || cp == MiddleDot
  {
    if cp == Space then GlyphOf(under)
    else if cp == MiddleDot then Glyph(Tilde, true)
    else if cp > 0xFF then Glyph(Question, false)
    else Glyph(cp, false)
  }

  /**
    The cell that painting code point `cp` in role `color` over `under`
    leaves: a non-default pair already there is kept, a default pair takes the
    role's pair; the bold bit is the role's; underline is dropped.
  */
  function TextCell(under: Cell, cp: nat, color: Color): Cell {
    PaintCell(under, cp, ColorAttributes(color))
  }

  /** The cell painting `cp` with attributes `a` (already looked up for the role) leaves. */
  function PaintCell(under: Cell, cp: nat, a: Attributes): Cell {
    var g := TextGlyph(under, cp);
    Cell(g.ch, g.alt, a.bold, false, if under.pair == DefaultPair then a.pair else under.pair)
  }

  /** The cell a selection background leaves: only the colour pair changes. */
  function SelectedCell(c: Cell): Cell {
    c.(pair := SelectedPair)
  }

  /** The cell a visible caret leaves: the underline bit is added. */
  function CaretCell(c: Cell): Cell {
    c.(underline := true)
  }

  function Max(a: int, b: int): int { if a < b then b else a }
  function Min(a: int, b: int): int { if a < b then a else b }

  /** A paint rectangle in cell coordinates. */
  datatype Rect = Rect(x: int, y: int, width: int, height: int)

  /**
    Whether the cell at (row, col) lies in the clipped selection rectangle:
    columns from the later of `r.x` and the margin up to the screen width,
    rows from the later of `r.y` and 0 up to the screen height.
  */
  predicate InSelectedRect(row: int, col: int, r: Rect, margin: nat, width: nat, height: nat) {
    Max(r.x, margin) <= col < Min(r.x + r.width, width) &&
    Max(r.y, 0) <= row < Min(r.y + r.height, height)
  }

  /** What renderRect leaves in the cell at (row, col). */
  function RectCell(c: Cell, row: int, col: int, r: Rect, color: Color, margin: nat, width: nat, height: nat): Cell {
    if color == BackgroundSelected && InSelectedRect(row, col, r, margin, width, height) then SelectedCell(c) else c
  }

  /** Index range [start, end) of a text run that renderText paints. */
  datatype Span = Span(start: int, end: int)

  predicate InSpan(s: Span, i: int) {
    s.start <= i < s.end
  }

  /** Whether the run's `i`-th code point, drawn at column x + i, is in [minX, maxX). */
  predicate ColumnVisible(i: int, x: int, len: nat, minX: int, maxX: int) {
    0 <= i < len && minX <= x + i < maxX
  }

  /**
    The clamped index range of a run of `len` code points drawn from column
    `x`: exactly the code points whose column lies in [minX, maxX).
  */
  function TextSpan(x: int, len: nat, minX: int, maxX: int): (s: Span)
    ensures 0 <= s.start <= len && 0 <= s.end <= len
    ensures forall i :: InSpan(s, i) <==> ColumnVisible(i, x, len, minX, maxX)
  {
    Span(Max(0, Min(len, minX - x)), Max(0, Min(len, maxX - x)))
  }

  /** The first column renderText may write: 0 for margin roles, the margin width otherwise. */
  function TextMinX(color: Color, margin: nat): nat {
    if IsMargin(color) then 0 else margin
  }

  /** What renderText leaves in the cell at (row, col). */
  function TextRunCell(c: Cell, row: int, col: int, x: int, y: int, text: seq<nat>, color: Color,
                       margin: nat, width: nat, height: nat): Cell
  {
    var s := TextSpan(x, |text|, TextMinX(color, margin), width - 1);
    if 0 <= y < height && row == y && InSpan(s, col - x) then TextCell(c, text[col - x], color) else c
  }

  /** A cell on row `y` after the run's code points with index in [first, last) are painted. */
  function TextPartCell(c: Cell, row: int, col: int, x: int, y: int, text: seq<nat>, a: Attributes,
                        first: int, last: int): Cell
  {
    if row == y && 0 <= col - x < |text| && first <= col - x < last then PaintCell(c, text[col - x], a) else c
  }

  /** Painting one more code point of the run changes exactly the cell it lands on. */
  lemma TextPartStep(c: Cell, row: int, col: int, x: int, y: int, text: seq<nat>, a: Attributes,
                     first: int, last: int)
    requires 0 <= first <= last < |text|
    ensures row == y && col == x + last ==>
      TextPartCell(c, row, col, x, y, text, a, first, last) == c &&
      TextPartCell(c, row, col, x, y, text, a, first, last + 1) == PaintCell(c, text[last], a)
    ensures !(row == y && col == x + last) ==>
      TextPartCell(c, row, col, x, y, text, a, first, last + 1) == TextPartCell(c, row, col, x, y, text, a, first, last)
  {
  }

  /** The `k`-th code point renderText paints lies on the screen and in the run. */
  lemma TextSpanStep(x: int, len: nat, minX: nat, maxX: int, k: int)
    requires var s := TextSpan(x, len, minX, maxX); 0 <= k < Max(0, s.end - s.start)
    ensures var s := TextSpan(x, len, minX, maxX);
      0 <= s.start + k < len && minX <= x + s.start + k < maxX
  {
    var s := TextSpan(x, len, minX, maxX);
    assert InSpan(s, s.start + k);
  }

  /** Painting the whole clamped range of the run is what renderText leaves. */
  lemma TextPartIsRun(c: Cell, row: int, col: int, x: int, y: int, text: seq<nat>, color: Color,
                      margin: nat, width: nat, height: nat)
    requires 0 <= y < height
    ensures var s := TextSpan(x, |text|, TextMinX(color, margin), width - 1);
      TextPartCell(c, row, col, x, y, text, ColorAttributes(color), s.start, s.start + Max(0, s.end - s.start)) ==
      TextRunCell(c, row, col, x, y, text, color, margin, width, height)
  {
    var s := TextSpan(x, |text|, TextMinX(color, margin), width - 1);
    assert InSpan(s, col - x) <==> 0 <= col - x < |text| && s.start <= col - x < s.start + Max(0, s.end - s.start);
  }

  /** What renderCaret leaves in the cell at (row, col). */
  function CaretRunCell(c: Cell, row: int, col: int, x: int, y: int, visible: bool, width: nat, height: nat): Cell {
    if visible && 0 <= x < width && 0 <= y < height && row == y && col == x then CaretCell(c) else c
  }
}
