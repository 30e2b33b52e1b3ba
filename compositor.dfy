/**
  Properties of the cell compositor: what each paint operation may change in
  a cell, what it keeps, and that painting the same thing twice is the same
  as painting it once.
*/
module Compositor {
  import opened Cells

  /** Only the selection background paints anything. */
  lemma RectOnlySelectedPaints(c: Cell, row: int, col: int, r: Rect, color: Color, margin: nat, width: nat, height: nat)
    requires color != BackgroundSelected
    ensures RectCell(c, row, col, r, color, margin, width, height) == c
  {
  }

  /**
    A selection background changes exactly the cells of the clipped rectangle,
    sets their pair to the selection pair and keeps glyph, alternate charset,
    bold and underline.
  */
  lemma RectEffect(c: Cell, row: int, col: int, r: Rect, margin: nat, width: nat, height: nat)
    ensures var d := RectCell(c, row, col, r, BackgroundSelected, margin, width, height);
      && d.glyph == c.glyph && d.alt == c.alt && d.bold == c.bold && d.underline == c.underline
      && (InSelectedRect(row, col, r, margin, width, height) ==> d.pair == SelectedPair)
      && (!InSelectedRect(row, col, r, margin, width, height) ==> d == c)
      && (InSelectedRect(row, col, r, margin, width, height) ==>
            0 <= row < height && margin <= col < width && r.x <= col < r.x + r.width && r.y <= row < r.y + r.height)
  {
  }

  lemma RectIdempotent(c: Cell, row: int, col: int, r: Rect, color: Color, margin: nat, width: nat, height: nat)
    ensures var once := RectCell(c, row, col, r, color, margin, width, height);
      RectCell(once, row, col, r, color, margin, width, height) == once
  {
  }

  /** A hidden caret, or one off the screen, paints nothing. */
  lemma CaretNoOp(c: Cell, row: int, col: int, x: int, y: int, visible: bool, width: nat, height: nat)
    requires !visible || x < 0 || y < 0 || x >= width || y >= height
    ensures CaretRunCell(c, row, col, x, y, visible, width, height) == c
  {
  }

  /** A visible caret on the screen underlines its one cell and keeps its glyph and colour. */
  lemma CaretEffect(c: Cell, row: int, col: int, x: int, y: int, width: nat, height: nat)
    requires 0 <= x < width && 0 <= y < height
    ensures var d := CaretRunCell(c, row, col, x, y, true, width, height);
      && d.glyph == c.glyph && d.alt == c.alt && d.bold == c.bold && d.pair == c.pair
      && (row == y && col == x ==> d.underline)
      && (row != y || col != x ==> d == c)
  {
  }

  lemma CaretIdempotent(c: Cell, row: int, col: int, x: int, y: int, visible: bool, width: nat, height: nat)
    ensures var once := CaretRunCell(c, row, col, x, y, visible, width, height);
      CaretRunCell(once, row, col, x, y, visible, width, height) == once
  {
  }

  /**
    renderText changes only cells on row `y` of the screen, at columns from
    the role's first column up to but excluding the last screen column, and
    only where the run's code point lands.
  */
  lemma TextBounds(c: Cell, row: int, col: int, x: int, y: int, text: seq<nat>, color: Color,
                   margin: nat, width: nat, height: nat)
    requires TextRunCell(c, row, col, x, y, text, color, margin, width, height) != c
    ensures 0 <= y < height && row == y
    ensures TextMinX(color, margin) <= col < width - 1
    ensures 0 <= col - x < |text|
  {
  }

  /**
    Colour rule of a written cell: a non-default pair is kept, a default pair
    takes the role's pair; bold is the role's; underline is dropped.
  */
  lemma TextColorRule(c: Cell, cp: nat, color: Color)
    ensures var d := TextCell(c, cp, color);
      && (c.pair != DefaultPair ==> d.pair == c.pair)
      && (c.pair == DefaultPair ==> d.pair == ColorAttributes(color).pair)
      && d.bold == (color == ForegroundDefinition)
      && !d.underline
  {
  }

  /** Glyph rule of a written cell. */
  lemma TextGlyphRule(c: Cell, cp: nat, color: Color)
    ensures var d := TextCell(c, cp, color);
      && (cp == Space ==> d.glyph == c.glyph && d.alt == c.alt)
      && (cp == MiddleDot ==> d.glyph == Tilde && d.alt)
      && (cp > 0xFF ==> d.glyph == Question && !d.alt)
      && (cp != Space && cp != MiddleDot && cp <= 0xFF ==> d.glyph == cp && !d.alt)
  {
  }

  /** Painting the same code point in the same role twice equals painting it once. */
  lemma TextCellIdempotent(c: Cell, cp: nat, color: Color)
    ensures TextCell(TextCell(c, cp, color), cp, color) == TextCell(c, cp, color)
  {
  }

  /** Painting the same run twice leaves every cell as painting it once. */
  lemma TextIdempotent(c: Cell, row: int, col: int, x: int, y: int, text: seq<nat>, color: Color,
                       margin: nat, width: nat, height: nat)
    ensures var once := TextRunCell(c, row, col, x, y, text, color, margin, width, height);
      TextRunCell(once, row, col, x, y, text, color, margin, width, height) == once
  {
    var once := TextRunCell(c, row, col, x, y, text, color, margin, width, height);
    if once != c {
      TextCellIdempotent(c, text[col - x], color);
    }
  }

  /**
    Text over a selection background: the cell keeps the selection pair and
    takes the role's bold bit; its glyph is the requested one, except that a
    space leaves the glyph under it.
  */
  lemma SelectedThenText(c: Cell, cp: nat, color: Color)
    ensures var d := TextCell(SelectedCell(c), cp, color);
      && d.pair == SelectedPair
      && d.bold == ColorAttributes(color).bold
      && (cp == Space ==> d.glyph == c.glyph && d.alt == c.alt)
      && (cp != Space ==> GlyphOf(d) == TextGlyph(c, cp))
  {
  }
}
