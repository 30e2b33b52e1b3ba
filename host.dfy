/**
  The terminal host: the object the editing engine paints through and sends
  editing requests to. It owns the screen (a grid of cells, rows by
  columns), the caret-visibility flag and the clipboard string; the view it
  drives is represented by its selection, two queries, and a log of the
  calls made on it.
*/
module Host {
  import opened Wrappers
  import opened Actions
  import opened Cells
  import opened Clipboard

  class Host {
    /** The screen: `cells[row, col]`, `Height()` rows of `Width()` columns. */
    var cells: array2<Cell>
    /** The width the view reserves for its margin (line numbers). */
    var marginWidth: nat
    var caretsVisible: bool
    var clipboard: string
    /** The view's selection, as last set through the host. */
    var selection: Selection
    /** Every call the host has made on the view, in order. */
    var log: seq<ViewCall>
    /** The view's query for the selection expanded to whole lines. */
    const expand: Selection -> Selection
    /** The view's query for the text inside a selection. */
    const textIn: Selection -> string

    function Width(): nat reads this { cells.Length1 }
    function Height(): nat reads this { cells.Length0 }

    constructor (width: nat, height: nat, blank: Cell, marginWidth: nat, selection: Selection,
                 expand: Selection -> Selection, textIn: Selection -> string)
      ensures fresh(cells) && Width() == width && Height() == height
      ensures forall row, col :: 0 <= row < height && 0 <= col < width ==> cells[row, col] == blank
      ensures this.marginWidth == marginWidth && this.selection == selection
      ensures this.expand == expand && this.textIn == textIn
      ensures caretsVisible && clipboard == "" && log == []
    {
      cells := new Cell[height, width]((row, col) => blank);
      this.marginWidth := marginWidth;
      caretsVisible := true;
      clipboard := "";
      this.selection := selection;
      log := [];
      this.expand := expand;
      this.textIn := textIn;
    }

    method ShowCarets()
      modifies this`caretsVisible
      ensures caretsVisible
    {
      caretsVisible := true;
    }

    method ToggleCarets()
      modifies this`caretsVisible
      ensures caretsVisible == !old(caretsVisible)
    {
      caretsVisible := !caretsVisible;
    }

    /** Routes one action through the clipboard or on to the view. */
    method TriggerAction(action: Action)
      modifies this`clipboard, this`selection, this`log
      ensures var r := Route(action, old(clipboard), old(selection), expand, textIn);
        clipboard == r.clipboard && selection == r.selection && log == old(log) + r.calls
    {
      if action == Cut || action == Copy {
        var range := if selection.IsEmpty() then expand(selection) else selection;
        clipboard := textIn(range);
        if action == Cut {
          selection := range;
          log := log + [ChangeSelection(range)];
          log := log + [InsertText("")];
        }
      } else if action == Paste {
        log := log + [InsertText(clipboard)];
      } else {
        log := log + [Forward(action)];
      }
    }

    /** Inserts one typed character into the view. */
    method InsertAscii(c: Byte)
      modifies this`log
      ensures log == old(log) + [InsertText([c as char])]
    {
      log := log + [InsertText([c as char])];
    }

    /** Asks the view to repaint the screen. */
    method Render()
      modifies this`log
      ensures log == old(log) + [ViewCall.Render]
    {
      log := log + [ViewCall.Render];
    }

    /**
      Paints a background rectangle. Only the selection background does
      anything: it gives every cell of the rectangle, clipped to the screen
      and to the right of the margin, the selection pair.
    */
    method RenderRect(x: int, y: int, width: int, height: int, color: Color)
      modifies cells
      ensures forall row, col :: 0 <= row < Height() && 0 <= col < Width() ==>
        cells[row, col] == RectCell(old(cells[row, col]), row, col, Rect(x, y, width, height), color,
                                    marginWidth, Width(), Height())
    {
      if color == BackgroundSelected {
        var r := Rect(x, y, width, height);
        var minX := Max(x, marginWidth);
        var minY := Max(y, 0);
        var maxX := Min(x + width, Width());
        var maxY := Min(y + height, Height());
        var n := Max(0, maxX - minX);
        var row := minY;
        while row < maxY
          invariant minY <= row
          invariant forall i, j :: 0 <= i < Height() && 0 <= j < Width() ==>
            cells[i, j] == if i < row then RectCell(old(cells[i, j]), i, j, r, color, marginWidth, Width(), Height())
                           else old(cells[i, j])
        {
          var k := 0;
          while k < n
            invariant 0 <= k <= n
            invariant forall i, j :: 0 <= i < Height() && 0 <= j < Width() ==>
              cells[i, j] == if i < row || (i == row && minX <= j < minX + k)
                             then RectCell(old(cells[i, j]), i, j, r, color, marginWidth, Width(), Height())
                             else old(cells[i, j])
          {
            cells[row, minX + k] := SelectedCell(cells[row, minX + k]);
            k := k + 1;
          }
          row := row + 1;
        }
      }
    }

    /** Underlines the cell under a visible caret that lies on the screen. */
    method RenderCaret(x: int, y: int)
      modifies cells
      ensures forall row, col :: 0 <= row < Height() && 0 <= col < Width() ==>
        cells[row, col] == CaretRunCell(old(cells[row, col]), row, col, x, y, caretsVisible, Width(), Height())
    {
      if !caretsVisible || x < 0 || y < 0 || x >= Width() || y >= Height() {
        return;
      }
      cells[y, x] := CaretCell(cells[y, x]);
    }

    /**
      Paints a run of code points from column `x` on row `y`, one cell per
      code point, clipped to the role's first column and to all but the last
      screen column.
    */
    method RenderText(x: int, y: int, text: seq<nat>, color: Color)
      modifies cells
      ensures forall row, col :: 0 <= row < Height() && 0 <= col < Width() ==>
        cells[row, col] == TextRunCell(old(cells[row, col]), row, col, x, y, text, color,
                                       marginWidth, Width(), Height())
    {
      if y < 0 || y >= Height() {
        return;
      }
      var minX := TextMinX(color, marginWidth);
      var maxX := Width() - 1;
      var span := TextSpan(x, |text|, minX, maxX);
      var n := Max(0, span.end - span.start);
      if n > 0 {
        TextSpanStep(x, |text|, minX, maxX, 0);
        TextSpanStep(x, |text|, minX, maxX, n - 1);
      }
      PaintRun(x, y, text, ColorAttributes(color), span.start, n);
      forall i, j | 0 <= i < Height() && 0 <= j < Width()
        ensures cells[i, j] == TextRunCell(old(cells[i, j]), i, j, x, y, text, color, marginWidth, Width(), Height())
      {
        TextPartIsRun(old(cells[i, j]), i, j, x, y, text, color, marginWidth, Width(), Height());
      }
    }

    /**
      The read-modify-write of renderText: paints the run's code points with
      index in [first, first + n) with attributes `a`, one cell each.
    */
    method PaintRun(x: int, y: int, text: seq<nat>, a: Attributes, first: int, n: nat)
      requires 0 <= y < Height()
      requires 0 <= first && first + n <= |text|
      requires n > 0 ==> 0 <= x + first && x + first + n <= Width()
      modifies cells
      ensures forall i, j :: 0 <= i < Height() && 0 <= j < Width() ==>
        cells[i, j] == TextPartCell(old(cells[i, j]), i, j, x, y, text, a, first, first + n)
    {
      var k := 0;
      while k < n
        invariant 0 <= k <= n
        invariant forall i, j :: 0 <= i < Height() && 0 <= j < Width() ==>
          cells[i, j] == TextPartCell(old(cells[i, j]), i, j, x, y, text, a, first, first + k)
      {
        var col := x + first + k;
        label Before:
        cells[y, col] := PaintCell(cells[y, col], text[first + k], a);
        forall i, j | 0 <= i < Height() && 0 <= j < Width()
          ensures cells[i, j] == TextPartCell(old(cells[i, j]), i, j, x, y, text, a, first, first + k + 1)
        {
          TextPartStep(old(cells[i, j]), i, j, x, y, text, a, first, first + k);
          if i != y || j != col {
            assert cells[i, j] == old@Before(cells[i, j]);
          }
        }
        k := k + 1;
      }
    }
  }
}
