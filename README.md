# Terminal host of the Sky editor, modelled in Dafny

The terminal front end of the Sky editor (`terminal/terminal.cpp`) is a thin
host between the editing engine and an ncurses screen. This project models
its four pieces of logic and proves what each promises:

- **The cell compositor.** `renderRect`, `renderCaret` and `renderText`
  paint into a grid of character cells. The grid is an `array2<Cell>`
  (`Host.Host.cells`, rows by columns) instead of the ncurses screen. A cell
  is a record instead of a packed `chtype`: character byte, alternate-charset
  bit, bold and underline bits, and colour-pair index. The pair numbers are
  the ones the enum binds: 1 comment, 2 constant, 3 keyword, 4 margin,
  5 selected, 6 string, and 0 for the terminal default. Each paint method is
  proved against a pure per-cell function in module `Cells`. Module
  `Compositor` proves the painting rules about those functions: clipping,
  colour rule, glyph rule and idempotence.
- **Caret visibility and clipboard routing.** `showCarets`, `toggleCarets`,
  `triggerAction` and `insertASCII` are methods of the class `Host.Host`.
  The editing engine's view appears only in the form the host touches it:
  - its selection;
  - two queries, for the selection expanded to whole lines and for the text
    inside a selection;
  - a log of the calls the host makes on it (`insertText`, `changeSelection`,
    a forwarded `triggerAction`, `render`).

  The routing is the pure function `Clipboard.Route`, and
  `Host.Host.TriggerAction` is proved equal to it.
- **Input decoding.** `handleEscapeSequence` becomes the loop
  `Input.DecodeEscape`, proved against the recursive reader `Input.Scan` and the
  lookup `Input.EscapeTable`. `handleControlCharacter` becomes the table
  `Input.ControlTable`. Input is a sequence of read results: `Some(byte)`, or
  `None` for a read that timed out.
- **The main loop.** The blink counter and the dispatch chain are modelled
  twice:
  - as the session function `MainLoop.Step`, and `MainLoop.Run` over a whole
    input trace;
  - as the methods `MainLoop.Iteration` and `MainLoop.InputLoop` on a `Host`,
    which are proved to end in the state `Run` describes.

  Lemmas then state the loop's behaviour on concrete key sequences: blinking,
  quitting, escape sequences, control keys, typing, and copy followed by paste.

A `char` is taken to be signed, as on x86. A
byte from 0x80 up, once appended to the escape sequence's `std::string`, is
therefore negative and compares below `'@'` (`Input.SignedChar`,
`Input.HighByteContinues`).

## Model

| member | source | states |
|---|---|---|
| Cells.ColorAttributes | terminal/terminal.cpp:173-181 | each colour pair comes from exactly the roles the conditional lists for it (margin and highlighted margin 4, keyword and keyword constant 3, constant and number 2, comment 1, string 6); only a definition is bold, and then with the default pair; no role yields the selection pair |
| Cells.TextGlyph | terminal/terminal.cpp:194-197 | the alternate-charset bit is only ever set for a space (kept from the cell underneath) or for U+00B7 |
| Cells.TextSpan | terminal/terminal.cpp:186-188 | the clamped range [start, end) lies within the run and holds exactly the indices whose column x + i lies in [minX, maxX) |
| Cells.TextPartIsRun | terminal/terminal.cpp:186-198 | painting the indices start .. start + max(0, end - start) of the run with the role's attributes gives, cell by cell, what renderText leaves |
| Host.Host.constructor | terminal/terminal.cpp:219-224 | a fresh host shows its carets, has an empty clipboard and has made no view call; its screen is width by height blank cells |
| Host.Host.ShowCarets | terminal/terminal.cpp:29-31 | carets become visible |
| Host.Host.ToggleCarets | terminal/terminal.cpp:33-35 | caret visibility is negated |
| Host.Host.TriggerAction | terminal/terminal.cpp:49-67 | the new clipboard, view selection and view-call log are exactly those `Clipboard.Route` gives for the action and the old state |
| Host.Host.InsertAscii | terminal/terminal.cpp:69-71 | exactly one call is added to the log: the one-character insertion of the byte |
| Host.Host.Render | terminal/terminal.cpp:43-47 | exactly one repaint request is added to the log |
| Host.Host.RenderRect | terminal/terminal.cpp:129-146 | every cell of the grid ends as `RectCell` of its old value: the selection pair inside the clipped rectangle for the selection background, unchanged everywhere else |
| Host.Host.RenderCaret | terminal/terminal.cpp:148-157 | every cell ends as `CaretRunCell` of its old value: only the caret's cell, and only when carets are visible and the caret is on the screen, gains the underline bit |
| Host.Host.RenderText | terminal/terminal.cpp:165-201 | every cell ends as `TextRunCell` of its old value: only row y, when on the screen, at the columns of the clamped range, is rewritten from the code point and the role |
| Host.Host.PaintRun | terminal/terminal.cpp:189-200 | the read-modify-write loop leaves exactly the run's indices [first, first + n) painted with the given attributes and every other cell as it was |
| Compositor.RectOnlySelectedPaints | terminal/terminal.cpp:130 | any role other than the selection background leaves every cell unchanged |
| Compositor.RectEffect | terminal/terminal.cpp:131-143 | the selection background changes exactly the cells with column in [max(x, margin), min(x + width, screen width)) and row in [max(y, 0), min(y + height, screen height)); there the pair becomes the selection pair, and glyph, alternate charset, bold and underline are kept |
| Compositor.RectIdempotent | terminal/terminal.cpp:129-146 | painting the same rectangle twice leaves every cell as painting it once |
| Compositor.CaretNoOp | terminal/terminal.cpp:152-154 | a hidden caret, or one off the screen, leaves every cell unchanged |
| Compositor.CaretEffect | terminal/terminal.cpp:156 | a visible on-screen caret underlines its own cell, keeps that cell's glyph, alternate charset, bold bit and pair, and leaves every other cell unchanged |
| Compositor.CaretIdempotent | terminal/terminal.cpp:148-157 | painting the caret twice leaves every cell as painting it once |
| Compositor.TextBounds | terminal/terminal.cpp:169-191 | a cell renderText changes is on row y, which is on the screen; its column lies in [minX, screen width - 1), with minX 0 for margin roles and the margin width otherwise, so the last column is never written; and it lies within the run |
| Compositor.TextColorRule | terminal/terminal.cpp:193-198 | a written cell keeps a non-default pair and otherwise takes the role's pair; its bold bit is the role's; its underline is dropped |
| Compositor.TextGlyphRule | terminal/terminal.cpp:194-198 | a space keeps the cell's byte and alternate-charset bit; U+00B7 becomes '~' in the alternate charset; a code point above 0xFF becomes '?'; any other code point is written as it is |
| Compositor.TextCellIdempotent | terminal/terminal.cpp:193-198 | painting one code point twice in the same role equals painting it once |
| Compositor.TextIdempotent | terminal/terminal.cpp:165-201 | painting the same run twice leaves every cell as painting it once |
| Compositor.SelectedThenText | terminal/terminal.cpp:193-198 | text over a selection background keeps the selection pair and takes the role's bold bit; a space keeps the glyph underneath, and any other code point takes its usual glyph |
| Input.SignedChar | terminal/terminal.cpp:250-251 | a byte below 128 keeps its value once stored as a char; a byte from 128 up becomes negative |
| Input.EscapeTableExact | terminal/terminal.cpp:231-238 | each of the six actions is produced by exactly its table sequence ("[", "[3~", "[A", "[B", "[C", "[D") and no other; nothing else dispatches |
| Input.DecodeEscape | terminal/terminal.cpp:239-254 | the loop's result is exactly what the recursive reader `EscapeSequence` collects, looked up in the table, and it uses as many read results as that reader does |
| Input.ScanPrefix | terminal/terminal.cpp:242-251 | the reader uses a prefix of the input; every byte it appends is the next input byte, in order; the only other unit it uses is one final timeout |
| Input.ScanStops | terminal/terminal.cpp:242-251 | the loop condition held after every appended byte except the last; reading stopped because input ran out, a read timed out, or the condition failed; and a final timeout is read only while the sequence still continues, so nothing is read after the byte that ends it |
| Input.EscapeInterior | terminal/terminal.cpp:242-251 | every byte of the sequence strictly between its first and last is below '@' as a signed char, and the sequence is the input's leading bytes |
| Input.LoneEscape | terminal/terminal.cpp:242-257 | ESC followed by a timeout uses that one unit and dispatches nothing |
| Input.BracketThenTimeout | terminal/terminal.cpp:232-251 | ESC '[' followed by a timeout collects "[" using two units and selects the first region |
| Input.ArrowKey | terminal/terminal.cpp:234-251 | '[' followed by 'A', 'B', 'C' or 'D' ends the sequence after two bytes, whatever follows, and maps to up, down, right or left |
| Input.DeleteKey | terminal/terminal.cpp:233-251 | "[3~" is read as one sequence of three bytes: '3' continues the loop and '~' ends it |
| Input.HighByteContinues | terminal/terminal.cpp:250-251 | a byte from 0x80 up does not end the sequence: reading goes on past it |
| Input.ControlTableExact | terminal/terminal.cpp:261-268 | each shortcut is the image of exactly its letter: A select all, C copy, V paste, X cut, Y redo, Z undo; every other letter has none |
| Input.ClassifyExact | terminal/terminal.cpp:322-345 | each branch of the dispatch chain in terms of the read value alone: 27 escape, 17 quit, other codes below 32 except newline and tab control (letter c + 'A' - 1), 127 backspace, 32..126 and newline typed, tab and bytes above 127 ignored |
| MainLoop.ReadValue | terminal/terminal.cpp:304 | the value read is -1 exactly for a timeout and otherwise a byte |
| MainLoop.Step | terminal/terminal.cpp:303-349 | one iteration uses at least one read result and no more than remain |
| MainLoop.HandleKey | terminal/terminal.cpp:322-347 | the dispatch chain uses no more of the following input than there is |
| MainLoop.StepBlink | terminal/terminal.cpp:306-330 | the blink counter stays in 0..9; a timeout short of the tenth only counts and uses one unit; the tenth toggles the carets and resets the counter; a real key shows the carets and resets it; only Ctrl+Q quits; only ESC uses more than one unit |
| MainLoop.HandleKeyKeeps | terminal/terminal.cpp:322-347 | the dispatch chain keeps the counter and caret flag, sets quit exactly for Ctrl+Q, and reads further input only after ESC |
| MainLoop.HandleInput | terminal/terminal.cpp:322-347 | the chain on the host leaves the clipboard, selection and log that `HandleKey` gives, reports the same units used, and quits exactly when it does |
| MainLoop.Iteration | terminal/terminal.cpp:303-347 | one loop body on the host leaves the state, blink counter, units used and quit flag that `Step` gives |
| MainLoop.Advance | terminal/terminal.cpp:303-349 | one loop body moves strictly forward in the trace, and what remains of the loop from the new position is what remained from the old one |
| MainLoop.RunAdvance | terminal/terminal.cpp:303-349 | from position i, the loop is one `Step` followed by the loop on what that step leaves |
| MainLoop.InputLoop | terminal/terminal.cpp:297-349 | after the initial repaint and the loop over the whole trace, the host's caret flag, clipboard, selection and view-call log are those of `Run` from a reset counter |
| MainLoop.RunTimeouts | terminal/terminal.cpp:307-313 | timeouts short of the blink period only count: nothing else changes and nothing repaints |
| MainLoop.TimeoutCounts | terminal/terminal.cpp:307-313 | one timeout short of the period adds one to the counter and uses one unit, with no other effect |
| MainLoop.BlinkStep | terminal/terminal.cpp:307-347 | the timeout that completes the period toggles the carets, resets the counter and only repaints |
| MainLoop.TimeoutAtDispatch | terminal/terminal.cpp:333-347 | a timeout that reaches the dispatch chain is the control character '?', which has no shortcut, so it only repaints |
| MainLoop.BlinkOnce | terminal/terminal.cpp:307-320 | from a reset counter, ten timeouts toggle caret visibility exactly once, reset the counter and repaint exactly once |
| MainLoop.BlinkTwice | terminal/terminal.cpp:307-320 | twenty timeouts bring the carets back to where they were, with two repaints |
| MainLoop.QuitStops | terminal/terminal.cpp:317-330 | Ctrl+Q ends the loop at once, having shown the carets, without a repaint and without a view call |
| MainLoop.TypedKeyInserts | terminal/terminal.cpp:343-347 | printable ASCII and newline insert exactly that character and repaint; tab only repaints; the clipboard and selection are kept |
| MainLoop.BackspaceDeletes | terminal/terminal.cpp:338-347 | backspace forwards delete-left to the view, then repaints |
| MainLoop.ArrowUpMoves | terminal/terminal.cpp:322-347 | ESC '[' 'A' uses all three units, forwards move-up-line and repaints once |
| MainLoop.EscapeKeyStep | terminal/terminal.cpp:322-347 | for any input after ESC: the carets are shown, the decoder's sequence is looked up and its action (if any) dispatched, one repaint follows, and the iteration uses the ESC plus every unit the decoder read |
| MainLoop.HighByteIgnored | terminal/terminal.cpp:316-347 | a byte from 0x80 up shows the carets, matches no branch of the chain and only repaints, using one unit |
| MainLoop.ControlKeyStep | terminal/terminal.cpp:333-347 | a control character runs the shortcut of its letter, if it has one, and repaints |
| MainLoop.CopyKey | terminal/terminal.cpp:333-335 | Ctrl+C puts the text of the selection (or of its lines) on the clipboard, makes no other view call and repaints |
| MainLoop.PasteKey | terminal/terminal.cpp:333-335 | Ctrl+V inserts the clipboard and repaints |
| MainLoop.CopyThenPasteKeys | terminal/terminal.cpp:303-349 | Ctrl+C then Ctrl+V inserts exactly the copied text, leaves it on the clipboard and repaints once per key |
| Clipboard.Route | terminal/terminal.cpp:49-67 | only copy and cut change the clipboard; only cut changes the selection; copy alone makes no view call |
| Clipboard.CopyTakesSelection | terminal/terminal.cpp:50-52 | copy and cut take the text of the selection, or of the selection expanded to lines when it is empty |
| Clipboard.CutDeletesRange | terminal/terminal.cpp:54-57 | cut selects the copied range and then replaces it with the empty string |
| Clipboard.PasteInsertsClipboard | terminal/terminal.cpp:60-62 | paste inserts the clipboard unchanged and keeps both the clipboard and the selection |
| Clipboard.OthersForwarded | terminal/terminal.cpp:64-66 | every other action is forwarded to the view verbatim, changing nothing else |
| Clipboard.CopyThenPaste | terminal/terminal.cpp:49-66 | copy followed by paste makes exactly one view call, which inserts the copied text |

## Left out

- ncurses itself is not modelled: `initscr`, colour setup, `raw`/`noecho`/`curs_set`/`timeout`, `clear`/`refresh`, `getmaxx`/`getmaxy`. The screen is an in-memory grid of fixed size, and `getch` is an input trace.
- `render` is modelled as one logged repaint request. Its `clear()`, which blanks the screen before the view repaints, is not modelled: the model keeps the grid unchanged across a repaint (`Host.Host.Render` and the loop methods modify only the log and the host's other fields). The repainting the view does through the paint methods is the editing engine's, and the engine is not part of this model.
- The editing engine (`Editor::View`, `Editor::App`) is reduced to a selection, two queries and a call log. Its document edits, undo history, multiple selection regions and scrolling are not modelled. In particular `insertText`, a forwarded action and a paste do not change the selection the host holds.
- UTF-8 decoding of the text (`std::wstring_convert`) is a library call. `renderText` takes its text as a sequence of code points.
- The font and alpha parameters of `renderText`, and the colour parameter of `renderCaret`, are ignored by the source. They are not parameters of the model.
- Coordinates arrive as `double` and are converted with `(int)` casts. The caret and text paths assert that they are integral. The model takes all coordinates as `int`, so `renderRect`'s truncation of fractional coordinates is not modelled.
- `handleResize` is not modelled, because its inputs come from ncurses. The view's width of `_width - 1` shows up only as the last column that `renderText` never writes.
- `setView`'s startup actions and help text are not modelled: the engine calls it once at startup, and its effects are the engine's. So are `nowInSeconds` (wall clock and floating point), the empty overrides, `createGlyphProvider`/`createWindow`/`renderer`, the GC hooks and the `Log` stubs.
- Read values of 256 and up (`KEY_RESIZE` and other ncurses key codes) are not modelled. Input units are bytes or timeouts.
- End of input: running out of input inside the escape decoder counts as a timeout that uses nothing, and the main loop ends when the trace does. The real program never ends that way: `getch` times out after 50 ms, so after the last key it goes on reading timeouts, toggling the carets and repainting on every tenth one; a trace of timeouts models that.
- `char` signedness is fixed as signed. On a platform with unsigned `char`, such as ARM Linux, bytes from 0x80 up would end an escape sequence instead of continuing it.
- MainLoop.Step: its own contract only bounds the units used. What an iteration does is stated by `MainLoop.StepBlink` and, for every class of key, by `MainLoop.TimeoutCounts`, `MainLoop.BlinkStep`, `MainLoop.EscapeKeyStep`, `MainLoop.QuitStops`, `MainLoop.ControlKeyStep`, `MainLoop.BackspaceDeletes`, `MainLoop.TypedKeyInserts` and `MainLoop.HighByteIgnored`.
- MainLoop.HandleKey: its own contract only bounds the units used. What it does is stated by `MainLoop.HandleKeyKeeps`, `MainLoop.HandleInput` and the per-class key lemmas listed for `MainLoop.Step`.
