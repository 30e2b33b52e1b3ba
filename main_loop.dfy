/**
  The program's input loop: read one unit with a timeout, count timeouts to
  blink the carets, and dispatch every real key (escape sequences, Ctrl+Q,
  control shortcuts, backspace, typed text), repainting after each handled
  unit.

  `Session` is the state the loop works on: its blink counter and the
  host's caret flag, clipboard, view selection and log of view calls
  (a repaint request is logged as `Render`). `Step` is one iteration and
  `Run` the loop over a whole input trace; `InputLoop` is the loop itself
  on a `Host`, proved to end in the state `Run` describes.
*/
module MainLoop {
  import opened Wrappers
  import opened Actions
  import opened Input
  import opened Clipboard
  import opened Host

  /** The number of consecutive timeouts after which the carets blink. */
  const BlinkPeriod: int := 10

  datatype Session = Session(blink: int, visible: bool, clipboard: string, selection: Selection,
                             log: seq<ViewCall>, quit: bool)

  /** The value the loop reads: the byte, or -1 for a timeout. */
  function ReadValue(u: Unit): (c: int)
    ensures -1 <= c < 256
    ensures c == -1 <==> u.None?
  {
    if u.None? then -1 else u.value
  }

  /** Hands `action`, when there is one, to the host's routing. */
  function Dispatch(s: Session, action: Option<Action>, expand: Selection -> Selection,
                    textIn: Selection -> string): Session
  {
    match action
    case None => s
    case Some(a) =>
      var r := Route(a, s.clipboard, s.selection, expand, textIn);
      s.(clipboard := r.clipboard, selection := r.selection, log := s.log + r.calls)
  }

  function Repainted(s: Session): Session {
    s.(log := s.log + [ViewCall.Render])
  }

  /**
    One iteration of the loop on the input that remains: the new session and
    the number of units used. A timeout only counts, except every tenth,
    which toggles the carets, goes down the dispatch chain as the control
    character '?' (which has no shortcut) and repaints. A real key shows the
    carets and resets the counter; Ctrl+Q quits without repainting.
  */
  function Step(s: Session, input: seq<Unit>, expand: Selection -> Selection,
                textIn: Selection -> string): (r: (Session, nat))
    requires |input| > 0
    ensures 1 <= r.1 <= |input|
  {
    var c := ReadValue(input[0]);
    if c == -1 && s.blink + 1 != BlinkPeriod then (s.(blink := s.blink + 1), 1)
    else
      var t := if c == -1 then s.(visible := !s.visible, blink := 0) else s.(visible := true, blink := 0);
      var k := HandleKey(t, c, input[1..], expand, textIn);
      (k.0, 1 + k.1)
  }

  /**
    The dispatch chain for read value `c` once the blink counter has been
    dealt with; `after` is the input that follows it. Returns the new session
    and the number of units of `after` used.
  */
  function HandleKey(t: Session, c: int, after: seq<Unit>, expand: Selection -> Selection,
                     textIn: Selection -> string): (r: (Session, nat))
    requires -1 <= c < 256
    ensures r.1 <= |after|
  {
    match Classify(c)
    case EscapeKey =>
      var d := EscapeSequence(after);
      ScanPrefix(after, []);
      (Repainted(Dispatch(t, EscapeTable(d.sequence), expand, textIn)), d.consumed)
    case QuitKey => (t.(quit := true), 0)
    case ControlKey(letter) => (Repainted(Dispatch(t, ControlTable(letter), expand, textIn)), 0)
    case BackspaceKey => (Repainted(Dispatch(t, Some(DeleteLeftCharacter), expand, textIn)), 0)
    case TypedKey(b) => (Repainted(t.(log := t.log + [InsertText([b as char])])), 0)
    case IgnoredKey => (Repainted(t), 0)
  }

  /**
    What one iteration does to the blink counter, the caret flag and the quit
    flag: the counter stays below the period; a timeout short of the period
    only counts; the period's timeout toggles the carets; a real key shows
    them and resets the counter; only Ctrl+Q quits, and only it and an
    escape sequence use more or fewer units than one.
  */
  lemma StepBlink(s: Session, input: seq<Unit>, expand: Selection -> Selection, textIn: Selection -> string)
    requires |input| > 0
    ensures var r := Step(s, input, expand, textIn);
      && (0 <= s.blink < BlinkPeriod ==> 0 <= r.0.blink < BlinkPeriod)
      && (input[0].Some? ==> r.0.visible && r.0.blink == 0)
      && (input[0].None? && s.blink + 1 != BlinkPeriod ==> r == (s.(blink := s.blink + 1), 1))
      && (input[0].None? && s.blink + 1 == BlinkPeriod ==> r.0.visible == !s.visible && r.0.blink == 0)
      && (r.0.quit <==> s.quit || input[0] == Some(QuitByte))
      && (r.1 != 1 ==> input[0] == Some(EscapeByte))
  {
    var c := ReadValue(input[0]);
    if !(c == -1 && s.blink + 1 != BlinkPeriod) {
      var t := if c == -1 then s.(visible := !s.visible, blink := 0) else s.(visible := true, blink := 0);
      HandleKeyKeeps(t, c, input[1..], expand, textIn);
    }
  }

  /** The dispatch chain keeps the counter and the caret flag, and sets quit only for Ctrl+Q. */
  lemma HandleKeyKeeps(t: Session, c: int, after: seq<Unit>, expand: Selection -> Selection,
                       textIn: Selection -> string)
    requires -1 <= c < 256
    ensures var r := HandleKey(t, c, after, expand, textIn);
      && r.0.blink == t.blink && r.0.visible == t.visible
      && (r.0.quit <==> t.quit || c == QuitByte)
      && (r.1 > 0 ==> c == EscapeByte)
  {
  }

  /** The loop over a whole input trace; it ends when the trace does or on Ctrl+Q. */
  function Run(s: Session, input: seq<Unit>, expand: Selection -> Selection,
               textIn: Selection -> string): Session
    decreases |input|
  {
    if |input| == 0 || s.quit then s
    else
      var r := Step(s, input, expand, textIn);
      Run(r.0, input[r.1..], expand, textIn)
  }

  /** The host's part of a session. */
  predicate HostIs(host: Host, s: Session)
    reads host
  {
    host.caretsVisible == s.visible && host.clipboard == s.clipboard &&
    host.selection == s.selection && host.log == s.log
  }

  /**
    The dispatch chain of one iteration on the host, for read value `c`
    with `after` the input that follows; returns the units of `after` used
    and whether the loop quits.
  */
  method HandleInput(host: Host, blink: int, c: int, after: seq<Unit>) returns (used: nat, quit: bool)
    requires -1 <= c < 256
    modifies host`clipboard, host`selection, host`log
    ensures var r := HandleKey(Session(blink, host.caretsVisible, old(host.clipboard), old(host.selection), old(host.log), false),
                               c, after, host.expand, host.textIn);
      HostIs(host, r.0) && used == r.1 && quit == r.0.quit
  {
    used, quit := 0, false;
    if c == EscapeByte {
      var action;
      action, used := DecodeEscape(after);
      if action.Some? {
        host.TriggerAction(action.value);
      }
    } else if c == QuitByte {
      quit := true;
    } else if c < 32 && c != Newline && c != Tab {
      var action := ControlTable(c + 'A' as int - 1);
      if action.Some? {
        host.TriggerAction(action.value);
      }
    } else if c == BackspaceByte {
      host.TriggerAction(DeleteLeftCharacter);
    } else if (32 <= c < 127) || c == Newline {
      host.InsertAscii(c);
    }
    if !quit {
      host.Render();
    }
  }

  /**
    The program's main loop over an input trace: one repaint up front, then
    one iteration per unit read, until the trace ends or Ctrl+Q is read.
  */
  method InputLoop(host: Host, input: seq<Unit>)
    modifies host`caretsVisible, host`clipboard, host`selection, host`log
    ensures HostIs(host, Run(Session(0, old(host.caretsVisible), old(host.clipboard), old(host.selection),
                                     old(host.log) + [ViewCall.Render], false),
                             input, host.expand, host.textIn))
  {
    ghost var cur := Session(0, host.caretsVisible, host.clipboard, host.selection,
                             host.log + [ViewCall.Render], false);
    ghost var final := Run(cur, input, host.expand, host.textIn);
    host.Render();
    var blink := 0;
    var quit := false;
    var i := 0;
    assert input[0..] == input;
    while i < |input| && !quit
      invariant 0 <= i <= |input|
      invariant HostIs(host, cur) && cur.blink == blink && cur.quit == quit
      invariant final == Run(cur, input[i..], host.expand, host.textIn)
      decreases |input| - i
    {
      blink, i, quit, cur := Advance(host, cur, blink, input, i);
    }
    RunDone(cur, input[i..], host.expand, host.textIn);
  }

  /**
    One iteration at position `i` of the trace, stated as the loop needs it:
    the rest of the loop from the new position and session is the rest of
    the loop from the old ones.
  */
  method Advance(host: Host, ghost s: Session, blink: int, input: seq<Unit>, i: nat)
    returns (blink': int, i': nat, quit: bool, ghost s': Session)
    requires i < |input| && HostIs(host, s) && s.blink == blink && !s.quit
    modifies host`caretsVisible, host`clipboard, host`selection, host`log
    ensures i < i' <= |input| && HostIs(host, s') && s'.blink == blink' && s'.quit == quit
    ensures Run(s, input[i..], host.expand, host.textIn) == Run(s', input[i'..], host.expand, host.textIn)
  {
    RunAdvance(s, input, i, host.expand, host.textIn);
    ghost var step := Step(s, input[i..], host.expand, host.textIn);
    var used;
    blink', used, quit := Iteration(host, s, blink, input[i..]);
    i' := i + used;
    s' := step.0;
  }

  /** One iteration of the loop at position `i` of the trace advances the position by the units it uses. */
  lemma RunAdvance(s: Session, input: seq<Unit>, i: nat, expand: Selection -> Selection, textIn: Selection -> string)
    requires i < |input| && !s.quit
    ensures var r := Step(s, input[i..], expand, textIn);
      i + r.1 <= |input| && Run(s, input[i..], expand, textIn) == Run(r.0, input[i + r.1..], expand, textIn)
  {
    var r := Step(s, input[i..], expand, textIn);
    RunUnfold(s, input[i..], expand, textIn);
    assert input[i..][r.1..] == input[i + r.1..];
  }

  /** The loop stops once the trace is used up or the session has quit. */
  lemma RunDone(s: Session, input: seq<Unit>, expand: Selection -> Selection, textIn: Selection -> string)
    requires |input| == 0 || s.quit
    ensures Run(s, input, expand, textIn) == s
  {
  }

  /** The loop runs one step, then the rest. */
  lemma RunUnfold(s: Session, input: seq<Unit>, expand: Selection -> Selection, textIn: Selection -> string)
    requires |input| > 0 && !s.quit
    ensures var r := Step(s, input, expand, textIn);
      Run(s, input, expand, textIn) == Run(r.0, input[r.1..], expand, textIn)
  {
  }

  /** A step that uses one unit and does not quit hands the rest of the trace to the loop. */
  lemma RunOne(s: Session, u: Unit, rest: seq<Unit>, next: Session, expand: Selection -> Selection,
               textIn: Selection -> string)
    requires !s.quit && Step(s, [u] + rest, expand, textIn) == (next, 1)
    ensures Run(s, [u] + rest, expand, textIn) == Run(next, rest, expand, textIn)
  {
    RunUnfold(s, [u] + rest, expand, textIn);
    assert ([u] + rest)[1..] == rest;
  }

  /**
    One iteration of the loop body on the host, on the input that remains:
    read one unit; count a timeout and, short of the blink period, go on to
    the next iteration at once; otherwise run the dispatch chain.
  */
  method Iteration(host: Host, ghost s: Session, blink: int, input: seq<Unit>) returns (blink': int, used: nat, quit: bool)
    requires |input| > 0
    requires HostIs(host, s) && s.blink == blink && !s.quit
    modifies host`caretsVisible, host`clipboard, host`selection, host`log
    ensures var r := Step(s, input, host.expand, host.textIn);
      HostIs(host, r.0) && blink' == r.0.blink && used == r.1 && quit == r.0.quit
  {
    var c := ReadValue(input[0]);
    blink' := blink;
    if c == -1 {
      blink' := blink' + 1;
      if blink' == BlinkPeriod {
        host.ToggleCarets();
        blink' := 0;
      } else {
        return blink', 1, false;
      }
    } else {
      host.ShowCarets();
      blink' := 0;
    }
    used, quit := HandleInput(host, blink', c, input[1..]);
    used := used + 1;
  }

  /** A trace of `k` consecutive timeouts. */
  function Timeouts(k: nat): (t: seq<Unit>)
    ensures |t| == k && forall i :: 0 <= i < k ==> t[i] == None
  {
    seq(k, _ => None)
  }

  /** A trace of timeouts starts with one timeout. */
  lemma TimeoutsCons(k: nat, rest: seq<Unit>)
    requires k > 0
    ensures Timeouts(k) + rest == [None] + (Timeouts(k - 1) + rest)
  {
    assert Timeouts(k) == [None] + Timeouts(k - 1);
  }

  /** Timeouts short of the blink period only count: nothing else changes and nothing repaints. */
  lemma {:induction false} RunTimeouts(s: Session, k: nat, rest: seq<Unit>, expand: Selection -> Selection,
                                       textIn: Selection -> string)
    requires !s.quit && 0 <= s.blink && s.blink + k < BlinkPeriod
    ensures Run(s, Timeouts(k) + rest, expand, textIn) == Run(s.(blink := s.blink + k), rest, expand, textIn)
    decreases k
  {
    if k > 0 {
      var after := Timeouts(k - 1) + rest;
      TimeoutsCons(k, rest);
      var next := s.(blink := s.blink + 1);
      TimeoutCounts(s, [None] + after, expand, textIn);
      RunOne(s, None, after, next, expand, textIn);
      RunTimeouts(next, k - 1, rest, expand, textIn);
    } else {
      assert Timeouts(0) + rest == rest;
    }
  }

  /** A timeout short of the blink period only counts. */
  lemma TimeoutCounts(s: Session, input: seq<Unit>, expand: Selection -> Selection, textIn: Selection -> string)
    requires |input| > 0 && input[0] == None && s.blink + 1 != BlinkPeriod
    ensures Step(s, input, expand, textIn) == (s.(blink := s.blink + 1), 1)
  {
  }

  /**
    From a reset counter, the blink period's worth of timeouts toggles caret
    visibility once, resets the counter and repaints once.
  */
  lemma BlinkOnce(s: Session, rest: seq<Unit>, expand: Selection -> Selection, textIn: Selection -> string)
    requires !s.quit && s.blink == 0
    ensures Run(s, Timeouts(BlinkPeriod) + rest, expand, textIn) ==
            Run(s.(visible := !s.visible, log := s.log + [ViewCall.Render]), rest, expand, textIn)
  {
    assert Timeouts(BlinkPeriod) + rest == Timeouts(BlinkPeriod - 1) + ([None] + rest);
    RunTimeouts(s, BlinkPeriod - 1, [None] + rest, expand, textIn);
    var t := s.(blink := BlinkPeriod - 1);
    BlinkStep(t, rest, expand, textIn);
    RunOne(t, None, rest, t.(blink := 0, visible := !t.visible, log := t.log + [ViewCall.Render]), expand, textIn);
  }

  /**
    The timeout that completes the blink period toggles the carets, resets
    the counter and, as the control character '?' that has no shortcut,
    only repaints.
  */
  lemma BlinkStep(t: Session, rest: seq<Unit>, expand: Selection -> Selection, textIn: Selection -> string)
    requires t.blink == BlinkPeriod - 1
    ensures Step(t, [None] + rest, expand, textIn) ==
            (t.(blink := 0, visible := !t.visible, log := t.log + [ViewCall.Render]), 1)
  {
    var u := t.(visible := !t.visible, blink := 0);
    TimeoutAtDispatch(u, rest, expand, textIn);
    assert ([None] + rest)[0] == None && ([None] + rest)[1..] == rest;
  }

  /** A timeout that reaches the dispatch chain only repaints. */
  lemma TimeoutAtDispatch(u: Session, after: seq<Unit>, expand: Selection -> Selection, textIn: Selection -> string)
    ensures HandleKey(u, -1, after, expand, textIn) == (Repainted(u), 0)
  {
    assert Classify(-1) == ControlKey('?' as int);
    assert ControlTable('?' as int) == None;
  }

  /** Twice the blink period's worth of timeouts brings visibility back, with two repaints. */
  lemma BlinkTwice(s: Session, rest: seq<Unit>, expand: Selection -> Selection, textIn: Selection -> string)
    requires !s.quit && s.blink == 0
    ensures Run(s, Timeouts(2 * BlinkPeriod) + rest, expand, textIn) ==
            Run(s.(log := s.log + [ViewCall.Render, ViewCall.Render]), rest, expand, textIn)
  {
    assert Timeouts(2 * BlinkPeriod) + rest == Timeouts(BlinkPeriod) + (Timeouts(BlinkPeriod) + rest);
    BlinkOnce(s, Timeouts(BlinkPeriod) + rest, expand, textIn);
    var t := s.(visible := !s.visible, log := s.log + [ViewCall.Render]);
    BlinkOnce(t, rest, expand, textIn);
    assert t.(visible := !t.visible, log := t.log + [ViewCall.Render]) ==
           s.(log := s.log + [ViewCall.Render, ViewCall.Render]);
  }

  /** Ctrl+Q ends the loop at once, without a repaint and without touching the view. */
  lemma QuitStops(s: Session, rest: seq<Unit>, expand: Selection -> Selection, textIn: Selection -> string)
    requires !s.quit
    ensures Run(s, [Some(QuitByte)] + rest, expand, textIn) == s.(visible := true, blink := 0, quit := true)
  {
    var input := [Some(QuitByte)] + rest;
    assert Step(s, input, expand, textIn) == (s.(visible := true, blink := 0, quit := true), 1);
  }

  /**
    A typed key (printable ASCII or newline) inserts that one character and
    repaints; a tab only repaints.
  */
  lemma TypedKeyInserts(s: Session, c: Byte, rest: seq<Unit>, expand: Selection -> Selection,
                        textIn: Selection -> string)
    requires 32 <= c < 127 || c == Newline || c == Tab
    ensures var r := Step(s, [Some(c)] + rest, expand, textIn);
      && r.1 == 1
      && r.0.clipboard == s.clipboard && r.0.selection == s.selection
      && r.0.log == s.log + (if c == Tab then [] else [InsertText([c as char])]) + [ViewCall.Render]
  {
    var input := [Some(c)] + rest;
    assert input[0] == Some(c);
  }

  /** Backspace deletes the character to the left and repaints. */
  lemma BackspaceDeletes(s: Session, rest: seq<Unit>, expand: Selection -> Selection, textIn: Selection -> string)
    ensures Step(s, [Some(BackspaceByte)] + rest, expand, textIn).0.log ==
            s.log + [Forward(DeleteLeftCharacter), ViewCall.Render]
  {
    var input := [Some(BackspaceByte)] + rest;
    assert input[0] == Some(BackspaceByte);
  }

  /**
    ESC '[' 'A' moves up a line: the whole sequence is used, the action is
    forwarded to the view, and one repaint follows.
  */
  lemma ArrowUpMoves(s: Session, rest: seq<Unit>, expand: Selection -> Selection, textIn: Selection -> string)
    requires !s.quit
    ensures Run(s, [Some(EscapeByte), Some(LeftBracket), Some('A' as int)] + rest, expand, textIn) ==
            Run(s.(visible := true, blink := 0, log := s.log + [Forward(MoveUpLine), ViewCall.Render]),
                rest, expand, textIn)
  {
    var input := [Some(EscapeByte), Some(LeftBracket), Some('A' as int)] + rest;
    assert input[1..] == [Some(LeftBracket), Some('A' as int)] + rest;
    ArrowKey('A' as int, rest);
    assert Classify(EscapeByte) == EscapeKey;
    assert EscapeSequence(input[1..]) == Decoded([LeftBracket, 'A' as int], 2);
    var t := s.(visible := true, blink := 0);
    assert Dispatch(t, Some(MoveUpLine), expand, textIn) == t.(log := s.log + [Forward(MoveUpLine)]);
    assert s.log + [Forward(MoveUpLine)] + [ViewCall.Render] == s.log + [Forward(MoveUpLine), ViewCall.Render];
    assert HandleKey(t, EscapeByte, input[1..], expand, textIn) ==
           (s.(visible := true, blink := 0, log := s.log + [Forward(MoveUpLine), ViewCall.Render]), 2);
    assert Step(s, input, expand, textIn) ==
           (s.(visible := true, blink := 0, log := s.log + [Forward(MoveUpLine), ViewCall.Render]), 3);
    assert input[3..] == rest;
  }

  /**
    ESC shows the carets, runs the escape decoder on the input that follows,
    dispatches the table's action for the sequence it collects (if any) and
    repaints; the iteration uses the ESC and every unit the decoder read.
  */
  lemma EscapeKeyStep(s: Session, after: seq<Unit>, expand: Selection -> Selection, textIn: Selection -> string)
    ensures var d := EscapeSequence(after);
      Step(s, [Some(EscapeByte)] + after, expand, textIn) ==
      (Repainted(Dispatch(s.(visible := true, blink := 0), EscapeTable(d.sequence), expand, textIn)), 1 + d.consumed)
  {
    var input := [Some(EscapeByte)] + after;
    assert input[0] == Some(EscapeByte) && input[1..] == after;
    assert Classify(EscapeByte) == EscapeKey;
  }

  /** A byte from 0x80 up matches no branch of the chain: it shows the carets and only repaints. */
  lemma HighByteIgnored(s: Session, c: Byte, rest: seq<Unit>, expand: Selection -> Selection,
                        textIn: Selection -> string)
    requires c > BackspaceByte
    ensures Step(s, [Some(c)] + rest, expand, textIn) == (Repainted(s.(visible := true, blink := 0)), 1)
  {
    var input := [Some(c)] + rest;
    assert input[0] == Some(c);
    assert Classify(c) == IgnoredKey;
  }

  /** A control key shows the carets, runs its shortcut (if it has one) and repaints. */
  lemma ControlKeyStep(s: Session, c: Byte, rest: seq<Unit>, expand: Selection -> Selection,
                       textIn: Selection -> string)
    requires c < 32 && c != Newline && c != Tab && c != EscapeByte && c != QuitByte
    ensures Step(s, [Some(c)] + rest, expand, textIn) ==
            (Repainted(Dispatch(s.(visible := true, blink := 0), ControlTable(c + 'A' as int - 1), expand, textIn)), 1)
  {
    var input := [Some(c)] + rest;
    assert input[0] == Some(c);
    assert Classify(c) == ControlKey(c + 'A' as int - 1);
  }

  /** Ctrl+C copies the selection (or its lines) to the clipboard and repaints. */
  lemma CopyKey(s: Session, rest: seq<Unit>, expand: Selection -> Selection, textIn: Selection -> string)
    ensures Step(s, [Some(3)] + rest, expand, textIn) ==
            (s.(visible := true, blink := 0, clipboard := textIn(CopyRange(s.selection, expand)),
                log := s.log + [ViewCall.Render]), 1)
  {
    var u := s.(visible := true, blink := 0);
    ControlKeyStep(s, 3, rest, expand, textIn);
    assert ControlTable(3 + 'A' as int - 1) == Some(Copy);
    assert s.log + [] == s.log;
    assert Dispatch(u, Some(Copy), expand, textIn) == u.(clipboard := textIn(CopyRange(s.selection, expand)));
  }

  /** Ctrl+V inserts the clipboard and repaints. */
  lemma PasteKey(s: Session, rest: seq<Unit>, expand: Selection -> Selection, textIn: Selection -> string)
    ensures Step(s, [Some(22)] + rest, expand, textIn) ==
            (s.(visible := true, blink := 0, log := s.log + [InsertText(s.clipboard), ViewCall.Render]), 1)
  {
    var u := s.(visible := true, blink := 0);
    ControlKeyStep(s, 22, rest, expand, textIn);
    assert ControlTable(22 + 'A' as int - 1) == Some(Paste);
    assert Dispatch(u, Some(Paste), expand, textIn) == u.(log := s.log + [InsertText(s.clipboard)]);
    assert s.log + [InsertText(s.clipboard)] + [ViewCall.Render] == s.log + [InsertText(s.clipboard), ViewCall.Render];
  }

  /**
    Ctrl+C then Ctrl+V: the second key inserts exactly the text the first
    copied; the clipboard holds that text and each key repaints once.
  */
  lemma CopyThenPasteKeys(s: Session, rest: seq<Unit>, expand: Selection -> Selection, textIn: Selection -> string)
    requires !s.quit
    ensures var copied := textIn(CopyRange(s.selection, expand));
      Run(s, [Some(3), Some(22)] + rest, expand, textIn) ==
      Run(s.(visible := true, blink := 0, clipboard := copied,
             log := s.log + [ViewCall.Render, InsertText(copied), ViewCall.Render]), rest, expand, textIn)
  {
    var copied := textIn(CopyRange(s.selection, expand));
    assert [Some(3), Some(22)] + rest == [Some(3)] + ([Some(22)] + rest);
    CopyKey(s, [Some(22)] + rest, expand, textIn);
    var t := s.(visible := true, blink := 0, clipboard := copied, log := s.log + [ViewCall.Render]);
    RunOne(s, Some(3), [Some(22)] + rest, t, expand, textIn);
    PasteKey(t, rest, expand, textIn);
    RunOne(t, Some(22), rest, t.(log := t.log + [InsertText(copied), ViewCall.Render]), expand, textIn);
    ConcatThree(s.log, ViewCall.Render, InsertText(copied), ViewCall.Render);
  }

  lemma ConcatThree<T>(l: seq<T>, a: T, b: T, c: T)
    ensures l + [a] + [b, c] == l + [a, b, c]
  {
  }
}
