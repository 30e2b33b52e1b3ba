/**
  Terminal input decoding: the escape-sequence decoder that runs after an ESC
  byte, its lookup table, the control-key table, and the classification of
  one value read by the input loop.

  Input is a sequence of read results: `Some(b)` for a byte, `None` for a
  read that timed out. Running out of input behaves like a timeout that
  consumes nothing.
*/
module Input {
  import opened Wrappers
  import opened Actions

  /** The result of one read with timeout. */
  type Unit = Option<Byte>

  const EscapeByte: Byte := 27
  const LeftBracket: Byte := 91   // '['
  const FinalThreshold: int := 64  // '@'

  /**
    The value of a byte once stored in a `std::string`, whose `char` is
    signed: bytes from 0x80 up become negative.
  */
  function SignedChar(b: Byte): (v: int)
    ensures -128 <= v < 128
    ensures b < 128 ==> v == b
    ensures b >= 128 ==> v < 0
  {
    if b < 128 then b else b - 256
  }

  /**
    The decoder's loop condition after appending a byte: keep reading while
    the sequence is exactly "[" or its last byte is below '@'.
  */
  predicate Continues(s: seq<Byte>)
    requires |s| > 0
  {
    s == [LeftBracket] || SignedChar(s[|s| - 1]) < FinalThreshold
  }

  /** The loop condition held after the byte at index `k` of `s` was appended. */
  predicate ContinuedAt(s: seq<Byte>, k: int)
    requires 0 <= k < |s|
  {
    Continues(s[..k + 1])
  }

  /** The bytes collected after ESC and the number of read results used. */
  datatype Decoded = Decoded(sequence: seq<Byte>, consumed: nat)

  /** Reading continues from `input` with `acc` already collected. */
  function Scan(input: seq<Unit>, acc: seq<Byte>): Decoded
    decreases |input|
  {
    if |input| == 0 then Decoded(acc, 0)
    else match input[0]
      case None => Decoded(acc, 1)
      case Some(b) =>
        if Continues(acc + [b]) then
          var d := Scan(input[1..], acc + [b]);
          Decoded(d.sequence, d.consumed + 1)
        else Decoded(acc + [b], 1)
  }

  /** The sequence the decoder collects from the input that follows ESC. */
  function EscapeSequence(input: seq<Unit>): Decoded {
    Scan(input, [])
  }

  /** The escape-sequence table: each action is produced by exactly one sequence. */
  function EscapeTable(s: seq<Byte>): Option<Action> {
    if s == [LeftBracket] then Some(SelectFirstRegion)
    else if s == [LeftBracket, 51, 126] then Some(DeleteRightCharacter)
    else if s == [LeftBracket, 65] then Some(MoveUpLine)
    else if s == [LeftBracket, 66] then Some(MoveDownLine)
    else if s == [LeftBracket, 67] then Some(MoveRightCharacter)
    else if s == [LeftBracket, 68] then Some(MoveLeftCharacter)
    else None
  }

  /** Only the exact table entries dispatch, each to its own action. */
  lemma EscapeTableExact(s: seq<Byte>)
    ensures var a := EscapeTable(s);
      && (a == Some(SelectFirstRegion) <==> s == [LeftBracket])
      && (a == Some(DeleteRightCharacter) <==> s == [LeftBracket, 51, 126])
      && (a == Some(MoveUpLine) <==> s == [LeftBracket, 65])
      && (a == Some(MoveDownLine) <==> s == [LeftBracket, 66])
      && (a == Some(MoveRightCharacter) <==> s == [LeftBracket, 67])
      && (a == Some(MoveLeftCharacter) <==> s == [LeftBracket, 68])
      && (a.Some? ==> a.value in {SelectFirstRegion, DeleteRightCharacter, MoveUpLine,
                                  MoveDownLine, MoveRightCharacter, MoveLeftCharacter})
  {
  }

  /**
    The decoder run after an ESC byte: reads until a timeout, or until a byte
    of at least '@' has been appended to a sequence other than "[", then
    looks the sequence up. Returns the action (if any) and the number of read
    results used.
  */
  method DecodeEscape(input: seq<Unit>) returns (action: Option<Action>, consumed: nat)
    ensures consumed == EscapeSequence(input).consumed
    ensures action == EscapeTable(EscapeSequence(input).sequence)
  {
    var sequence: seq<Byte> := [];
    consumed := 0;
    while true
      invariant consumed <= |input|
      invariant var d := Scan(input[consumed..], sequence);
        EscapeSequence(input) == Decoded(d.sequence, d.consumed + consumed)
      decreases |input| - consumed
    {
      if consumed == |input| {
        break;
      }
      var c := input[consumed];
      consumed := consumed + 1;
      if c.None? {
        break;
      }
      sequence := sequence + [c.value];
      if !Continues(sequence) {
        break;
      }
    }
    action := EscapeTable(sequence);
  }

  /**
    What reading from `input` with `acc` already collected yields: a prefix
    of the input is used; every byte appended comes from it in order, and
    the only other unit it uses is a final timeout.
  */
  lemma {:induction false} ScanPrefix(input: seq<Unit>, acc: seq<Byte>)
    ensures var d := Scan(input, acc);
      && d.consumed <= |input|
      && |acc| <= |d.sequence|
      && d.sequence[..|acc|] == acc
      && (d.consumed == |d.sequence| - |acc| || d.consumed == |d.sequence| - |acc| + 1)
      && (forall k :: 0 <= k < |d.sequence| - |acc| ==> input[k] == Some(d.sequence[|acc| + k]))
      && (d.consumed == |d.sequence| - |acc| + 1 ==> input[d.consumed - 1] == None)
    decreases |input|
  {
    if |input| > 0 && input[0].Some? && Continues(acc + [input[0].value]) {
      var s := acc + [input[0].value];
      ScanPrefix(input[1..], s);
      var e := Scan(input[1..], s);
      assert e.sequence[..|acc|] == e.sequence[..|s|][..|acc|];
      forall k | 0 < k < |e.sequence| - |acc|
        ensures input[k] == Some(e.sequence[|acc| + k])
      {
        assert input[k] == input[1..][k - 1];
      }
    }
  }

  /**
    Why reading stopped: every proper prefix past `acc` satisfied the loop
    condition, and reading ended because the input ran out, a read timed
    out, or the loop condition failed. A final timeout is read only while
    the sequence still continues: nothing is read after the byte that ends it.
  */
  lemma {:induction false} ScanStops(input: seq<Unit>, acc: seq<Byte>)
    ensures var d := Scan(input, acc);
      && d.consumed <= |input|
      && (forall k :: |acc| <= k < |d.sequence| - 1 ==> ContinuedAt(d.sequence, k))
      && (d.consumed == |input| || input[d.consumed - 1] == None || (|d.sequence| > 0 && !Continues(d.sequence)))
      && (d.consumed == |d.sequence| - |acc| + 1 && |d.sequence| > |acc| ==> Continues(d.sequence))
    decreases |input|
  {
    ScanPrefix(input, acc);
    if |input| > 0 && input[0].Some? && Continues(acc + [input[0].value]) {
      var s := acc + [input[0].value];
      ScanStops(input[1..], s);
      ScanPrefix(input[1..], s);
      var e := Scan(input[1..], s);
      forall k | |acc| <= k < |e.sequence| - 1
        ensures ContinuedAt(e.sequence, k)
      {
        if k == |acc| {
          assert e.sequence[..k + 1] == e.sequence[..|s|] == s;
        }
      }
    }
  }

  /**
    Of the bytes collected after ESC, every one strictly between the first
    and the last is below '@', and the input holds them in order.
  */
  lemma EscapeInterior(input: seq<Unit>)
    ensures var s := EscapeSequence(input).sequence;
      && (forall k :: 0 < k < |s| - 1 ==> SignedChar(s[k]) < FinalThreshold)
      && (forall k :: 0 <= k < |s| ==> k < |input| && input[k] == Some(s[k]))
  {
    ScanPrefix(input, []);
    ScanStops(input, []);
    var s := EscapeSequence(input).sequence;
    forall k | 0 < k < |s| - 1
      ensures SignedChar(s[k]) < FinalThreshold
    {
      assert ContinuedAt(s, k);
      assert |s[..k + 1]| >= 2;
    }
  }

  /** ESC followed by a timeout: one unit is used and no action is dispatched. */
  lemma LoneEscape(rest: seq<Unit>)
    ensures EscapeSequence([None] + rest) == Decoded([], 1)
    ensures EscapeTable(EscapeSequence([None] + rest).sequence) == None
  {
  }

  /** ESC '[' followed by a timeout selects the first region. */
  lemma BracketThenTimeout(rest: seq<Unit>)
    ensures EscapeSequence([Some(LeftBracket), None] + rest) == Decoded([LeftBracket], 2)
    ensures EscapeTable(EscapeSequence([Some(LeftBracket), None] + rest).sequence) == Some(SelectFirstRegion)
  {
    var input := [Some(LeftBracket), None] + rest;
    assert input[1..] == [None] + rest;
    assert [] + [LeftBracket] == [LeftBracket];
    assert Scan(input[1..], [LeftBracket]) == Decoded([LeftBracket], 1);
  }

  /** ESC '[' then 'A', 'B', 'C' or 'D' is one of the four arrow keys, whatever follows. */
  lemma ArrowKey(letter: Byte, rest: seq<Unit>)
    requires 'A' as int <= letter <= 'D' as int
    ensures EscapeSequence([Some(LeftBracket), Some(letter)] + rest) == Decoded([LeftBracket, letter], 2)
    ensures EscapeTable([LeftBracket, letter]) ==
      Some(if letter == 'A' as int then MoveUpLine
           else if letter == 'B' as int then MoveDownLine
           else if letter == 'C' as int then MoveRightCharacter
           else MoveLeftCharacter)
  {
    var input := [Some(LeftBracket), Some(letter)] + rest;
    assert input[1..] == [Some(letter)] + rest;
    assert [] + [LeftBracket] == [LeftBracket];
    assert [LeftBracket] + [letter] == [LeftBracket, letter];
    assert !Continues([LeftBracket, letter]);
    assert Scan(input[1..], [LeftBracket]) == Decoded([LeftBracket, letter], 1);
  }

  /** ESC '[' '3' '~' is the forward-delete key. */
  lemma DeleteKey(rest: seq<Unit>)
    ensures EscapeSequence([Some(LeftBracket), Some(51), Some(126)] + rest) == Decoded([LeftBracket, 51, 126], 3)
  {
    var input := [Some(LeftBracket), Some(51), Some(126)] + rest;
    assert input[1..] == [Some(51), Some(126)] + rest;
    assert input[1..][1..] == [Some(126)] + rest;
    assert [] + [LeftBracket] == [LeftBracket];
    assert [LeftBracket] + [51] == [LeftBracket, 51];
    assert [LeftBracket, 51] + [126] == [LeftBracket, 51, 126];
    assert Continues([LeftBracket, 51]);
    assert !Continues([LeftBracket, 51, 126]);
    assert Scan(input[1..][1..], [LeftBracket, 51]) == Decoded([LeftBracket, 51, 126], 1);
    assert Scan(input[1..], [LeftBracket]) == Decoded([LeftBracket, 51, 126], 2);
  }

  /**
    A byte from 0x80 up does not end a sequence: it compares below '@' as a
    signed char, so reading goes on past it.
  */
  lemma HighByteContinues(b: Byte, rest: seq<Unit>)
    requires b >= 128
    ensures EscapeSequence([Some(b)] + rest).consumed == 1 + Scan(rest, [b]).consumed
  {
    assert ([Some(b)] + rest)[1..] == rest;
    assert [] + [b] == [b];
    assert Continues([b]);
  }

  /**
    The control-key table, keyed by the letter of the control character
    (the code plus 'A' - 1): Ctrl+A, C, V, X, Y and Z.
  */
  function ControlTable(letter: int): Option<Action> {
    if letter == 'A' as int then Some(SelectAll)
    else if letter == 'C' as int then Some(Copy)
    else if letter == 'V' as int then Some(Paste)
    else if letter == 'X' as int then Some(Cut)
    else if letter == 'Y' as int then Some(Redo)
    else if letter == 'Z' as int then Some(Undo)
    else None
  }

  /** Each shortcut has exactly one letter; every other letter has none. */
  lemma ControlTableExact(letter: int)
    ensures var a := ControlTable(letter);
      && (a == Some(SelectAll) <==> letter == 'A' as int)
      && (a == Some(Copy) <==> letter == 'C' as int)
      && (a == Some(Paste) <==> letter == 'V' as int)
      && (a == Some(Cut) <==> letter == 'X' as int)
      && (a == Some(Redo) <==> letter == 'Y' as int)
      && (a == Some(Undo) <==> letter == 'Z' as int)
      && (a.Some? ==> a.value in {SelectAll, Copy, Paste, Cut, Redo, Undo})
  {
  }

  /** How the input loop treats one value read from the terminal. */
  datatype KeyClass =
    | EscapeKey                // start of an escape sequence
    | QuitKey                  // Ctrl+Q
    | ControlKey(letter: int)  // a control character, by its letter
    | BackspaceKey
    | TypedKey(b: Byte)        // printable ASCII or newline: inserted
    | IgnoredKey               // tab and bytes from 128 up

  const QuitByte: int := 17      // Ctrl+Q
  const BackspaceByte: int := 127
  const Newline: int := 10
  const Tab: int := 9

  /**
    Classification of a read value `c` (-1 for a timeout that reached the
    dispatch, which therefore counts as the control character '?').
  */
  function Classify(c: int): KeyClass
    requires -1 <= c < 256
  {
    if c == EscapeByte then EscapeKey
    else if c == QuitByte then QuitKey
    else if c < 32 && c != Newline && c != Tab then ControlKey(c + 'A' as int - 1)
    else if c == BackspaceByte then BackspaceKey
    else if (32 <= c < 127) || c == Newline then TypedKey(c)
    else IgnoredKey
  }

  /**
    Each class of key in terms of the read value alone, independently of
    the order in which the dispatch chain tests them.
  */
  lemma ClassifyExact(c: int)
    requires -1 <= c < 256
    ensures var k := Classify(c);
      && (k == EscapeKey <==> c == EscapeByte)
      && (k == QuitKey <==> c == QuitByte)
      && (k.ControlKey? <==> c < 32 && c != Newline && c != Tab && c != EscapeByte && c != QuitByte)
      && (k.ControlKey? ==> k.letter == c + 'A' as int - 1)
      && (k == BackspaceKey <==> c == BackspaceByte)
      && (k.TypedKey? <==> (32 <= c < 127 || c == Newline))
      && (k.TypedKey? ==> k.b == c)
      && (k == IgnoredKey <==> (c == Tab || c > 127))
  {
  }
}
