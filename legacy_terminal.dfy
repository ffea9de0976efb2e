/** The earlier terminal (`VGATextModeTerminal` of the first crate): the same
    cursor, wrapping and scrolling as the kernel terminal, but its inherent
    `write_str` prints every byte as a cell and its `Write` implementation
    knows only the newline byte. It drives the same text-mode screen. */
module LegacyTerminal {
  import opened Machine
  import opened TextMode
  import opened Terminal

  /** The inherent `write_str`: `write_byte` for every byte, control bytes
      included. */
  function AfterRawStr(t: TermState, s: seq<byte>, color: VgaColor): (u: TermState)
    requires CursorOk(t)
    ensures CursorOk(u)
    ensures s != [] ==> 1 <= u.col && u.grid[u.row][u.col - 1] == Cell(s[|s| - 1], color)
  {
    if s == [] then t else AfterWriteByte(AfterRawStr(t, s[..|s| - 1], color), s[|s| - 1], color)
  }

  /** One byte of the `Write` implementation: newline, or the byte in white. */
  function AfterFmtByte(t: TermState, b: byte): (u: TermState)
    requires CursorOk(t)
    ensures CursorOk(u)
  {
    if b == NEWLINE then AfterNewLine(t) else AfterWriteByte(t, b, White)
  }

  /** The `Write` implementation's `write_str`. */
  function AfterFmtStr(t: TermState, s: seq<byte>): (u: TermState)
    requires CursorOk(t)
    ensures CursorOk(u)
  {
    if s == [] then t else AfterFmtByte(AfterFmtStr(t, s[..|s| - 1]), s[|s| - 1])
  }

  /** Bytes the two terminals' `Write` implementations treat alike: no
      carriage return and no backspace. */
  predicate CommonBytes(s: seq<byte>) {
    forall i :: 0 <= i < |s| ==> s[i] != CARRIAGE_RETURN && s[i] != BACKSPACE
  }

  /** On bytes without carriage return or backspace the earlier `Write`
      implementation and the kernel terminal's agree, and the kernel one
      never panics. */
  lemma {:induction false} FmtAgreesWithKernel(t: TermState, s: seq<byte>)
    requires CursorOk(t) && CommonBytes(s)
    ensures AfterWriteStr(t, s, White) == Some(AfterFmtStr(t, s))
  {
    if s != [] {
      var init := s[..|s| - 1];
      assert CommonBytes(init) by {
        forall i | 0 <= i < |init| ensures init[i] != CARRIAGE_RETURN && init[i] != BACKSPACE {
          assert init[i] == s[i];
        }
      }
      FmtAgreesWithKernel(t, init);
    }
  }

  /** Without a newline byte the `Write` implementation is the raw
      `write_str` in white. */
  lemma {:induction false} FmtIsRawWithoutNewLine(t: TermState, s: seq<byte>)
    requires CursorOk(t) && forall i :: 0 <= i < |s| ==> s[i] != NEWLINE
    ensures AfterFmtStr(t, s) == AfterRawStr(t, s, White)
  {
    if s != [] {
      FmtIsRawWithoutNewLine(t, s[..|s| - 1]);
    }
  }

  /** The raw `write_str` prints a newline byte as a character cell and moves
      along the line instead of starting a new one. */
  lemma RawNewLineIsACell(t: TermState, color: VgaColor)
    requires CursorOk(t) && t.col < BUFFER_WIDTH
    ensures AfterRawStr(t, [NEWLINE], color).grid[t.row][t.col] == Cell(NEWLINE, color)
    ensures AfterRawStr(t, [NEWLINE], color).row == t.row
    ensures AfterRawStr(t, [NEWLINE], color).col == t.col + 1
  {
    assert [NEWLINE][..0] == [];
  }

  /** The earlier `VGATextModeTerminal`. */
  class VgaTextModeTerminal {
    var col: nat
    var row: nat
    const screen: VgaTextMode

    ghost predicate Valid()
      reads this, screen
    {
      screen.Valid() && row < BUFFER_HEIGHT && col <= BUFFER_WIDTH
    }

    ghost function State(): TermState
      reads this, screen, screen.chars
      requires screen.Valid()
    {
      TermState(screen.Cells(), col, row)
    }

    constructor(screen: VgaTextMode)
      requires screen.Valid()
      ensures Valid() && this.screen == screen && col == 0 && row == 0
    {
      col := 0;
      row := 0;
      this.screen := screen;
    }

    method ShiftRowsUp()
      requires Valid()
      modifies screen.chars
      ensures Valid() && State() == old(State()).(grid := ShiftUp(old(State()).grid, 1))
    {
      screen.ShiftUpByX(1);
    }

    method ClearRow(r: nat)
      requires Valid() && r < BUFFER_HEIGHT
      modifies screen.chars
      ensures Valid() && State() == old(State()).(grid := Cleared(old(State()).grid, r, r + 1, 0, BUFFER_WIDTH))
    {
      screen.ClearRow(r);
    }

    method NewLine()
      requires Valid()
      modifies this, screen.chars
      ensures Valid() && State() == AfterNewLine(old(State()))
    {
      if row < BUFFER_HEIGHT - 1 {
        row := row + 1;
        col := 0;
      } else {
        ShiftRowsUp();
        ClearRow(BUFFER_HEIGHT - 1);
        col := 0;
      }
    }

    method WriteByte(b: byte, color: VgaColor)
      requires Valid()
      modifies this, screen.chars
      ensures Valid() && State() == AfterWriteByte(old(State()), b, color)
    {
      if col >= BUFFER_WIDTH {
        NewLine();
      }
      screen.Write(b, color, col, row);
      col := col + 1;
    }

    method WriteStr(s: seq<byte>, color: VgaColor)
      requires Valid()
      modifies this, screen.chars
      ensures Valid() && State() == AfterRawStr(old(State()), s, color)
    {
      for i := 0 to |s|
        invariant Valid()
        invariant State() == AfterRawStr(old(State()), s[..i], color)
      {
        assert s[..i + 1][..i] == s[..i];
        WriteByte(s[i], color);
      }
      assert s[..|s|] == s;
    }

    /** The `core::fmt::Write` implementation. */
    method WriteFmt(s: seq<byte>)
      requires Valid()
      modifies this, screen.chars
      ensures Valid() && State() == AfterFmtStr(old(State()), s)
    {
      for i := 0 to |s|
        invariant Valid()
        invariant State() == AfterFmtStr(old(State()), s[..i])
      {
        assert s[..i + 1][..i] == s[..i];
        if s[i] == NEWLINE {
          NewLine();
        } else {
          WriteByte(s[i], White);
        }
      }
      assert s[..|s|] == s;
    }

    method ClearScreen()
      requires Valid()
      modifies this, screen.chars
      ensures Valid() && State() == TermState(BlankGrid(), 0, 0)
    {
      screen.ClearScreen();
      col := 0;
      row := 0;
    }
  }
}
