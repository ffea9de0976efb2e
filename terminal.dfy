/** The kernel's text terminal (`VGATextModeTerminal`): a cursor over the
    shared text-mode screen that prints bytes, wraps at the last column,
    scrolls on the last row, and understands newline, carriage return and
    backspace. */
module Terminal {
  import opened Machine
  import opened TextMode

  const NEWLINE: byte := 0x0a
  const CARRIAGE_RETURN: byte := 0x0d
  const BACKSPACE: byte := 0x08
  const SPACE: byte := 32
  const UNDERSCORE: byte := 95

  /** What the terminal is: the screen's cells and the cursor. */
  datatype TermState = TermState(grid: Grid, col: nat, row: nat)

  /** The cursor invariant every operation keeps: on a row of the screen,
      and at most one past the last column (a full line). */
  predicate CursorOk(t: TermState) {
    t.row < BUFFER_HEIGHT && t.col <= BUFFER_WIDTH
  }

  // ---------------------------------------------------------------------
  // The terminal's operations as functions of its state
  // ---------------------------------------------------------------------

  /** Scrolling blanks the bottom row already, so clearing it again changes
      nothing. */
  lemma ScrollClearIsRedundant(g: Grid)
    ensures Cleared(ShiftUp(g, 1), BUFFER_HEIGHT - 1, BUFFER_HEIGHT, 0, BUFFER_WIDTH) == ShiftUp(g, 1)
  {
    GridExt(Cleared(ShiftUp(g, 1), BUFFER_HEIGHT - 1, BUFFER_HEIGHT, 0, BUFFER_WIDTH), ShiftUp(g, 1));
  }

  /** `new_line`: move to the start of the next row, or scroll the screen up
      one row (shift, then clear the last row) when already on the last. */
  function AfterNewLine(t: TermState): (u: TermState)
    requires CursorOk(t)
    ensures CursorOk(u) && u.col == 0
    ensures t.row < BUFFER_HEIGHT - 1 ==> u.row == t.row + 1 && u.grid == t.grid
    ensures t.row == BUFFER_HEIGHT - 1 ==> u.row == t.row && u.grid == ShiftUp(t.grid, 1)
  {
    if t.row < BUFFER_HEIGHT - 1 then TermState(t.grid, 0, t.row + 1)
    else
      ScrollClearIsRedundant(t.grid);
      TermState(Cleared(ShiftUp(t.grid, 1), BUFFER_HEIGHT - 1, BUFFER_HEIGHT, 0, BUFFER_WIDTH), 0, t.row)
  }

  /** `write_byte`: wrap first if the line is full, then store the byte at
      the cursor and advance. */
  function AfterWriteByte(t: TermState, b: byte, color: VgaColor): (u: TermState)
    requires CursorOk(t)
    ensures CursorOk(u) && 1 <= u.col
    ensures u.grid[u.row][u.col - 1] == Cell(b, color)
    ensures t.col < BUFFER_WIDTH ==> u.row == t.row && u.col == t.col + 1
    ensures t.col == BUFFER_WIDTH ==> u.col == 1 && u.row == AfterNewLine(t).row
  {
    var v := if t.col >= BUFFER_WIDTH then AfterNewLine(t) else t;
    TermState(Put(v.grid, v.row, v.col, Cell(b, color)), v.col + 1, v.row)
  }

  /** Backspace: write a space at the cursor, then step left unless already
      in column 0. The write indexes column `col`, so on a full line
      (col == width) it is out of bounds and panics: `None`. */
  function AfterBackspace(t: TermState, color: VgaColor): (u: Option<TermState>)
    requires CursorOk(t)
    ensures u.None? <==> t.col == BUFFER_WIDTH
    ensures u.Some? ==> CursorOk(u.value) && u.value.row == t.row
    ensures u.Some? ==> u.value.col == (if t.col == 0 then 0 else t.col - 1)
  {
    if t.col >= BUFFER_WIDTH then None
    else Some(TermState(Put(t.grid, t.row, t.col, Cell(SPACE, color)), if t.col > 0 then t.col - 1 else t.col, t.row))
  }

  /** One byte of the kernel terminal's `write_str`. */
  function AfterByte(t: TermState, b: byte, color: VgaColor): (u: Option<TermState>)
    requires CursorOk(t)
    ensures u.Some? ==> CursorOk(u.value)
    ensures u.None? <==> b == BACKSPACE && t.col == BUFFER_WIDTH
  {
    if b == NEWLINE || b == CARRIAGE_RETURN then Some(AfterNewLine(t))
    else if b == BACKSPACE then AfterBackspace(t, color)
    else Some(AfterWriteByte(t, b, color))
  }

  /** The kernel terminal's `write_str`: the bytes one after another;
      `None` once one of them panics. */
  function AfterWriteStr(t: TermState, s: seq<byte>, color: VgaColor): (u: Option<TermState>)
    requires CursorOk(t)
    ensures u.Some? ==> CursorOk(u.value)
  {
    if s == [] then Some(t)
    else
      var prefix := AfterWriteStr(t, s[..|s| - 1], color);
      if prefix.None? then None else AfterByte(prefix.value, s[|s| - 1], color)
  }

  /** `toggle_cursor`: an underscore or a space, in white, at the cursor; a
      full line puts the cursor out of bounds and the write panics. */
  function AfterToggleCursor(t: TermState, cursorVisible: bool): (u: Option<TermState>)
    requires CursorOk(t)
    ensures u.None? <==> t.col == BUFFER_WIDTH
    ensures u.Some? ==> u.value.col == t.col && u.value.row == t.row
    ensures u.Some? ==> u.value.grid[t.row][t.col].ch == (if cursorVisible then UNDERSCORE else SPACE)
  {
    if t.col >= BUFFER_WIDTH then None
    else Some(t.(grid := Put(t.grid, t.row, t.col, Cell(if cursorVisible then UNDERSCORE else SPACE, White))))
  }

  // ---------------------------------------------------------------------
  // Properties
  // ---------------------------------------------------------------------

  /** Bytes that `write_str` prints as they are. */
  predicate IsPlain(s: seq<byte>) {
    forall i :: 0 <= i < |s| ==> s[i] != NEWLINE && s[i] != CARRIAGE_RETURN && s[i] != BACKSPACE
  }

  /** The grid with the bytes of s, in one colour, laid out on `row` from
      column `col`. */
  function Typed(g: Grid, row: nat, col: nat, s: seq<byte>, color: VgaColor): Grid
    requires row < BUFFER_HEIGHT && col + |s| <= BUFFER_WIDTH
  {
    seq(BUFFER_HEIGHT, r requires 0 <= r < BUFFER_HEIGHT => seq(BUFFER_WIDTH, c requires 0 <= c < BUFFER_WIDTH =>
      if r == row && col <= c < col + |s| then Cell(s[c - col], color) else g[r][c]))
  }

  lemma TypedExtends(g: Grid, row: nat, col: nat, s: seq<byte>, b: byte, color: VgaColor)
    requires row < BUFFER_HEIGHT && col + |s| < BUFFER_WIDTH
    ensures Typed(g, row, col, s + [b], color) == Put(Typed(g, row, col, s, color), row, col + |s|, Cell(b, color))
  {
    GridExt(Typed(g, row, col, s + [b], color), Put(Typed(g, row, col, s, color), row, col + |s|, Cell(b, color)));
  }

  /** Printing plain bytes that fit on the current line lays them out left
      to right from the cursor, moves the cursor past them, and changes no
      other cell. */
  lemma {:induction false} PlainBytesFillTheLine(t: TermState, s: seq<byte>, color: VgaColor)
    requires CursorOk(t) && IsPlain(s) && t.col + |s| <= BUFFER_WIDTH
    ensures AfterWriteStr(t, s, color) == Some(TermState(Typed(t.grid, t.row, t.col, s, color), t.col + |s|, t.row))
  {
    if s == [] {
      GridExt(Typed(t.grid, t.row, t.col, s, color), t.grid);
    } else {
      var init := s[..|s| - 1];
      assert IsPlain(init) by {
        forall i | 0 <= i < |init| ensures init[i] != NEWLINE && init[i] != CARRIAGE_RETURN && init[i] != BACKSPACE {
          assert init[i] == s[i];
        }
      }
      PlainBytesFillTheLine(t, init, color);
      TypedExtends(t.grid, t.row, t.col, init, s[|s| - 1], color);
      assert init + [s[|s| - 1]] == s;
    }
  }

  /** After a full line of plain bytes from column 0 the cursor sits one past
      the last column, where a backspace panics. */
  lemma FullLineThenBackspacePanics(t: TermState, s: seq<byte>, color: VgaColor)
    requires CursorOk(t) && t.col == 0 && IsPlain(s) && |s| == BUFFER_WIDTH
    ensures AfterWriteStr(t, s, color).Some?
    ensures AfterWriteStr(t, s, color).value.col == BUFFER_WIDTH
    ensures AfterWriteStr(t, s + [BACKSPACE], color).None?
  {
    PlainBytesFillTheLine(t, s, color);
    assert (s + [BACKSPACE])[..|s|] == s;
  }

  /** Newline and carriage return act the same. */
  lemma ReturnIsNewLine(t: TermState, color: VgaColor)
    requires CursorOk(t)
    ensures AfterWriteStr(t, [CARRIAGE_RETURN], color) == AfterWriteStr(t, [NEWLINE], color) == Some(AfterNewLine(t))
  {
    assert [CARRIAGE_RETURN][..0] == [];
    assert [NEWLINE][..0] == [];
  }

  /** Printing two strings in turn is printing their concatenation. */
  lemma {:induction false} WriteStrConcat(t: TermState, s1: seq<byte>, s2: seq<byte>, color: VgaColor)
    requires CursorOk(t)
    ensures AfterWriteStr(t, s1 + s2, color) ==
      (if AfterWriteStr(t, s1, color).None? then None else AfterWriteStr(AfterWriteStr(t, s1, color).value, s2, color))
  {
    if s2 == [] {
      assert s1 + s2 == s1;
    } else {
      WriteStrConcat(t, s1, s2[..|s2| - 1], color);
      assert (s1 + s2)[..|s1 + s2| - 1] == s1 + s2[..|s2| - 1];
      assert (s1 + s2)[|s1 + s2| - 1] == s2[|s2| - 1];
    }
  }

  // ---------------------------------------------------------------------
  // The terminal object
  // ---------------------------------------------------------------------

  /** `VGATextModeTerminal`: the cursor fields, over the shared screen
      (`VGA_TEXT_MODE`), which the model passes in at construction. */
  class VgaTextModeTerminal {
    var col: nat
    var row: nat
    const screen: VgaTextMode

    ghost predicate Valid()
      reads this, screen
    {
      screen.Valid() && row < BUFFER_HEIGHT && col <= BUFFER_WIDTH
    }

    ghost function State(): TermState
      reads this, screen, screen.chars
      requires screen.Valid()
    {
      TermState(screen.Cells(), col, row)
    }

    /** `new`: the cursor starts at the top left. */
    constructor(screen: VgaTextMode)
      requires screen.Valid()
      ensures Valid() && this.screen == screen && col == 0 && row == 0
    {
      col := 0;
      row := 0;
      this.screen := screen;
    }

    method ToggleCursor(cursorVisible: bool) returns (panicked: bool)
      requires Valid()
      modifies screen.chars
      ensures panicked <==> AfterToggleCursor(old(State()), cursorVisible).None?
      ensures !panicked ==> Valid() && Some(State()) == AfterToggleCursor(old(State()), cursorVisible)
    {
      if col >= BUFFER_WIDTH {
        return true;
      }
      screen.Write(if cursorVisible then UNDERSCORE else SPACE, White, col, row);
      return false;
    }

    method ShiftRowsUp()
      requires Valid()
      modifies screen.chars
      ensures Valid() && State() == old(State()).(grid := ShiftUp(old(State()).grid, 1))
    {
      screen.ShiftUpByX(1);
    }

    method ClearRow(r: nat)
      requires Valid() && r < BUFFER_HEIGHT
      modifies screen.chars
      ensures Valid() && State() == old(State()).(grid := Cleared(old(State()).grid, r, r + 1, 0, BUFFER_WIDTH))
    {
      screen.ClearRow(r);
    }

    method NewLine()
      requires Valid()
      modifies this, screen.chars
      ensures Valid() && State() == AfterNewLine(old(State()))
    {
      if row < BUFFER_HEIGHT - 1 {
        row := row + 1;
        col := 0;
      } else {
        ShiftRowsUp();
        ClearRow(BUFFER_HEIGHT - 1);
        col := 0;
      }
    }

    method WriteByte(b: byte, color: VgaColor)
      requires Valid()
      modifies this, screen.chars
      ensures Valid() && State() == AfterWriteByte(old(State()), b, color)
    {
      if col >= BUFFER_WIDTH {
        NewLine();
      }
      screen.Write(b, color, col, row);
      col := col + 1;
    }

    /** One byte of the inherent `write_str`: newline and carriage return
        start a new line, backspace rubs out, every other byte is printed. */
    method WriteStrByte(b: byte, color: VgaColor) returns (panicked: bool)
      requires Valid()
      modifies this, screen.chars
      ensures panicked <==> AfterByte(old(State()), b, color).None?
      ensures !panicked ==> Valid() && Some(State()) == AfterByte(old(State()), b, color)
    {
      if b == NEWLINE || b == CARRIAGE_RETURN {
        NewLine();
      } else if b == BACKSPACE {
        if col >= BUFFER_WIDTH {
          return true;
        }
        screen.Write(SPACE, color, col, row);
        if col > 0 {
          col := col - 1;
        }
      } else {
        WriteByte(b, color);
      }
      return false;
    }

    /** The inherent `write_str`, byte by byte; it stops at the first byte
        that panics. */
    method WriteStr(s: seq<byte>, color: VgaColor) returns (panicked: bool)
      requires Valid()
      modifies this, screen.chars
      ensures panicked <==> AfterWriteStr(old(State()), s, color).None?
      ensures !panicked ==> Valid() && Some(State()) == AfterWriteStr(old(State()), s, color)
    {
      for i := 0 to |s|
        invariant Valid()
        invariant AfterWriteStr(old(State()), s[..i], color) == Some(State())
      {
        assert s[..i + 1][..i] == s[..i];
        panicked := WriteStrByte(s[i], color);
        if panicked {
          WriteStrConcat(old(State()), s[..i + 1], s[i + 1..], color);
          assert s[..i + 1] + s[i + 1..] == s;
          return;
        }
      }
      assert s[..|s|] == s;
      return false;
    }

    /** The `core::fmt::Write` implementation: `write_str` in white. */
    method WriteFmt(s: seq<byte>) returns (panicked: bool)
      requires Valid()
      modifies this, screen.chars
      ensures panicked <==> AfterWriteStr(old(State()), s, White).None?
      ensures !panicked ==> Valid() && Some(State()) == AfterWriteStr(old(State()), s, White)
    {
      panicked := WriteStr(s, White);
    }

    method ClearScreen()
      requires Valid()
      modifies this, screen.chars
      ensures Valid() && State() == TermState(BlankGrid(), 0, 0)
    {
      screen.ClearScreen();
      col := 0;
      row := 0;
    }
  }
}
