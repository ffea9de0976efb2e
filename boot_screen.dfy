/** `VGABuffer` of the first crate's entry point: the same flat 4000-byte
    text buffer and cursor as `VGAWriter`, except that callers pass the
    attribute byte itself, and its `Write` implementation writes in
    attribute 0x0b (light cyan on black). The 0xb8000 pointer becomes an
    array passed in. */
module BootScreen {
  import opened Machine
  import opened FlatText

  /** The attribute the `Write` implementation uses. */
  const FMT_ATTR: byte := 0x0b

  class VgaBuffer {
    const buffer: array<byte>
    var col: int
    var row: int

    ghost predicate Valid()
      reads this
    {
      buffer.Length == BUFFER_BYTES && 0 <= row < FLAT_HEIGHT && 0 <= col <= FLAT_WIDTH
    }

    ghost function State(): FlatState
      reads this, buffer
    {
      FlatState(buffer[..], col, row)
    }

    /** `new`: the cursor starts at the top left. */
    constructor(buffer: array<byte>)
      requires buffer.Length == BUFFER_BYTES
      ensures Valid() && this.buffer == buffer && col == 0 && row == 0
    {
      this.buffer := buffer;
      col := 0;
      row := 0;
    }

    method WriteByte(b: byte, attr: byte)
      requires Valid()
      modifies this, buffer
      ensures Valid() && State() == AfterFlatWriteByte(old(State()), b, attr)
    {
      if col >= FLAT_WIDTH {
        NewLine();
      }
      var pos := row * FLAT_WIDTH + col;
      buffer[pos * 2] := b;
      buffer[pos * 2 + 1] := attr;
      col := col + 1;
    }

    method WriteStr(s: seq<byte>, attr: byte)
      requires Valid()
      modifies this, buffer
      ensures Valid() && State() == AfterFlatRawStr(old(State()), s, attr)
    {
      for i := 0 to |s|
        invariant Valid()
        invariant State() == AfterFlatRawStr(old(State()), s[..i], attr)
      {
        RawStrStep(old(State()), s, i, attr);
        WriteByte(s[i], attr);
      }
      assert s[..|s|] == s;
    }

    method ShiftRowsUp()
      requires Valid()
      modifies buffer
      ensures Valid() && State() == old(State()).(bytes := FlatShiftRowsUp(old(buffer[..])))
    {
      for r := 1 to FLAT_HEIGHT
        invariant forall i :: 0 <= i < BUFFER_BYTES ==>
          buffer[i] == if i < ROW_BYTES * (r - 1) then old(buffer[i + ROW_BYTES]) else old(buffer[i])
      {
        for c := 0 to FLAT_WIDTH
          invariant forall i :: 0 <= i < BUFFER_BYTES ==>
            buffer[i] == if i < ROW_BYTES * (r - 1) + 2 * c then old(buffer[i + ROW_BYTES]) else old(buffer[i])
        {
          var character := buffer[(r * FLAT_WIDTH + c) * 2];
          var color := buffer[(r * FLAT_WIDTH + c) * 2 + 1];
          buffer[((r - 1) * FLAT_WIDTH + c) * 2] := character;
          buffer[((r - 1) * FLAT_WIDTH + c) * 2 + 1] := color;
        }
      }
      assert buffer[..] == FlatShiftRowsUp(old(buffer[..]));
    }

    method ClearRow(r: int)
      requires Valid() && 0 <= r < FLAT_HEIGHT
      modifies buffer
      ensures Valid() && State() == old(State()).(bytes := FlatClearRow(old(buffer[..]), r))
    {
      for c := 0 to FLAT_WIDTH
        invariant forall i :: 0 <= i < BUFFER_BYTES ==>
          buffer[i] == if ROW_BYTES * r <= i < ROW_BYTES * r + 2 * c then 0 else old(buffer[i])
      {
        buffer[(r * FLAT_WIDTH + c) * 2] := 0;
        buffer[(r * FLAT_WIDTH + c) * 2 + 1] := 0;
      }
      assert buffer[..] == FlatClearRow(old(buffer[..]), r);
    }

    method NewLine()
      requires Valid()
      modifies this, buffer
      ensures Valid() && State() == AfterFlatNewLine(old(State()))
    {
      if row < FLAT_HEIGHT - 1 {
        row := row + 1;
        col := 0;
      } else {
        ShiftRowsUp();
        ClearRow(FLAT_HEIGHT - 1);
        col := 0;
      }
    }

    /** `clear_screen` zeroes every row and leaves the cursor where it
        was. */
    method ClearScreen()
      requires Valid()
      modifies buffer
      ensures Valid() && State() == old(State()).(bytes := Zeroes())
    {
      for r := 0 to FLAT_HEIGHT
        invariant Valid() && col == old(col) && row == old(row)
        invariant forall i :: 0 <= i < BUFFER_BYTES ==> buffer[i] == if i < ROW_BYTES * r then 0 else old(buffer[i])
      {
        ClearRow(r);
      }
      assert buffer[..] == Zeroes();
    }

    /** The `core::fmt::Write` implementation: newline, or the byte in
        attribute 0x0b. */
    method WriteFmt(s: seq<byte>)
      requires Valid()
      modifies this, buffer
      ensures Valid() && State() == AfterFlatFmtStr(old(State()), s, FMT_ATTR)
    {
      for i := 0 to |s|
        invariant Valid()
        invariant State() == AfterFlatFmtStr(old(State()), s[..i], FMT_ATTR)
      {
        assert s[..i + 1][..i] == s[..i];
        if s[i] == NEWLINE {
          NewLine();
        } else {
          WriteByte(s[i], FMT_ATTR);
        }
      }
      assert s[..|s|] == s;
    }
  }
}
