/** `VGAWriter` of the first crate: a cursor over the flat 4000-byte text
    buffer at 0xb8000, which the model passes in as an array. Its `Color`
    enum and `ColorData::new` are the same as the kernel's, so the model
    uses `TextMode.VgaColor` and `TextMode.ColorData` for them. */
module Writer {
  import opened Machine
  import opened TextMode
  import opened FlatText

  /** The attribute byte `write_byte` stores: `color as u8`. */
  function Attr(color: VgaColor): (a: byte)
    ensures a as nat == Code(color) && a < 16
  {
    Code(color) as byte
  }

  class VgaWriter {
    const buffer: array<byte>
    var col: int
    var row: int

    ghost predicate Valid()
      reads this
    {
      buffer.Length == BUFFER_BYTES && 0 <= row < FLAT_HEIGHT && 0 <= col <= FLAT_WIDTH
    }

    ghost function State(): FlatState
      reads this, buffer
    {
      FlatState(buffer[..], col, row)
    }

    /** `new`: the cursor starts at the top left. */
    constructor(buffer: array<byte>)
      requires buffer.Length == BUFFER_BYTES
      ensures Valid() && this.buffer == buffer && col == 0 && row == 0
    {
      this.buffer := buffer;
      col := 0;
      row := 0;
    }

    method WriteByte(b: byte, color: VgaColor)
      requires Valid()
      modifies this, buffer
      ensures Valid() && State() == AfterFlatWriteByte(old(State()), b, Attr(color))
    {
      if col >= FLAT_WIDTH {
        NewLine();
      }
      var pos := row * FLAT_WIDTH + col;
      buffer[pos * 2] := b;
      buffer[pos * 2 + 1] := Attr(color);
      col := col + 1;
    }

    method WriteStr(s: seq<byte>, color: VgaColor)
      requires Valid()
      modifies this, buffer
      ensures Valid() && State() == AfterFlatRawStr(old(State()), s, Attr(color))
    {
      for i := 0 to |s|
        invariant Valid()
        invariant State() == AfterFlatRawStr(old(State()), s[..i], Attr(color))
      {
        RawStrStep(old(State()), s, i, Attr(color));
        WriteByte(s[i], color);
      }
      assert s[..|s|] == s;
    }

    method ShiftRowsUp()
      requires Valid()
      modifies buffer
      ensures Valid() && State() == old(State()).(bytes := FlatShiftRowsUp(old(buffer[..])))
    {
      for r := 1 to FLAT_HEIGHT
        invariant forall i :: 0 <= i < BUFFER_BYTES ==>
          buffer[i] == if i < ROW_BYTES * (r - 1) then old(buffer[i + ROW_BYTES]) else old(buffer[i])
      {
        for c := 0 to FLAT_WIDTH
          invariant forall i :: 0 <= i < BUFFER_BYTES ==>
            buffer[i] == if i < ROW_BYTES * (r - 1) + 2 * c then old(buffer[i + ROW_BYTES]) else old(buffer[i])
        {
          var character := buffer[(r * FLAT_WIDTH + c) * 2];
          var color := buffer[(r * FLAT_WIDTH + c) * 2 + 1];
          buffer[((r - 1) * FLAT_WIDTH + c) * 2] := character;
          buffer[((r - 1) * FLAT_WIDTH + c) * 2 + 1] := color;
        }
      }
      assert buffer[..] == FlatShiftRowsUp(old(buffer[..]));
    }

    method ClearRow(r: int)
      requires Valid() && 0 <= r < FLAT_HEIGHT
      modifies buffer
      ensures Valid() && State() == old(State()).(bytes := FlatClearRow(old(buffer[..]), r))
    {
      for c := 0 to FLAT_WIDTH
        invariant forall i :: 0 <= i < BUFFER_BYTES ==>
          buffer[i] == if ROW_BYTES * r <= i < ROW_BYTES * r + 2 * c then 0 else old(buffer[i])
      {
        buffer[(r * FLAT_WIDTH + c) * 2] := 0;
        buffer[(r * FLAT_WIDTH + c) * 2 + 1] := 0;
      }
      assert buffer[..] == FlatClearRow(old(buffer[..]), r);
    }

    method NewLine()
      requires Valid()
      modifies this, buffer
      ensures Valid() && State() == AfterFlatNewLine(old(State()))
    {
      if row < FLAT_HEIGHT - 1 {
        row := row + 1;
        col := 0;
      } else {
        ShiftRowsUp();
        ClearRow(FLAT_HEIGHT - 1);
        col := 0;
      }
    }

    /** `clear_screen` zeroes every row and, unlike the kernel terminal's,
        leaves the cursor where it was. */
    method ClearScreen()
      requires Valid()
      modifies buffer
      ensures Valid() && State() == old(State()).(bytes := Zeroes())
    {
      for r := 0 to FLAT_HEIGHT
        invariant Valid() && col == old(col) && row == old(row)
        invariant forall i :: 0 <= i < BUFFER_BYTES ==> buffer[i] == if i < ROW_BYTES * r then 0 else old(buffer[i])
      {
        ClearRow(r);
      }
      assert buffer[..] == Zeroes();
    }

    /** The `core::fmt::Write` implementation: newline, or the byte in
        white. */
    method WriteFmt(s: seq<byte>)
      requires Valid()
      modifies this, buffer
      ensures Valid() && State() == AfterFlatFmtStr(old(State()), s, Attr(White))
    {
      for i := 0 to |s|
        invariant Valid()
        invariant State() == AfterFlatFmtStr(old(State()), s[..i], Attr(White))
      {
        assert s[..i + 1][..i] == s[..i];
        if s[i] == NEWLINE {
          NewLine();
        } else {
          WriteByte(s[i], White);
        }
      }
      assert s[..|s|] == s;
    }
  }
}
