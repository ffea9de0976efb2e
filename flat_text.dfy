/** The flat text buffer of the first crate's two writers (`VGAWriter` and
    `VGABuffer`): 25 rows of 80 cells, each cell two bytes (character, then
    attribute), 4000 bytes in all, addressed through a raw pointer. This
    module states what their operations do to the bytes and the cursor. */
module FlatText {
  import opened Machine

  const FLAT_HEIGHT: int := 25
  const FLAT_WIDTH: int := 80
  /** Bytes in one row: 80 cells of two bytes. */
  const ROW_BYTES: int := 160
  const BUFFER_BYTES: int := 4000
  const NEWLINE: byte := 0x0a

  /** Where a cell's character byte lies; its attribute byte follows. */
  function CellOffset(row: int, col: int): (i: int)
    requires 0 <= row < FLAT_HEIGHT && 0 <= col < FLAT_WIDTH
    ensures 0 <= i && i + 1 < BUFFER_BYTES && i % 2 == 0
    ensures ROW_BYTES * row <= i < ROW_BYTES * (row + 1)
  {
    (row * FLAT_WIDTH + col) * 2
  }

  /** Distinct cells own distinct bytes. */
  lemma CellOffsetInjective(r1: int, c1: int, r2: int, c2: int)
    requires 0 <= r1 < FLAT_HEIGHT && 0 <= c1 < FLAT_WIDTH
    requires 0 <= r2 < FLAT_HEIGHT && 0 <= c2 < FLAT_WIDTH
    requires CellOffset(r1, c1) == CellOffset(r2, c2) || CellOffset(r1, c1) == CellOffset(r2, c2) + 1
    ensures r1 == r2 && c1 == c2
  {
  }

  /** The state of a writer: the 4000 bytes and the cursor. */
  datatype FlatState = FlatState(bytes: seq<byte>, col: int, row: int)

  /** The invariant every operation keeps. */
  predicate FlatOk(t: FlatState) {
    |t.bytes| == BUFFER_BYTES && 0 <= t.row < FLAT_HEIGHT && 0 <= t.col <= FLAT_WIDTH
  }

  /** The bytes with one cell's character and attribute replaced. */
  function FlatPut(s: seq<byte>, row: int, col: int, ch: byte, attr: byte): (u: seq<byte>)
    requires |s| == BUFFER_BYTES && 0 <= row < FLAT_HEIGHT && 0 <= col < FLAT_WIDTH
    ensures |u| == BUFFER_BYTES
    ensures u[CellOffset(row, col)] == ch && u[CellOffset(row, col) + 1] == attr
    ensures forall i :: 0 <= i < BUFFER_BYTES && i != CellOffset(row, col) && i != CellOffset(row, col) + 1 ==> u[i] == s[i]
  {
    s[CellOffset(row, col) := ch][CellOffset(row, col) + 1 := attr]
  }

  /** `shift_rows_up`: rows 1..24 each move up one row; the last row's bytes
      stay as they were. */
  function FlatShiftRowsUp(s: seq<byte>): (u: seq<byte>)
    requires |s| == BUFFER_BYTES
    ensures |u| == BUFFER_BYTES
  {
    seq(BUFFER_BYTES, i requires 0 <= i < BUFFER_BYTES =>
      if i < ROW_BYTES * (FLAT_HEIGHT - 1) then s[i + ROW_BYTES] else s[i])
  }

  /** `clear_row`: the 160 bytes of one row become zero. */
  function FlatClearRow(s: seq<byte>, row: int): (u: seq<byte>)
    requires |s| == BUFFER_BYTES
    ensures |u| == BUFFER_BYTES
  {
    seq(BUFFER_BYTES, i requires 0 <= i < BUFFER_BYTES =>
      if ROW_BYTES * row <= i < ROW_BYTES * (row + 1) then 0 else s[i])
  }

  /** Every byte zero: what `clear_screen` leaves. */
  function Zeroes(): (u: seq<byte>)
    ensures |u| == BUFFER_BYTES && forall i :: 0 <= i < BUFFER_BYTES ==> u[i] == 0
  {
    seq(BUFFER_BYTES, _ => 0)
  }

  /** Seen cell by cell, shifting moves every cell of rows 1..24 up one row
      and keeps the cells of the last row. */
  lemma ShiftRowsUpMovesCells(s: seq<byte>, row: int, col: int)
    requires |s| == BUFFER_BYTES && 0 <= row < FLAT_HEIGHT && 0 <= col < FLAT_WIDTH
    ensures row < FLAT_HEIGHT - 1 ==>
      FlatShiftRowsUp(s)[CellOffset(row, col)] == s[CellOffset(row + 1, col)] &&
      FlatShiftRowsUp(s)[CellOffset(row, col) + 1] == s[CellOffset(row + 1, col) + 1]
    ensures row == FLAT_HEIGHT - 1 ==>
      FlatShiftRowsUp(s)[CellOffset(row, col)] == s[CellOffset(row, col)] &&
      FlatShiftRowsUp(s)[CellOffset(row, col) + 1] == s[CellOffset(row, col) + 1]
  {
    if row < FLAT_HEIGHT - 1 {
      assert CellOffset(row + 1, col) == CellOffset(row, col) + ROW_BYTES;
    }
  }

  /** `new_line`: the next row, or shift and clear the last row when already
      there; the column returns to 0. */
  function AfterFlatNewLine(t: FlatState): (u: FlatState)
    requires FlatOk(t)
    ensures FlatOk(u) && u.col == 0
    ensures t.row < FLAT_HEIGHT - 1 ==> u.row == t.row + 1 && u.bytes == t.bytes
    ensures t.row == FLAT_HEIGHT - 1 ==> u.row == t.row
    ensures t.row == FLAT_HEIGHT - 1 ==> forall i :: 0 <= i < BUFFER_BYTES ==>
      u.bytes[i] == if i < ROW_BYTES * (FLAT_HEIGHT - 1) then t.bytes[i + ROW_BYTES] else 0
  {
    if t.row < FLAT_HEIGHT - 1 then FlatState(t.bytes, 0, t.row + 1)
    else FlatState(FlatClearRow(FlatShiftRowsUp(t.bytes), FLAT_HEIGHT - 1), 0, t.row)
  }

  /** `write_byte`: wrap when the line is full, then store the byte and the
      attribute at the cursor's cell and advance. */
  function AfterFlatWriteByte(t: FlatState, b: byte, attr: byte): (u: FlatState)
    requires FlatOk(t)
    ensures FlatOk(u) && 1 <= u.col
    ensures u.bytes[CellOffset(u.row, u.col - 1)] == b && u.bytes[CellOffset(u.row, u.col - 1) + 1] == attr
    ensures t.col < FLAT_WIDTH ==> u.row == t.row && u.col == t.col + 1
    ensures t.col < FLAT_WIDTH ==> forall i :: 0 <= i < BUFFER_BYTES && i != CellOffset(t.row, t.col) && i != CellOffset(t.row, t.col) + 1 ==>
      u.bytes[i] == t.bytes[i]
    ensures t.col == FLAT_WIDTH ==> u.col == 1
  {
    var v := if t.col >= FLAT_WIDTH then AfterFlatNewLine(t) else t;
    FlatState(FlatPut(v.bytes, v.row, v.col, b, attr), v.col + 1, v.row)
  }

  /** The inherent `write_str`: `write_byte` for every byte. */
  function AfterFlatRawStr(t: FlatState, s: seq<byte>, attr: byte): (u: FlatState)
    requires FlatOk(t)
    ensures FlatOk(u)
  {
    if s == [] then t else AfterFlatWriteByte(AfterFlatRawStr(t, s[..|s| - 1], attr), s[|s| - 1], attr)
  }

  lemma RawStrStep(t: FlatState, s: seq<byte>, i: int, attr: byte)
    requires FlatOk(t) && 0 <= i < |s|
    ensures AfterFlatRawStr(t, s[..i + 1], attr) == AfterFlatWriteByte(AfterFlatRawStr(t, s[..i], attr), s[i], attr)
  {
    assert s[..i + 1][..i] == s[..i];
  }

  /** The `Write` implementation's `write_str`: the newline byte starts a new
      line, every other byte is written with the one attribute. */
  function AfterFlatFmtStr(t: FlatState, s: seq<byte>, attr: byte): (u: FlatState)
    requires FlatOk(t)
    ensures FlatOk(u)
  {
    if s == [] then t
    else
      var v := AfterFlatFmtStr(t, s[..|s| - 1], attr);
      if s[|s| - 1] == NEWLINE then AfterFlatNewLine(v) else AfterFlatWriteByte(v, s[|s| - 1], attr)
  }

  /** Without a newline byte the `Write` implementation is the raw
      `write_str`. */
  lemma {:induction false} FlatFmtIsRawWithoutNewLine(t: FlatState, s: seq<byte>, attr: byte)
    requires FlatOk(t) && forall i :: 0 <= i < |s| ==> s[i] != NEWLINE
    ensures AfterFlatFmtStr(t, s, attr) == AfterFlatRawStr(t, s, attr)
  {
    if s != [] {
      FlatFmtIsRawWithoutNewLine(t, s[..|s| - 1], attr);
    }
  }

  /** Each newline byte moves the cursor to a row start; a string of n
      newline bytes from the top row ends on row min(n, 24). */
  lemma {:induction false} NewLinesCountRows(t: FlatState, n: nat, attr: byte)
    requires FlatOk(t) && t.row == 0
    ensures AfterFlatFmtStr(t, seq(n, _ => NEWLINE), attr).row == if n < FLAT_HEIGHT then n else FLAT_HEIGHT - 1
    ensures n > 0 ==> AfterFlatFmtStr(t, seq(n, _ => NEWLINE), attr).col == 0
  {
    if n > 0 {
      assert seq(n, _ => NEWLINE)[..n - 1] == seq(n - 1, _ => NEWLINE);
      NewLinesCountRows(t, n - 1, attr);
    }
  }
}
