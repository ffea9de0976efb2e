# A verified model of the phils-rust-os display, timer and random-number core

phils-rust-os is a small x86-64 hobby kernel written in Rust. This project
models in Dafny the parts of it that are integer computation over memory
buffers, and proves what they do:

- **The VGA text screen** of the kernel (`VGATextMode`, 25 rows of 80
  character cells). The model covers cell writes, the row, column and
  rectangle clears, the shifts without wrap and the rotations with wrap,
  and the attribute byte `ColorData::new`. The screen is a class over an
  `array2` of cells. A ghost snapshot of the array as a grid value ties
  each method to a pure function of the grid. Lemmas about those functions
  include the rotations undoing each other and shifts composing.
- **The three generations of the text terminal**, each a cursor (column,
  row) that wraps at column 80 and scrolls at row 25:
  - the kernel's `VGATextModeTerminal`, with newline, carriage return,
    backspace and the blinking cursor;
  - the first crate's older `VGATextModeTerminal`;
  - the two writers that store into the flat 4000-byte text buffer at
    0xb8000 (`VGAWriter` and the boot screen's `VGABuffer`).

  Every method is proved against a function of the terminal's state, and
  the cursor invariant (row below 25, column at most 80) is proved to hold
  after every operation.
- **The text-mode raster algorithms**: Bresenham's `draw_line`, the
  midpoint `draw_circle` with its bounds-checked `safe_write`, and
  `draw_point`. Each is proved to paint exactly a list of points. Further
  lemmas prove the shape of the line, that the circle stays in its box,
  and that the circle's offsets are symmetric. A line whose loop range
  runs backwards draws nothing (see Findings); a corrected line is proved
  to join its two ends in every direction.
- **The kernel's pixel renderer**, a back buffer of bytes laid out by the
  boot loader's geometry record:
  - `set_pixel` for each pixel format, and `clear` over whole chunks;
  - `draw_filled_circle` and `present`;
  - the bouncing balls of `run_bouncy_circles`, modelled as one frame of
    its animation loop and its start-up guard.
- **The timer**:
  - the PIT reload divisor and the three port writes of `init_pit`;
  - the tick counter and the cursor flag of the timer interrupt handler;
  - the PIC interrupt vectors.
- **The first crate's linear congruential generator** and its four
  integer range functions, including the signed ones that can return a
  value below the range's start.

Rust panics that a valid state can reach are modelled as outcomes. A method
returns `panicked`, or a function returns `None`. Examples: a backspace on a
full line, `set_pixel` in RGB on a pixel of fewer than three bytes, `clear`
with a pixel size of 0, and overflow in the signed range functions. An index
that only a caller's out-of-range argument can produce is excluded by a
precondition. Fixed-width integers are unbounded in the model. Their wrap
at 2^64, truncating `as i32`/`as i64` casts and Rust's truncating `/` and
`%` are written out in module `Machine`. The `usize as isize` casts of the text-mode drawing functions are not written out: their arguments are bounded instead (see Left out). Arithmetic follows a debug
build, where an integer overflow that Rust checks panics; a release build
wraps instead, and the model does not follow it there.

`src/vga_text_mode_terminal.rs` and `src/vga_text_mode_drawing.rs` import
names (`VGAColorCode`, `VGA_TEXT_MODE`, `write`) that only the kernel's
`vga_text_mode.rs` defines. They are modelled against that kernel grid.
`ColorData::new` of `src/vga_text_mode.rs` (lines 40-42) is the same
expression as the kernel's, so `TextMode.ColorData` models both.

Files: `machine.dfy` (integer widths), `text_mode.dfy` (the grid),
`terminal.dfy` (kernel terminal), `legacy_terminal.dfy` (older terminal),
`flat_text.dfy` (flat 4000-byte buffer), `writer.dfy` (`VGAWriter`),
`boot_screen.dfy` (`VGABuffer`), `drawing.dfy`, `framebuffer.dfy`,
`interrupts.dfy`, `random.dfy`.

## Model

| member | source | states |
|---|---|---|
| TextMode.Code | kernel/src/vga_text_mode.rs:13-30 | every colour's `repr(u8)` discriminant is below 16 |
| TextMode.ColorData | kernel/src/vga_text_mode.rs:61-63 | the low nibble of the attribute is the foreground code, bits 4-6 are the low three bits of the background, bit 7 is set exactly when blink is on or the background is bright |
| TextMode.Put | kernel/src/vga_text_mode.rs:73-78 | definition, no contract of its own: the grid with one cell replaced, the value `Write` is specified by |
| TextMode.Cleared | kernel/src/vga_text_mode.rs:248-296 | definition, no contract of its own: the cells of a row and column range blank, the others kept; `ClearedNothing` proves an empty range changes nothing |
| TextMode.ShiftUp | kernel/src/vga_text_mode.rs:122-130 | definition, no contract of its own: row r takes row r + x, the bottom x rows blank; its meaning is proved by `ShiftUpIsClearedRotateUp`, `ShiftUpCompose` and `ShiftUpThenDown` |
| TextMode.ShiftDown | kernel/src/vga_text_mode.rs:132-140 | definition, no contract of its own: row r takes row r - x, the top x rows blank; see `ShiftDownIsClearedRotateDown` and `ShiftUpThenDown` |
| TextMode.ShiftLeft | kernel/src/vga_text_mode.rs:102-110 | definition, no contract of its own: the documented left shift, column c taking column c + x; see `ShiftLeftIsClearedRotateLeft`, `ShiftLeftCompose` and `ShiftLeftThenRight` |
| TextMode.ShiftRight | kernel/src/vga_text_mode.rs:112-120 | definition, no contract of its own: the documented right shift, column c taking column c - x; see `ShiftRightIsClearedRotateRight` and `ShiftLeftThenRight` |
| TextMode.RotateLeft | kernel/src/vga_text_mode.rs:146-169 | definition, no contract of its own: cell c of every row takes cell `LeftSource(c, x)`, which `SourcesAreModular` proves is (c + x) mod 80; `RotateLeftRight` proves `RotateRight` undoes it |
| TextMode.RotateRight | kernel/src/vga_text_mode.rs:171-189 | definition, no contract of its own: cell c of every row takes cell (c - x) mod 80 (`SourcesAreModular`); `RotateRightLeft` proves `RotateLeft` undoes it |
| TextMode.RotateUp | kernel/src/vga_text_mode.rs:191-215 | definition, no contract of its own: row r takes row (r + x) mod 25 (`SourcesAreModular`); `RotateUpDown` proves `RotateDown` undoes it |
| TextMode.RotateDown | kernel/src/vga_text_mode.rs:217-241 | definition, no contract of its own: row r takes row (r - x) mod 25 (`SourcesAreModular`); `RotateDownUp` proves `RotateUp` undoes it |
| TextMode.SourcesAreModular | kernel/src/vga_text_mode.rs:146-241 | the wrapping shifts take column c to (c + x) mod 80 or (c - x) mod 80, and row r to (r + x) mod 25 or (r - x) mod 25 |
| TextMode.RowRotatedLeft | kernel/src/vga_text_mode.rs:153-168 | one row rotated left by x: cell c holds the old cell (c + x) mod 80 |
| TextMode.RowRotatedRight | kernel/src/vga_text_mode.rs:178-188 | one row rotated right by x: cell c holds the old cell (c - x) mod 80 |
| TextMode.RowMovedLeft | kernel/src/vga_text_mode.rs:105-107 | the move loop of a left shift: columns below 80 - x take the cell x further right, the last x columns keep theirs |
| TextMode.RowMovedRight | kernel/src/vga_text_mode.rs:115-117 | the reversed move loop of a right shift: columns from x on take the cell x further left, the first x keep theirs |
| TextMode.RotateLeftRight | kernel/src/vga_text_mode.rs:146-189 | rotating left and then right by the same x restores the grid |
| TextMode.RotateRightLeft | kernel/src/vga_text_mode.rs:146-189 | rotating right and then left by the same x restores the grid |
| TextMode.RotateUpDown | kernel/src/vga_text_mode.rs:191-241 | rotating the rows up and then down by the same x restores the grid |
| TextMode.RotateDownUp | kernel/src/vga_text_mode.rs:191-241 | rotating the rows down and then up by the same x restores the grid |
| TextMode.ShiftUpIsClearedRotateUp | kernel/src/vga_text_mode.rs:122-130 | shifting up by x is rotating up by x and blanking the bottom x rows |
| TextMode.ShiftDownIsClearedRotateDown | kernel/src/vga_text_mode.rs:132-140 | shifting down by x is rotating down by x and blanking the top x rows |
| TextMode.ShiftLeftIsClearedRotateLeft | kernel/src/vga_text_mode.rs:102-110 | the documented left shift is rotating left and blanking the last x columns |
| TextMode.ShiftRightIsClearedRotateRight | kernel/src/vga_text_mode.rs:112-120 | the documented right shift is rotating right and blanking the first x columns |
| TextMode.ShiftUpCompose | kernel/src/vga_text_mode.rs:122-130 | shifting up by a and then by b is shifting up by a + b |
| TextMode.ShiftLeftCompose | kernel/src/vga_text_mode.rs:102-110 | the documented left shift by a and then by b is the shift by a + b |
| TextMode.ShiftUpThenDown | kernel/src/vga_text_mode.rs:122-140 | shifting up and back down restores every row that stayed on screen and leaves the top x rows blank |
| TextMode.ShiftLeftThenRight | kernel/src/vga_text_mode.rs:102-120 | the documented shifts left and back right restore every column that stayed and blank the first x |
| TextMode.StagedRotateUp | kernel/src/vga_text_mode.rs:192-215 | staging the top x rows, moving the rest up and copying the staged rows to the bottom is the rotation up by x |
| TextMode.StagedRotateDown | kernel/src/vga_text_mode.rs:218-241 | staging the bottom x rows, moving the rest down and copying them to the top is the rotation down by x |
| TextMode.CopiedUpThenCleared | kernel/src/vga_text_mode.rs:123-130 | the copy loop of `shift_up_by_x` followed by `clear_row_range` is the shift up |
| TextMode.CopiedDownThenCleared | kernel/src/vga_text_mode.rs:133-140 | the reversed copy loop of `shift_down_by_x` followed by `clear_row_range` is the shift down |
| TextMode.RotatedRows | kernel/src/vga_text_mode.rs:153-188 | each row of a grid rotation is that row's own rotation |
| TextMode.ShiftedRows | kernel/src/vga_text_mode.rs:104-119 | per row, the move loop followed by blanking the vacated columns gives the documented shift of that row |
| TextMode.ShiftRightSteps | kernel/src/vga_text_mode.rs:113-120 | definition, no contract of its own: the grid after the first n row passes of `shift_right_by_x` as written; `ShiftRightAsWritten` and `ShiftRightDefect` state what the full loop leaves |
| TextMode.ShiftRightAsWritten | kernel/src/vga_text_mode.rs:113-120 | for x <= 25, each row r >= x is moved right by x but keeps its first x cells; each row r < x is blank in columns below 25 and wherever c - x < r, and elsewhere takes the cell x further left |
| TextMode.ShiftRightDefect | kernel/src/vga_text_mode.rs:118 | as written, a right shift by 1 blanks cell (0, 1), which should receive old cell (0, 0), and leaves (1, 0) unblanked, so it differs from the documented shift |
| TextMode.HorizontalShiftClearsOutOfBounds | kernel/src/vga_text_mode.rs:108-118 | the clear in `shift_left_by_x` leaves the grid exactly when x >= 1; the one in `shift_right_by_x` exactly when x > 25 |
| TextMode.VgaTextMode.constructor | kernel/src/vga_text_mode.rs:67-71 | a screen over a fresh 25x80 array |
| TextMode.VgaTextMode.Write | kernel/src/vga_text_mode.rs:73-78 | cell (row, col) takes the byte and colour; every other cell is unchanged |
| TextMode.VgaTextMode.ClearRow | kernel/src/vga_text_mode.rs:80-84 | exactly the cells of one row become blank |
| TextMode.VgaTextMode.ClearColumn | kernel/src/vga_text_mode.rs:86-90 | exactly the cells of one column become blank |
| TextMode.VgaTextMode.ClearScreen | kernel/src/vga_text_mode.rs:92-96 | every cell becomes blank |
| TextMode.VgaTextMode.ClearRowRange | kernel/src/vga_text_mode.rs:248-252 | exactly the rows of the half-open range become blank; an empty range changes nothing |
| TextMode.VgaTextMode.ClearColumnRange | kernel/src/vga_text_mode.rs:255-264 | exactly the columns of the half-open range become blank in every row |
| TextMode.VgaTextMode.ClearSubrow | kernel/src/vga_text_mode.rs:267-274 | exactly the cells of the column range in one row become blank |
| TextMode.VgaTextMode.ClearSubcolumn | kernel/src/vga_text_mode.rs:277-284 | exactly the cells of the row range in one column become blank |
| TextMode.VgaTextMode.ClearRect | kernel/src/vga_text_mode.rs:287-296 | exactly the cells of the rectangle become blank |
| TextMode.VgaTextMode.CopyRow | kernel/src/vga_text_mode.rs:125-127 | the inner copy loop: row dst becomes row src and no other row changes |
| TextMode.VgaTextMode.MoveRowsUp | kernel/src/vga_text_mode.rs:124-128 | the row loop copying rows x.. up by x, top to bottom, leaves the old rows in order |
| TextMode.VgaTextMode.MoveRowsDown | kernel/src/vga_text_mode.rs:134-138 | the reversed row loop copying rows down by x, bottom to top, leaves the old rows in order |
| TextMode.VgaTextMode.ShiftUpByX | kernel/src/vga_text_mode.rs:123-130 | row r takes old row r + x, the bottom x rows are blank |
| TextMode.VgaTextMode.ShiftDownByX | kernel/src/vga_text_mode.rs:133-140 | row r takes old row r - x, the top x rows are blank |
| TextMode.VgaTextMode.ReadCells | kernel/src/vga_text_mode.rs:155-157 | the temporary row takes the cells of the range in order and keeps the rest |
| TextMode.VgaTextMode.WriteCells | kernel/src/vga_text_mode.rs:165-167 | the saved cells go back to the range of the row; nothing else changes |
| TextMode.VgaTextMode.MoveCellsLeft | kernel/src/vga_text_mode.rs:160-162 | columns x.. of one row move left by x in place, left to right, without losing a cell |
| TextMode.VgaTextMode.MoveCellsRight | kernel/src/vga_text_mode.rs:182-184 | columns ..80 - x of one row move right by x in place, right to left, without losing a cell |
| TextMode.VgaTextMode.RotateRowLeft | kernel/src/vga_text_mode.rs:153-167 | one pass of the left wrap rotates that row left by x; the temporary row carries on |
| TextMode.VgaTextMode.RotateRowRight | kernel/src/vga_text_mode.rs:178-187 | one pass of the right wrap rotates that row right by x |
| TextMode.VgaTextMode.ShiftLeftByXWithWrap | kernel/src/vga_text_mode.rs:147-169 | every row rotates left by x |
| TextMode.VgaTextMode.ShiftRightByXWithWrap | kernel/src/vga_text_mode.rs:172-189 | every row rotates right by x |
| TextMode.VgaTextMode.ReadRow | kernel/src/vga_text_mode.rs:199-201 | a temporary row becomes a copy of a screen row |
| TextMode.VgaTextMode.WriteRow | kernel/src/vga_text_mode.rs:211-213 | a screen row becomes the temporary row; no other row changes |
| TextMode.VgaTextMode.ReadRows | kernel/src/vga_text_mode.rs:193-202 | the blank temporary grid takes count screen rows from start on; its other rows stay blank |
| TextMode.VgaTextMode.WriteRows | kernel/src/vga_text_mode.rs:210-214 | count screen rows take the staged rows in order |
| TextMode.VgaTextMode.ShiftUpByXWithWrap | kernel/src/vga_text_mode.rs:192-215 | the rows rotate up by x: row r takes old row (r + x) mod 25 |
| TextMode.VgaTextMode.ShiftDownByXWithWrap | kernel/src/vga_text_mode.rs:218-241 | the rows rotate down by x: row r takes old row (r - x) mod 25 |
| TextMode.VgaTextMode.ShiftLeftByX | kernel/src/vga_text_mode.rs:103-110 | as written, the call panics exactly when x >= 1; with x == 0 the screen is unchanged |
| TextMode.VgaTextMode.ShiftRightByX | kernel/src/vga_text_mode.rs:113-120 | as written, the call panics exactly when x > 25; otherwise the screen ends as `ShiftRightAsWritten` describes |
| TextMode.VgaTextMode.ShiftLeftByXFixed | kernel/src/vga_text_mode.rs:102-110 | the documented left shift: columns move left by x and the last x are blanked |
| TextMode.VgaTextMode.ShiftRightByXFixed | kernel/src/vga_text_mode.rs:112-120 | the documented right shift: columns move right by x and the first x are blanked |
| Terminal.ScrollClearIsRedundant | kernel/src/vga_text_mode_terminal.rs:80-84 | after scrolling up one row, clearing the bottom row changes nothing |
| Terminal.AfterNewLine | kernel/src/vga_text_mode_terminal.rs:76-85 | keeps the cursor invariant and sets column 0; below the last row it advances and leaves the grid alone, on the last row it stays and the grid shifts up by one |
| Terminal.AfterWriteByte | kernel/src/vga_text_mode_terminal.rs:36-44 | keeps the cursor invariant; the cell left of the new cursor holds the byte; a full line wraps first |
| Terminal.AfterBackspace | kernel/src/vga_text_mode_terminal.rs:54-59 | panics exactly on a full line; otherwise stays on the row and steps left unless at column 0 |
| Terminal.AfterByte | kernel/src/vga_text_mode_terminal.rs:47-64 | keeps the cursor invariant; panics exactly for a backspace on a full line |
| Terminal.AfterWriteStr | kernel/src/vga_text_mode_terminal.rs:46-66 | every state reached keeps the cursor invariant |
| Terminal.AfterToggleCursor | kernel/src/vga_text_mode_terminal.rs:25-34 | panics exactly on a full line; otherwise the cursor stays and its cell shows '_' when the flag is set, ' ' otherwise |
| Terminal.PlainBytesFillTheLine | kernel/src/vga_text_mode_terminal.rs:46-66 | plain bytes that fit on the line are laid out from the cursor, the cursor moves past them and no other cell changes |
| Terminal.FullLineThenBackspacePanics | kernel/src/vga_text_mode_terminal.rs:54-59 | after 80 plain bytes from column 0 the cursor is at column 80, and a following backspace panics |
| Terminal.ReturnIsNewLine | kernel/src/vga_text_mode_terminal.rs:50-52 | a carriage return and a newline both do `new_line` |
| Terminal.WriteStrConcat | kernel/src/vga_text_mode_terminal.rs:46-66 | printing two strings in turn is printing their concatenation, and a panic in the first stops both |
| Terminal.VgaTextModeTerminal.constructor | kernel/src/vga_text_mode_terminal.rs:21-23 | the cursor starts at (0, 0) |
| Terminal.VgaTextModeTerminal.ToggleCursor | kernel/src/vga_text_mode_terminal.rs:25-34 | the new state is `AfterToggleCursor` with the flag; it panics when that says so |
| Terminal.VgaTextModeTerminal.ShiftRowsUp | kernel/src/vga_text_mode_terminal.rs:68-70 | the grid shifts up by one row; the cursor is unchanged |
| Terminal.VgaTextModeTerminal.ClearRow | kernel/src/vga_text_mode_terminal.rs:72-74 | exactly that row becomes blank; the cursor is unchanged |
| Terminal.VgaTextModeTerminal.NewLine | kernel/src/vga_text_mode_terminal.rs:76-85 | the new state is `AfterNewLine` of the old |
| Terminal.VgaTextModeTerminal.WriteByte | kernel/src/vga_text_mode_terminal.rs:36-44 | the new state is `AfterWriteByte` of the old |
| Terminal.VgaTextModeTerminal.WriteStrByte | kernel/src/vga_text_mode_terminal.rs:48-64 | one byte of the loop: newline and CR start a line, backspace rubs out, others print; panics as `AfterByte` says |
| Terminal.VgaTextModeTerminal.WriteStr | kernel/src/vga_text_mode_terminal.rs:46-66 | the new state is `AfterWriteStr`, and the method panics exactly when it does |
| Terminal.VgaTextModeTerminal.WriteFmt | kernel/src/vga_text_mode_terminal.rs:101-106 | `write_str` in white |
| Terminal.VgaTextModeTerminal.ClearScreen | kernel/src/vga_text_mode_terminal.rs:87-92 | the grid is blank and the cursor is at (0, 0) |
| LegacyTerminal.AfterRawStr | src/vga_text_mode_terminal.rs:33-37 | keeps the cursor invariant; after a non-empty string the cell left of the cursor holds its last byte |
| LegacyTerminal.AfterFmtByte | src/vga_text_mode_terminal.rs:75-83 | one byte of the `Write` loop keeps the cursor invariant |
| LegacyTerminal.AfterFmtStr | src/vga_text_mode_terminal.rs:72-88 | the `Write` implementation keeps the cursor invariant |
| LegacyTerminal.FmtAgreesWithKernel | src/vga_text_mode_terminal.rs:72-88 | without carriage returns and backspaces the older `Write` and the kernel terminal's give the same state, and the kernel one does not panic |
| LegacyTerminal.FmtIsRawWithoutNewLine | src/vga_text_mode_terminal.rs:72-88 | without newline bytes the `Write` implementation is the raw `write_str` in white |
| LegacyTerminal.RawNewLineIsACell | src/vga_text_mode_terminal.rs:33-37 | the raw `write_str` prints a newline byte as a cell and moves along the row |
| LegacyTerminal.VgaTextModeTerminal.constructor | src/vga_text_mode_terminal.rs:19-21 | the cursor starts at (0, 0) |
| LegacyTerminal.VgaTextModeTerminal.ShiftRowsUp | src/vga_text_mode_terminal.rs:39-41 | the grid shifts up by one row |
| LegacyTerminal.VgaTextModeTerminal.ClearRow | src/vga_text_mode_terminal.rs:43-45 | exactly that row becomes blank |
| LegacyTerminal.VgaTextModeTerminal.NewLine | src/vga_text_mode_terminal.rs:47-56 | the new state is `AfterNewLine`: row at most 24, column 0, scrolling only on the last row |
| LegacyTerminal.VgaTextModeTerminal.WriteByte | src/vga_text_mode_terminal.rs:23-31 | the new state is `AfterWriteByte`: wrap when full, write at the cursor, advance |
| LegacyTerminal.VgaTextModeTerminal.WriteStr | src/vga_text_mode_terminal.rs:33-37 | the new state is `AfterRawStr` |
| LegacyTerminal.VgaTextModeTerminal.WriteFmt | src/vga_text_mode_terminal.rs:72-88 | the new state is `AfterFmtStr` |
| LegacyTerminal.VgaTextModeTerminal.ClearScreen | src/vga_text_mode_terminal.rs:58-63 | the grid is blank and the cursor is at (0, 0) |
| FlatText.CellOffset | src/vga_text_mode.rs:59-62 | a cell's character byte is even, inside its own row's 160 bytes, and followed by its attribute byte |
| FlatText.CellOffsetInjective | src/vga_text_mode.rs:59-62 | distinct cells own distinct bytes |
| FlatText.FlatPut | src/vga_text_mode.rs:60-63 | exactly the cell's two bytes take the character and the attribute |
| FlatText.FlatShiftRowsUp | src/vga_text_mode.rs:74-94 | keeps the 4000 bytes; `ShiftRowsUpMovesCells` states what it does to each cell |
| FlatText.FlatClearRow | src/vga_text_mode.rs:96-105 | keeps the 4000 bytes; `AfterFlatNewLine` states that the last row ends blank while the others keep their bytes |
| FlatText.Zeroes | src/vga_text_mode.rs:118-122 | every one of the 4000 bytes is zero |
| FlatText.ShiftRowsUpMovesCells | src/vga_text_mode.rs:74-94 | each cell of rows 0..23 takes the cell below it; the last row's bytes are unchanged |
| FlatText.AfterFlatNewLine | src/vga_text_mode.rs:107-116 | column 0; below the last row it advances and keeps the bytes; on the last row the rows move up and the last row is zero |
| FlatText.AfterFlatWriteByte | src/vga_text_mode.rs:54-66 | wraps when full, then the cell left of the new cursor holds the byte and attribute, and with room on the line no other byte changes |
| FlatText.AfterFlatRawStr | src/vga_text_mode.rs:68-72 | the raw `write_str` keeps the cursor invariant |
| FlatText.AfterFlatFmtStr | src/vga_text_mode.rs:126-139 | the `Write` implementation keeps the cursor invariant |
| FlatText.FlatFmtIsRawWithoutNewLine | src/vga_text_mode.rs:126-139 | without newline bytes the `Write` implementation is the raw `write_str` |
| FlatText.NewLinesCountRows | src/vga_text_mode.rs:107-116 | n newlines from row 0 end on row n, or on row 24 once the screen is full, at column 0 |
| Writer.Attr | src/vga_text_mode.rs:62 | the attribute byte is the colour's discriminant, below 16 |
| Writer.VgaWriter.constructor | src/vga_text_mode.rs:46-52 | the cursor starts at (0, 0) over the 4000-byte buffer |
| Writer.VgaWriter.WriteByte | src/vga_text_mode.rs:54-66 | the new state is `AfterFlatWriteByte` with the colour's attribute |
| Writer.VgaWriter.WriteStr | src/vga_text_mode.rs:68-72 | the new state is `AfterFlatRawStr` |
| Writer.VgaWriter.ShiftRowsUp | src/vga_text_mode.rs:74-94 | the bytes become `FlatShiftRowsUp` of the old bytes |
| Writer.VgaWriter.ClearRow | src/vga_text_mode.rs:96-105 | exactly the 160 bytes of the row become zero |
| Writer.VgaWriter.NewLine | src/vga_text_mode.rs:107-116 | the new state is `AfterFlatNewLine` |
| Writer.VgaWriter.ClearScreen | src/vga_text_mode.rs:118-122 | every byte is zero and the cursor stays where it was |
| Writer.VgaWriter.WriteFmt | src/vga_text_mode.rs:125-141 | newline bytes start a line, every other byte is written in white (15) |
| BootScreen.VgaBuffer.constructor | src/main.rs:25-31 | the cursor starts at (0, 0) |
| BootScreen.VgaBuffer.WriteByte | src/main.rs:33-45 | the new state is `AfterFlatWriteByte` with the given attribute |
| BootScreen.VgaBuffer.WriteStr | src/main.rs:47-51 | the new state is `AfterFlatRawStr` |
| BootScreen.VgaBuffer.ShiftRowsUp | src/main.rs:53-73 | the bytes become `FlatShiftRowsUp` of the old bytes |
| BootScreen.VgaBuffer.ClearRow | src/main.rs:75-84 | exactly the 160 bytes of the row become zero |
| BootScreen.VgaBuffer.NewLine | src/main.rs:86-95 | the new state is `AfterFlatNewLine` |
| BootScreen.VgaBuffer.ClearScreen | src/main.rs:97-101 | every byte is zero and the cursor stays where it was |
| BootScreen.VgaBuffer.WriteFmt | src/main.rs:104-120 | newline bytes start a line, every other byte is written with attribute 0x0b |
| Drawing.PaintOne | src/vga_text_mode_drawing.rs:56-60 | definition, no contract of its own: one bounds-checked write, which leaves the grid alone off the screen; `PaintCells` states its effect cell by cell |
| Drawing.PaintPoints | src/vga_text_mode_drawing.rs:5-102 | definition, no contract of its own: the writes of a point list in order; `PaintCells`, `PaintSnoc` and `PaintConcat` state what it does |
| Drawing.PaintCells | src/vga_text_mode_drawing.rs:56-60 | a cell holds the drawn value exactly when an on-screen point names it; every other cell keeps its value |
| Drawing.PaintConcat | src/vga_text_mode_drawing.rs:5-102 | painting two point lists in turn paints their concatenation |
| Drawing.Count | src/vga_text_mode_drawing.rs:29 | `lo..=hi` has hi - lo + 1 values, none when hi < lo |
| Drawing.Dist | src/vga_text_mode_drawing.rs:10-19 | the distance is the absolute difference |
| Drawing.Dir | src/vga_text_mode_drawing.rs:24-25 | the step is 1 or -1, and -1 when the start lies past the end |
| Drawing.Walk | src/vga_text_mode_drawing.rs:27-48 | a branch walk plots n points, the first at its start |
| Drawing.Swap | src/vga_text_mode_drawing.rs:38-48 | the same points with row and column exchanged |
| Drawing.LinePoints | src/vga_text_mode_drawing.rs:27-48 | definition, no contract of its own: the shallow branch's walk over x1..=x2, or the steep branch's over y1..=y2 with the coordinates exchanged; `LineShallowShape`, `LineSteepShape` and `LineEmptyExactly` state its length, ends and steps |
| Drawing.WalkSteps | src/vga_text_mode_drawing.rs:29-37 | along a walk the major coordinate moves one step per point and the minor one by 0 or one step |
| Drawing.WalkBetween | src/vga_text_mode_drawing.rs:27-48 | the Bresenham bound: every minor coordinate lies between its start and its end, and the last point reaches the end |
| Drawing.WalkShape | src/vga_text_mode_drawing.rs:27-48 | a forward walk from error 2 * dMinor - dMajor counts up the major axis, stays between the minor ends, and ends at the far corner |
| Drawing.LineShallowShape | src/vga_text_mode_drawing.rs:27-37 | shallow lines: one point per column x1..=x2, none when x1 > x2, from (x1, y1) to (x2, y2), rows between y1 and y2, moving at most one towards y2 per column |
| Drawing.LineSteepShape | src/vga_text_mode_drawing.rs:38-48 | steep lines: one point per row y1..=y2, none when y1 > y2, from (x1, y1) to (x2, y2), columns between x1 and x2, moving by at most one towards x2 per row |
| Drawing.SteepIsSwappedShallow | src/vga_text_mode_drawing.rs:38-48 | the steep branch plots the shallow branch's points for the exchanged axes, with row and column swapped back |
| Drawing.LineOnScreen | src/vga_text_mode_drawing.rs:5-50 | a line between two on-screen points stays on the screen |
| Drawing.LineEmptyExactly | src/vga_text_mode_drawing.rs:27-48 | as written, a line has no points exactly when its loop range runs backwards (x1 > x2 for a shallow line, y1 > y2 for a steep one); (5, 0) to (0, 0) and (0, 5) to (0, 0) draw nothing |
| Drawing.LinePointsFixed | src/vga_text_mode_drawing.rs:27-48 | the corrected line has one point more than the longer axis's distance and starts at (x1, y1); `LineFixedShape` proves it joins the two ends |
| Drawing.WalkJoins | src/vga_text_mode_drawing.rs:27-37 | a walk of dMajor + 1 points in either direction starts at its start, ends at its far corner, stays in the box between them and moves to a neighbouring cell at each step |
| Drawing.SwapJoins | src/vga_text_mode_drawing.rs:38-48 | exchanging row and column of a list of points that joins two ends joins the exchanged ends |
| Drawing.LineFixedShape | src/vga_text_mode_drawing.rs:27-48 | the corrected line has one point more than the longer axis's distance, starts at (x1, y1), ends at (x2, y2), stays in their box and steps to a neighbouring cell each time, in every direction |
| Drawing.LineFixedAgrees | src/vga_text_mode_drawing.rs:27-48 | where the loop range of `draw_line` runs forwards, the corrected line is exactly the line it draws |
| Drawing.LineFixedOnScreen | src/vga_text_mode_drawing.rs:5-50 | a corrected line between two on-screen points stays on the screen |
| Drawing.PaintNext | src/vga_text_mode_drawing.rs:30 | one unchecked write at an on-screen point |
| Drawing.DrawLine | src/vga_text_mode_drawing.rs:5-50 | for coordinates whose `isize` casts keep their value, the grid afterwards is the old grid painted with the points of `LinePoints` in order, one per value of the loop range |
| Drawing.DrawShallow | src/vga_text_mode_drawing.rs:27-37 | n passes of the shallow loop paint the first n points of the walk over the columns, in order |
| Drawing.DrawLineFixed | src/vga_text_mode_drawing.rs:5-50 | for any two on-screen ends, the grid afterwards is the old grid painted with the corrected line's points, which join the ends |
| Drawing.DrawSteep | src/vga_text_mode_drawing.rs:38-48 | n passes of the steep loop paint the first n points of the walk over the rows, in order |
| Drawing.Plot | src/vga_text_mode_drawing.rs:66-99 | each offset becomes the point at that offset from the centre |
| Drawing.CirclePoints | src/vga_text_mode_drawing.rs:62-101 | `draw_circle` plots at least eight points: first (cx + r, cy) and (cx - r, cy), and fifth and sixth (cx, cy - r) and (cx, cy + r) |
| Drawing.NextX | src/vga_text_mode_drawing.rs:79-83 | one loop step keeps x or steps it in by one, never more |
| Drawing.NextP | src/vga_text_mode_drawing.rs:79-83 | definition, no contract of its own: the decision value's update; `MidpointStep` proves it keeps the midpoint identity |
| Drawing.CircleLoop | src/vga_text_mode_drawing.rs:76-101 | definition, no contract of its own: the points of the `while x > y` loop, stopping once x < y after a step; `CircleLoopQuads` and `CircleLoopInBox` state their count and their box |
| Drawing.CircleLoopQuads | src/vga_text_mode_drawing.rs:76-101 | the loop plots whole groups of four mirror images, and nothing when it starts with x <= y |
| Drawing.StepOffsetsSymmetric | src/vga_text_mode_drawing.rs:90-100 | each step's offsets are closed under negating either coordinate and under exchanging them |
| Drawing.MidpointAtStart | src/vga_text_mode_drawing.rs:62-64 | the starting values x = r, y = 0, p = 1 - r satisfy the midpoint identity |
| Drawing.MidpointStep | src/vga_text_mode_drawing.rs:76-84 | each loop step keeps the decision value equal to the midpoint test x^2 - x + (y + 1)^2 - r^2 |
| Drawing.CircleLoopInBox | src/vga_text_mode_drawing.rs:76-101 | the loop keeps 0 <= y <= x <= r, so every point it plots is within r of the centre on both axes |
| Drawing.CircleInBox | src/vga_text_mode_drawing.rs:52-102 | every point `draw_circle` plots is within r of the centre on both axes |
| Drawing.SafeWrite | src/vga_text_mode_drawing.rs:56-60 | writes only when the point is on the screen; otherwise nothing changes |
| Drawing.WriteMirrors | src/vga_text_mode_drawing.rs:66-69 | four bounds-checked writes at the mirror images of an offset |
| Drawing.WriteStep | src/vga_text_mode_drawing.rs:90-100 | the writes of one step: four mirrors, and four more of the exchanged offset unless x == y |
| Drawing.DrawCircle | src/vga_text_mode_drawing.rs:52-102 | for any centre and radius whose `isize` casts keep their value, the grid afterwards is the old grid painted with the circle's points, off-screen ones skipped |
| Drawing.DrawPoint | src/vga_text_mode_drawing.rs:104-111 | a block at (x, y) when that is on the screen, no change otherwise |
| FrameBuffer.Gray | kernel/src/framebuffer.rs:114 | the grey level lies between the darkest and the brightest channel, so the u16 sum never loses a bit |
| FrameBuffer.GrayOfGray | kernel/src/framebuffer.rs:114 | a grey colour keeps its level |
| FrameBuffer.StoreWidth | kernel/src/framebuffer.rs:102-127 | definition, no contract of its own: how many bytes `set_pixel` stores for a format; `PixelBytes` bounds it by three |
| FrameBuffer.PixelBytes | kernel/src/framebuffer.rs:102-127 | the stored bytes have the format's width, at most three, begin with red for an unknown format, and are empty only for the other formats |
| FrameBuffer.ChunkBytes | kernel/src/framebuffer.rs:39-87 | `clear` stores one byte per chunk for grey and the fallback arm, and min(bpp, 3) for RGB, BGR and unknown |
| FrameBuffer.Overlay | kernel/src/framebuffer.rs:104-123 | the stored range takes the new bytes, every other byte keeps its value |
| FrameBuffer.AsI32 | kernel/src/framebuffer.rs:31-37 | `as i32` of a size fits in an i32, is at most the size, and equals it when it fits |
| FrameBuffer.ByteIndex | kernel/src/framebuffer.rs:96-97 | definition, no contract of its own: `(y * stride + x) * bytes_per_pixel`; `SetPixelFrame` and the `SetPixel` lemmas state which bytes from there on change |
| FrameBuffer.SetPixelResult | kernel/src/framebuffer.rs:89-128 | `set_pixel` keeps the buffer's length when it does not panic |
| FrameBuffer.SetPixelOffScreen | kernel/src/framebuffer.rs:90-92 | a point off the screen changes nothing |
| FrameBuffer.SetPixelPastEnd | kernel/src/framebuffer.rs:96-100 | a pixel that does not fit in the buffer changes nothing |
| FrameBuffer.SetPixelRgbBgr | kernel/src/framebuffer.rs:102-112 | with pixels of at least three bytes, RGB stores r, g, b and BGR b, g, r at the pixel's first three bytes; no other byte changes |
| FrameBuffer.SetPixelRgbNarrowPanics | kernel/src/framebuffer.rs:102-112 | with pixels of fewer than three bytes, RGB and BGR panic on the buffer's last pixel |
| FrameBuffer.SetPixelGray | kernel/src/framebuffer.rs:113-116 | U8 stores the grey level at the pixel's first byte and nothing else |
| FrameBuffer.SetPixelUnknown | kernel/src/framebuffer.rs:117-125 | an unknown format stores r, then g when bpp > 1 and b when bpp > 2, nothing beyond, and does not panic |
| FrameBuffer.SetPixelOther | kernel/src/framebuffer.rs:126 | any other format changes nothing |
| FrameBuffer.SetPixelFrame | kernel/src/framebuffer.rs:89-128 | `set_pixel` changes no byte outside its own pixel's stores |
| FrameBuffer.ClearedChunks | kernel/src/framebuffer.rs:43-51 | k chunks cleared keep the buffer's length |
| FrameBuffer.ClearedChunksBytes | kernel/src/framebuffer.rs:43-85 | in the first k chunks each offset the format writes holds the format's byte; every other byte, and every byte past the k chunks, keeps its value |
| FrameBuffer.ChunkCount | kernel/src/framebuffer.rs:43 | `chunks_exact_mut` yields the largest n with n * bpp <= len |
| FrameBuffer.ClearResult | kernel/src/framebuffer.rs:39-87 | `clear` panics exactly for a pixel size of 0, where `chunks_exact_mut` refuses a chunk size of 0; otherwise it keeps the buffer's length |
| FrameBuffer.ClearBytes | kernel/src/framebuffer.rs:39-87 | after `clear` each written offset of a whole chunk holds the format's byte; every other byte keeps its value, the incomplete chunk at the end and the offsets from 3 on among them |
| FrameBuffer.Renderer.constructor | kernel/src/framebuffer.rs:27-29 | the renderer holds the buffer and the geometry |
| FrameBuffer.Renderer.Width | kernel/src/framebuffer.rs:31-33 | the width as i32: at most the geometry's, and equal when it fits |
| FrameBuffer.Renderer.Height | kernel/src/framebuffer.rs:35-37 | the height as i32: at most the geometry's, and equal when it fits |
| FrameBuffer.Renderer.SetPixel | kernel/src/framebuffer.rs:89-128 | the buffer becomes `SetPixelResult` of the old buffer, and the method panics exactly when that says so |
| FrameBuffer.Renderer.StorePixel | kernel/src/framebuffer.rs:102-127 | the format's stores at a pixel that fits: the pixel bytes go in at the index, or a panic when they run past the end |
| FrameBuffer.Renderer.ClearChunk | kernel/src/framebuffer.rs:43-85 | one chunk of `clear` takes the format's leading bytes |
| FrameBuffer.Renderer.Clear | kernel/src/framebuffer.rs:39-87 | the buffer becomes `ClearResult`, and the method panics exactly for a pixel size of 0 |
| FrameBuffer.Renderer.Present | kernel/src/framebuffer.rs:141-143 | the target becomes a copy of the back buffer; the method panics exactly when the lengths differ |
| FrameBuffer.Renderer.DrawCircleRow | kernel/src/framebuffer.rs:133-137 | one row of the disk: `set_pixel` at the row's offsets inside the circle, in order |
| FrameBuffer.Renderer.DrawFilledCircle | kernel/src/framebuffer.rs:130-139 | the buffer becomes the old one painted at the disk's points in order, and the method panics exactly when a `set_pixel` does |
| FrameBuffer.RowPoints | kernel/src/framebuffer.rs:133-137 | definition, no contract of its own: the row's offsets inside the circle, in ascending order; `RowPointsExact` states which they are |
| FrameBuffer.DiskRows | kernel/src/framebuffer.rs:132-138 | definition, no contract of its own: the rows in ascending order; `DiskRowsExact` states which points they hold |
| FrameBuffer.FilledCircle | kernel/src/framebuffer.rs:130-139 | definition, no contract of its own: every point `draw_filled_circle` passes to `set_pixel`; `FilledCircleExact` and `FilledCircleNegative` state which they are |
| FrameBuffer.RowPointsExact | kernel/src/framebuffer.rs:133-137 | a row's points are exactly the offsets of the range inside the circle |
| FrameBuffer.DiskRowsExact | kernel/src/framebuffer.rs:132-138 | the rows' points are exactly the offsets of both ranges inside the circle |
| FrameBuffer.FilledCircleExact | kernel/src/framebuffer.rs:130-139 | `draw_filled_circle` plots (cx + dx, cy + dy) exactly when -r <= dx, dy <= r and dx^2 + dy^2 <= r^2 |
| FrameBuffer.FilledCircleNegative | kernel/src/framebuffer.rs:132 | a negative radius plots nothing |
| FrameBuffer.PaintAll | kernel/src/framebuffer.rs:130-139 | painting a point list keeps the buffer's length when it does not panic |
| FrameBuffer.PaintAllFrame | kernel/src/framebuffer.rs:130-139 | painting changes no byte outside the stores of the points painted |
| FrameBuffer.Stepped | kernel/src/framebuffer.rs:157-167 | a step keeps the speed on each axis, the radius and the colour |
| FrameBuffer.SteppedMoves | kernel/src/framebuffer.rs:157-167 | a step moves the ball by its velocity, keeps both speeds, the radius and the colour, and turns a nonzero velocity round exactly when the moved ball reaches an edge of that axis |
| FrameBuffer.BounceTurnsAway | kernel/src/framebuffer.rs:161-166 | a ball moving towards an edge it reaches turns away, unless it reaches the opposite edge in the same step |
| FrameBuffer.StepsKeepSpeed | kernel/src/framebuffer.rs:157-167 | however many frames pass, both speeds, the radius and the colour are unchanged |
| FrameBuffer.Ball.constructor | kernel/src/framebuffer.rs:185-208 | a ball with the given fields |
| FrameBuffer.Ball.Step | kernel/src/framebuffer.rs:157-167 | the ball's new fields are `Stepped` of its old ones and the screen size |
| FrameBuffer.States | kernel/src/framebuffer.rs:184-209 | the balls' fields, ball by ball |
| FrameBuffer.InitialBalls | kernel/src/framebuffer.rs:184-209 | the animation starts with three balls |
| FrameBuffer.BallsStartInside | kernel/src/framebuffer.rs:184-209 | on a screen of at least 208 x 156 every ball starts clear of all four edges |
| FrameBuffer.FirstStepBouncesNone | kernel/src/framebuffer.rs:157-167 | from 213 x 156 on, the first step keeps every ball's velocity; at width 208 the third ball turns at the right edge |
| FrameBuffer.HighlightX | kernel/src/framebuffer.rs:221 | for a non-negative radius the highlight's centre lies right of the ball's by at most a third of the radius |
| FrameBuffer.HighlightY | kernel/src/framebuffer.rs:221 | for a non-negative radius the highlight's centre lies above the ball's by at most a third of the radius |
| FrameBuffer.DrawnBall | kernel/src/framebuffer.rs:220-221 | drawing a ball keeps the buffer's length when it does not panic |
| FrameBuffer.DrawBalls | kernel/src/framebuffer.rs:219-222 | the ball loop keeps the buffer's length when it does not panic |
| FrameBuffer.FrameImage | kernel/src/framebuffer.rs:217-222 | the frame keeps the buffer's length when it does not panic |
| FrameBuffer.DrawBallsFrame | kernel/src/framebuffer.rs:219-222 | drawing the balls changes no byte that no disk and no highlight covers |
| FrameBuffer.FrameBackground | kernel/src/framebuffer.rs:211-222 | after a frame, a byte that no ball and no highlight covers holds the background's byte where `clear` writes one, and its old value elsewhere |
| FrameBuffer.DrawAllBalls | kernel/src/framebuffer.rs:219-222 | the buffer becomes `DrawBalls` of the old buffer and the balls, panicking exactly when that does |
| FrameBuffer.DrawBall | kernel/src/framebuffer.rs:220-221 | one ball's disk and then its highlight: the buffer becomes `DrawnBall` of the old |
| FrameBuffer.StepAllBalls | kernel/src/framebuffer.rs:224-226 | every ball's new fields are `Stepped` of its old ones |
| FrameBuffer.RenderFrame | kernel/src/framebuffer.rs:214-229 | one frame: the back buffer becomes the frame image of the old balls, the screen a copy of it, and every ball is stepped; it panics exactly when drawing does or the lengths differ |
| FrameBuffer.StartBouncyCircles | kernel/src/framebuffer.rs:170-209 | spins exactly when byte_len is 0 or above 1280 x 720 x 4; otherwise a renderer over the first byte_len bytes of the back buffer and the three starting balls |
| Interrupts.Vector | kernel/src/interupts.rs:114-123 | every vector lies in the first PIC's range [32, 40) |
| Interrupts.VectorsOfThePics | kernel/src/interupts.rs:106-123 | the timer is vector 32, the keyboard 33, the second PIC starts at 40, and the vectors are distinct |
| Interrupts.Clamp | kernel/src/interupts.rs:37 | `clamp` lands in [lo, hi] and leaves a value already there unchanged |
| Interrupts.Divisor | kernel/src/interupts.rs:35-37 | the divisor lies in [1, 65535] for every target |
| Interrupts.DivisorOfZero | kernel/src/interupts.rs:36 | a target of 0 acts as 1 Hz and gives 65535 |
| Interrupts.DivisorOfFastTargets | kernel/src/interupts.rs:36-37 | targets at or above 1193182 Hz give divisor 1 |
| Interrupts.DivisorSaturates | kernel/src/interupts.rs:36-37 | the divisor is 65535 exactly for targets of 18 Hz and below |
| Interrupts.DivisorIsQuotient | kernel/src/interupts.rs:37 | between the saturated ends, divisor * target <= 1193182 < (divisor + 1) * target |
| Interrupts.DivisorMonotone | kernel/src/interupts.rs:36-37 | a faster target never gives a larger divisor |
| Interrupts.LowByte | kernel/src/interupts.rs:45 | definition, no contract of its own: `divisor & 0x00FF`; `BytesRecombine` proves it and `HighByte` give back the divisor |
| Interrupts.HighByte | kernel/src/interupts.rs:46 | definition, no contract of its own: `divisor >> 8`; see `BytesRecombine` |
| Interrupts.BytesRecombine | kernel/src/interupts.rs:45-46 | the low and high byte recombine to the divisor, so distinct divisors give distinct byte pairs |
| Interrupts.InitPit | kernel/src/interupts.rs:32-48 | three port writes: 0x36 to 0x43, then two bytes to 0x40 that recombine to the divisor |
| Interrupts.Tick | kernel/src/interupts.rs:65 | the counter after a tick is a u64, whatever it was before |
| Interrupts.TickAdvances | kernel/src/interupts.rs:65 | a tick adds one except from the largest u64, which wraps to 0; it always changes the counter |
| Interrupts.InterruptsCount | kernel/src/interupts.rs:64-67 | after n interrupts the counter has moved by n mod 2^64 and the cursor flag is back exactly when n is even |
| Interrupts.TimerState.constructor | kernel/src/interupts.rs:11 | the counter starts at 0 and the cursor flag cleared |
| Interrupts.TimerState.TimerInterrupt | kernel/src/interupts.rs:64-74 | the counter ticks once, wrapping at 2^64, and the cursor flag is negated |
| Interrupts.TimerState.TimerTicks | kernel/src/interupts.rs:76-78 | returns the counter, a u64, and changes nothing |
| Machine.ToI32 | src/random.rs:18 | `as i32`: an i32 congruent to the value modulo 2^32 |
| Machine.ToI64 | src/random.rs:38 | `as i64` of a u64: the value itself or the value less 2^64 |
| Machine.RemT | src/random.rs:19 | Rust's `%`: below the divisor in magnitude, with the dividend's sign |
| Machine.DivisionIdentity | src/random.rs:19 | truncated quotient and remainder recombine to the dividend |
| Machine.QuotT | kernel/src/framebuffer.rs:186-187 | Rust's `/` agrees with the mathematical quotient on non-negative operands |
| Random.NextState | src/random.rs:3-8 | the step's result is a u64 |
| Random.PrevState | src/random.rs:5 | the step run backwards gives a u64 |
| Random.PrevUndoesNext | src/random.rs:5 | the step can be undone: multiplying by the inverse of the multiplier restores the state |
| Random.NextStateInjective | src/random.rs:5 | no two states lead to the same next state |
| Random.LowBitAlternates | src/random.rs:5 | every step flips the lowest bit of the state |
| Random.Signed | src/random.rs:18 | the signed reading of a draw fits its width |
| Random.RangeU32 | src/random.rs:22-30 | a value drawn is a u32, and the state is left alone or stepped exactly once |
| Random.RangeU64 | src/random.rs:42-50 | a value drawn is a u64, and the state is left alone or stepped exactly once |
| Random.RangeSigned | src/random.rs:12-40 | a value drawn fits the width (i32 or i64), and the state is left alone or stepped exactly once |
| Random.EmptyRangesDoNotDraw | src/random.rs:12-50 | an empty range gives its start and leaves the state alone; every other range whose length fits draws exactly once |
| Random.UnsignedInRange | src/random.rs:22-50 | the unsigned variants panic exactly when the end lies before the start, and otherwise return a value of [start, end) |
| Random.U32UsesLowBits | src/random.rs:28 | the u32 variant depends only on the low 32 bits of the draw |
| Random.SignedWithinLength | src/random.rs:12-40 | a signed result lies strictly within one length of the start; a negative draw lands at or below the start |
| Random.SignedNonNegativeInRange | src/random.rs:18-19 | a non-negative draw into a range start < end whose length fits lands in [start, end) |
| Random.SignedCanFallBelowStart | src/random.rs:12-20 | the second call of `pseudo_rand_in_range_i32(0..10)` after start-up returns -1 |
| Random.SignedLengthOverflows | src/random.rs:13 | `i32::MIN..i32::MAX` and `i64::MIN..i64::MAX` panic on the length before any draw |
| Random.Rng.constructor | src/random.rs:1 | the state starts at 0xDEADBEEF |
| Random.Rng.PseudoRand | src/random.rs:3-8 | the state takes one step and the new state is returned |
| Random.Rng.RangeU32Of | src/random.rs:22-30 | the result and the new state are `RangeU32` of the old state |
| Random.Rng.RangeU64Of | src/random.rs:42-50 | the result and the new state are `RangeU64` of the old state |
| Random.Rng.RangeSignedOf | src/random.rs:12-40 | the result and the new state are `RangeSigned` of the old state, for i32 and for i64 |

## Left out

- Hardware access: the memory at 0xb8000, the volatile cell writes and the PIT port I/O are plain arrays or a returned list of port writes.
- Interrupt plumbing: loading the IDT, the GDT and IST set-up, and the PIC's end-of-interrupt are not modelled.
- `trigger_page_fault` and `overflow_stack`: they exist only to crash the machine.
- The keyboard handler: it drives the foreign `pc_keyboard` decoder.
- Concurrency: atomics' memory orderings, `spin::Mutex`, `lazy_static` and the interrupt-free print wrappers. Every operation runs sequentially.
- The global `CURSOR_TOGGLE_FLAG`: a parameter of `Terminal.VgaTextModeTerminal.ToggleCursor` and a field of `Interrupts.TimerState`, not one shared variable.
- The infinite loops: the animation loop of `run_bouncy_circles` is modelled as one frame (`FrameBuffer.RenderFrame`). The wait for the next tick and the spin for a bad buffer size are left out; the latter is the `spins` result.
- `FrameBuffer.StartBouncyCircles`: the renderer's buffer is a fresh copy of the static back buffer's first byte_len bytes, not an alias of it. It requires the i32 products `width * 3` and `height * 2` not to overflow.
- The ball array: `balls` is a sequence of distinct `Ball` objects, which stand for the array's `Copy` structs.
- `FrameBuffer.Renderer.DrawFilledCircle`: debug-build i32 overflow panics are excluded by the precondition `CircleFits` instead of being modelled; `StepFits` for `FrameBuffer.Ball.Step` and `FrameFits` for the frame do the same.
- FrameBuffer.Renderer.SetPixel: `usize` overflow of `(y * stride + x) * bytes_per_pixel` is not modelled; the index is unbounded.
- `Color::rgb` is the datatype constructor `FrameBuffer.Color` and has no contract of its own.
- The boot loader's `FrameBufferInfo` and `PixelFormat` are local datatypes; the non-exhaustive formats collapse into `Other`.
- Drawing.DrawLine: the source writes every point unchecked and panics for a line that leaves the screen; the model requires every point on the screen (`Drawing.LineOnScreen` proves this holds when both ends are on it). `Drawing.DrawLineFixed` requires both ends on the screen in the same way. The `usize as isize` casts are not modelled: the coordinates must be at most `isize::MAX / 8` (`Drawing.FitsIsize`). That bound keeps the casts exact and leaves room for the doubled distances and error terms; the model does not prove that the source's `isize` arithmetic stays in range below it. For larger coordinates the source computes with wrapped values, and, for example, `draw_line(usize::MAX, 0, 0, 0, ..)` panics on its write, which the model does not capture.
- Drawing.DrawCircle: the `usize as isize` casts are not modelled either. The centre and the radius must be at most `isize::MAX / 8`. For larger values `r as isize` wraps, and, for example, `draw_circle(40, 12, usize::MAX, ..)` draws with radius -1 and writes four cells next to the centre, which the model does not capture.
- TextMode.VgaTextMode.Write: panics for coordinates outside the grid are excluded by preconditions, as they are for every clear, shift and rotation, whose `usize` subtractions and indexes stay in range under the preconditions.
- Random.RangeU32: models the debug build only. `pseudo_rand_in_range_u32(5..3)` panics there on the length `end - start` (`Drawn(None, s)`); a release build wraps the length and returns a draw instead, which the model does not capture.
- Random.RangeU64: the same debug-build model of the length's underflow as `Random.RangeU32`.
- Random.RangeSigned: the same debug-build model: an overflow of the length or of the final sum panics (`None`) where a release build wraps; the remainder `MIN % -1` panics in either build.
- The float range functions `pseudo_rand_in_range_f32` and `pseudo_rand_in_range_f64`: floating point.
- `core::fmt` formatting: `write!`/`println!` are left out; the model starts at the bytes that `write_str` receives.

## Findings

| source | as written | input that shows it | evidently intended | confidence | as-written member | corrected member |
|---|---|---|---|---|---|---|
| kernel/src/vga_text_mode.rs:108 | `shift_left_by_x` blanks with `clear_subcolumn(BUFFER_WIDTH - x, BUFFER_WIDTH, row)`, whose first two arguments are ROW bounds | `shift_left_by_x(1)`: the clear indexes row 79 of a 25-row grid and panics; so does every x >= 1 | blank the rightmost x columns of the row (`clear_subrow`), as the doc comment at line 102 says | high; not executed | TextMode.VgaTextMode.ShiftLeftByX | TextMode.VgaTextMode.ShiftLeftByXFixed |
| kernel/src/vga_text_mode.rs:118 | `shift_right_by_x` blanks with `clear_subcolumn(0, x, row)`, i.e. rows 0..x of COLUMN `row` | `shift_right_by_x(1)` on a screen whose cells (0, 0) and (1, 0) hold characters: cell (0, 1) ends blank instead of holding old (0, 0), and (1, 0) keeps its character; every x > 25 panics | blank the leftmost x columns of the row (`clear_subrow`), as the doc comment at line 112 says | high; not executed | TextMode.ShiftRightDefect | TextMode.VgaTextMode.ShiftRightByXFixed |
| src/vga_text_mode_drawing.rs:29-40 | the loops run over `x1..=x2` (line 29) and `y1..=y2` (line 40), which are empty when the start lies past the end | `draw_line(5, 0, 0, 0, ..)` and `draw_line(0, 5, 0, 0, ..)` draw nothing, although both ends are on the screen | one point per step of the longer axis plus one, joining the ends in either direction, which is what the directions `if_cond_x` and `if_cond_y` are computed for | high; not executed | Drawing.LineEmptyExactly | Drawing.DrawLineFixed |
