/** The kernel's 25x80 VGA text grid: cells of (character byte, colour
    code), single-cell writes, range clears, shifts that drop what falls off
    the edge and shifts that wrap it round. */
module TextMode {
  import opened Machine

  const BUFFER_HEIGHT: nat := 25
  const BUFFER_WIDTH: nat := 80

  /** The sixteen VGA colour codes. */
  datatype VgaColor =
    | Black | Blue | Green | Cyan | Red | Magenta | Brown | LightGray
    | DarkGray | LightBlue | LightGreen | LightCyan | LightRed | Pink | Yellow | White

  /** The `#[repr(u8)]` discriminant of a colour. */
  function Code(c: VgaColor): (n: nat)
    ensures n < 16
  {
    match c
    case Black => 0 case Blue => 1 case Green => 2 case Cyan => 3
    case Red => 4 case Magenta => 5 case Brown => 6 case LightGray => 7
    case DarkGray => 8 case LightBlue => 9 case LightGreen => 10 case LightCyan => 11
    case LightRed => 12 case Pink => 13 case Yellow => 14 case White => 15
  }

  /** The attribute byte `blink << 7 | background << 4 | foreground`.  The
      low nibble is the foreground, bits 4-6 the low three bits of the
      background, and bit 7 is set by blink or by a bright background. */
  function ColorData(foreground: VgaColor, background: VgaColor, blink: bool): (attr: bv8)
    ensures attr & 0x0F == Code(foreground) as bv8
    ensures (attr >> 4) & 0x07 == (Code(background) % 8) as bv8
    ensures (attr >> 7 == 1) <==> (blink || Code(background) >= 8)
  {
    var fg := Code(foreground) as bv8;
    var bg := Code(background) as bv8;
    var bl: bv8 := if blink then 1 else 0;
    ColorDataBits(fg, bg, bl);
    (bl << 7) | (bg << 4) | fg
  }

  lemma ColorDataBits(fg: bv8, bg: bv8, bl: bv8)
    requires fg < 16 && bg < 16 && bl < 2
    ensures ((bl << 7) | (bg << 4) | fg) & 0x0F == fg
    ensures (((bl << 7) | (bg << 4) | fg) >> 4) & 0x07 == bg & 0x07
    ensures (((bl << 7) | (bg << 4) | fg) >> 7 == 1) <==> (bl == 1 || bg >= 8)
  {
  }

  /** One character cell (`VGAChar`). */
  datatype Cell = Cell(ch: byte, color: VgaColor)

  /** What every clear writes: a space in black. */
  const BLANK: Cell := Cell(32, Black)

  predicate IsGrid(g: seq<seq<Cell>>) {
    |g| == BUFFER_HEIGHT && forall r :: 0 <= r < |g| ==> |g[r]| == BUFFER_WIDTH
  }

  /** The value of the whole grid, row by row. */
  type Grid = g: seq<seq<Cell>> | IsGrid(g) witness BlankGrid()

  function BlankGrid(): (g: seq<seq<Cell>>)
    ensures IsGrid(g)
  {
    seq(BUFFER_HEIGHT, r requires 0 <= r < BUFFER_HEIGHT => seq(BUFFER_WIDTH, c requires 0 <= c < BUFFER_WIDTH => BLANK))
  }

  /** Two grids that agree on every cell are equal. */
  lemma GridExt(a: Grid, b: Grid)
    requires forall r, c :: 0 <= r < BUFFER_HEIGHT && 0 <= c < BUFFER_WIDTH ==> a[r][c] == b[r][c]
    ensures a == b
  {
    forall r | 0 <= r < BUFFER_HEIGHT
      ensures a[r] == b[r]
    {
      assert forall c :: 0 <= c < BUFFER_WIDTH ==> a[r][c] == b[r][c];
    }
  }

  // ---------------------------------------------------------------------
  // The grid operations as functions of the grid's value
  // ---------------------------------------------------------------------

  /** The grid with one cell replaced. */
  function Put(g: Grid, row: nat, col: nat, v: Cell): Grid
    requires row < BUFFER_HEIGHT && col < BUFFER_WIDTH
  {
    g[row := g[row][col := v]]
  }

  /** The grid with the cells of rows [r0, r1) and columns [c0, c1) blank;
      an empty range blanks nothing. */
  function Cleared(g: Grid, r0: int, r1: int, c0: int, c1: int): Grid {
    seq(BUFFER_HEIGHT, r requires 0 <= r < BUFFER_HEIGHT => seq(BUFFER_WIDTH, c requires 0 <= c < BUFFER_WIDTH =>
      if r0 <= r < r1 && c0 <= c < c1 then BLANK else g[r][c]))
  }

  /** Rows move up by x; the bottom x rows become blank. */
  function ShiftUp(g: Grid, x: nat): Grid
    requires x <= BUFFER_HEIGHT
  {
    seq(BUFFER_HEIGHT, r requires 0 <= r < BUFFER_HEIGHT => seq(BUFFER_WIDTH, c requires 0 <= c < BUFFER_WIDTH =>
      if r < BUFFER_HEIGHT - x then g[r + x][c] else BLANK))
  }

  /** Rows move down by x; the top x rows become blank. */
  function ShiftDown(g: Grid, x: nat): Grid
    requires x <= BUFFER_HEIGHT
  {
    seq(BUFFER_HEIGHT, r requires 0 <= r < BUFFER_HEIGHT => seq(BUFFER_WIDTH, c requires 0 <= c < BUFFER_WIDTH =>
      if r >= x then g[r - x][c] else BLANK))
  }

  /** Columns move left by x; the rightmost x columns become blank. */
  function ShiftLeft(g: Grid, x: nat): Grid
    requires x <= BUFFER_WIDTH
  {
    seq(BUFFER_HEIGHT, r requires 0 <= r < BUFFER_HEIGHT => seq(BUFFER_WIDTH, c requires 0 <= c < BUFFER_WIDTH =>
      if c < BUFFER_WIDTH - x then g[r][c + x] else BLANK))
  }

  /** Columns move right by x; the leftmost x columns become blank. */
  function ShiftRight(g: Grid, x: nat): Grid
    requires x <= BUFFER_WIDTH
  {
    seq(BUFFER_HEIGHT, r requires 0 <= r < BUFFER_HEIGHT => seq(BUFFER_WIDTH, c requires 0 <= c < BUFFER_WIDTH =>
      if c >= x then g[r][c - x] else BLANK))
  }

  /** The column that lands in column c when a row rotates left by x. */
  function LeftSource(c: nat, x: nat): (s: nat)
    requires c < BUFFER_WIDTH && x <= BUFFER_WIDTH
    ensures s < BUFFER_WIDTH
  {
    if c < BUFFER_WIDTH - x then c + x else c + x - BUFFER_WIDTH
  }

  /** The column that lands in column c when a row rotates right by x. */
  function RightSource(c: nat, x: nat): (s: nat)
    requires c < BUFFER_WIDTH && x <= BUFFER_WIDTH
    ensures s < BUFFER_WIDTH
  {
    if c >= x then c - x else c + BUFFER_WIDTH - x
  }

  /** The row that lands in row r when the rows rotate up by x. */
  function UpSource(r: nat, x: nat): (s: nat)
    requires r < BUFFER_HEIGHT && x <= BUFFER_HEIGHT
    ensures s < BUFFER_HEIGHT
  {
    if r < BUFFER_HEIGHT - x then r + x else r + x - BUFFER_HEIGHT
  }

  /** The row that lands in row r when the rows rotate down by x. */
  function DownSource(r: nat, x: nat): (s: nat)
    requires r < BUFFER_HEIGHT && x <= BUFFER_HEIGHT
    ensures s < BUFFER_HEIGHT
  {
    if r >= x then r - x else r + BUFFER_HEIGHT - x
  }

  /** The four sources are the modular ones: rotating by x takes cell
      coordinates to (i + x) or (i - x) modulo the width or the height. */
  lemma SourcesAreModular(i: nat, x: nat)
    ensures i < BUFFER_WIDTH && x <= BUFFER_WIDTH ==>
      LeftSource(i, x) == (i + x) % BUFFER_WIDTH && RightSource(i, x) == (i - x) % BUFFER_WIDTH
    ensures i < BUFFER_HEIGHT && x <= BUFFER_HEIGHT ==>
      UpSource(i, x) == (i + x) % BUFFER_HEIGHT && DownSource(i, x) == (i - x) % BUFFER_HEIGHT
  {
  }

  /** Every row rotates left by x columns: cell c takes old cell (c + x) mod 80. */
  function RotateLeft(g: Grid, x: nat): Grid
    requires x <= BUFFER_WIDTH
  {
    seq(BUFFER_HEIGHT, r requires 0 <= r < BUFFER_HEIGHT => seq(BUFFER_WIDTH, c requires 0 <= c < BUFFER_WIDTH =>
      g[r][LeftSource(c, x)]))
  }

  /** Every row rotates right by x columns: cell c takes old cell (c - x) mod 80. */
  function RotateRight(g: Grid, x: nat): Grid
    requires x <= BUFFER_WIDTH
  {
    seq(BUFFER_HEIGHT, r requires 0 <= r < BUFFER_HEIGHT => seq(BUFFER_WIDTH, c requires 0 <= c < BUFFER_WIDTH =>
      g[r][RightSource(c, x)]))
  }

  /** The rows rotate up by x: row r takes old row (r + x) mod 25. */
  function RotateUp(g: Grid, x: nat): Grid
    requires x <= BUFFER_HEIGHT
  {
    seq(BUFFER_HEIGHT, r requires 0 <= r < BUFFER_HEIGHT => g[UpSource(r, x)])
  }

  /** The rows rotate down by x: row r takes old row (r - x) mod 25. */
  function RotateDown(g: Grid, x: nat): Grid
    requires x <= BUFFER_HEIGHT
  {
    seq(BUFFER_HEIGHT, r requires 0 <= r < BUFFER_HEIGHT => g[DownSource(r, x)])
  }

  /** Rows [to, to + count) of dst replaced by rows [from, from + count) of
      src, in order: what a row-by-row copy loop leaves. */
  function RowsCopied(dst: Grid, src: Grid, from: nat, to: nat, count: nat): Grid
    requires from + count <= BUFFER_HEIGHT && to + count <= BUFFER_HEIGHT
  {
    seq(BUFFER_HEIGHT, r requires 0 <= r < BUFFER_HEIGHT =>
      if to <= r < to + count then src[from + r - to] else dst[r])
  }

  /** The loop of `shift_left_by_x` inside one row: columns [0, 80 - x)
      take columns [x, 80); the last x columns keep their cells. */
  function RowMovedLeft(s: seq<Cell>, x: nat): (t: seq<Cell>)
    requires |s| == BUFFER_WIDTH && x <= BUFFER_WIDTH
    ensures |t| == BUFFER_WIDTH
    ensures forall c :: 0 <= c < BUFFER_WIDTH ==> t[c] == if c < BUFFER_WIDTH - x then s[c + x] else s[c]
  {
    s[x..] + s[BUFFER_WIDTH - x..]
  }

  /** The reversed loop of `shift_right_by_x` inside one row: columns
      [x, 80) take columns [0, 80 - x); the first x columns keep their
      cells. */
  function RowMovedRight(s: seq<Cell>, x: nat): (t: seq<Cell>)
    requires |s| == BUFFER_WIDTH && x <= BUFFER_WIDTH
    ensures |t| == BUFFER_WIDTH
    ensures forall c :: 0 <= c < BUFFER_WIDTH ==> t[c] == if c >= x then s[c - x] else s[c]
  {
    s[..x] + s[..BUFFER_WIDTH - x]
  }

  /** A row rotated left by x: the row from column x on, then its first x
      cells. */
  function RowRotatedLeft(s: seq<Cell>, x: nat): (t: seq<Cell>)
    requires |s| == BUFFER_WIDTH && x <= BUFFER_WIDTH
    ensures |t| == BUFFER_WIDTH
    ensures forall c :: 0 <= c < BUFFER_WIDTH ==> t[c] == s[LeftSource(c, x)]
  {
    s[x..] + s[..x]
  }

  /** A row rotated right by x: its last x cells, then the rest. */
  function RowRotatedRight(s: seq<Cell>, x: nat): (t: seq<Cell>)
    requires |s| == BUFFER_WIDTH && x <= BUFFER_WIDTH
    ensures |t| == BUFFER_WIDTH
    ensures forall c :: 0 <= c < BUFFER_WIDTH ==> t[c] == s[RightSource(c, x)]
  {
    s[BUFFER_WIDTH - x..] + s[..BUFFER_WIDTH - x]
  }

  /** The first n rows of g replaced by those of h. */
  function RowsFrom(g: Grid, h: Grid, n: nat): Grid
    requires n <= BUFFER_HEIGHT
  {
    seq(BUFFER_HEIGHT, r requires 0 <= r < BUFFER_HEIGHT => if r < n then h[r] else g[r])
  }

  // Steps of the copy loops, one cell at a time.

  lemma PutInRow(g: Grid, row: nat, s: seq<Cell>, col: nat, v: Cell)
    requires row < BUFFER_HEIGHT && col < BUFFER_WIDTH && |s| == BUFFER_WIDTH
    ensures Put(g[row := s], row, col, v) == g[row := s[col := v]]
  {
  }

  lemma MoveLeftStep(s: seq<Cell>, x: nat, k: nat)
    requires |s| == BUFFER_WIDTH && x + k < BUFFER_WIDTH
    ensures (s[x..x + k] + s[k..BUFFER_WIDTH])[x + k] == s[x + k]
    ensures (s[x..x + k] + s[k..BUFFER_WIDTH])[k := s[x + k]] == s[x..x + k + 1] + s[k + 1..BUFFER_WIDTH]
  {
    var t := (s[x..x + k] + s[k..BUFFER_WIDTH])[k := s[x + k]];
    var u := s[x..x + k + 1] + s[k + 1..BUFFER_WIDTH];
    assert forall i :: 0 <= i < |t| ==> t[i] == u[i];
  }

  lemma MoveRightStep(s: seq<Cell>, x: nat, col: nat)
    requires |s| == BUFFER_WIDTH && 0 < col <= BUFFER_WIDTH - x
    ensures (s[..col + x] + s[col..BUFFER_WIDTH - x])[col - 1] == s[col - 1]
    ensures (s[..col + x] + s[col..BUFFER_WIDTH - x])[col - 1 + x := s[col - 1]] == s[..col - 1 + x] + s[col - 1..BUFFER_WIDTH - x]
  {
    var t := (s[..col + x] + s[col..BUFFER_WIDTH - x])[col - 1 + x := s[col - 1]];
    var u := s[..col - 1 + x] + s[col - 1..BUFFER_WIDTH - x];
    assert forall i :: 0 <= i < |t| ==> t[i] == u[i];
  }

  lemma ReadStep(a: seq<Cell>, t: seq<Cell>, start: nat, k: nat)
    requires |a| == BUFFER_WIDTH && |t| == BUFFER_WIDTH && start + k < BUFFER_WIDTH
    ensures (a[start..start + k] + t[k..])[k := a[start + k]] == a[start..start + k + 1] + t[k + 1..]
  {
    var p := (a[start..start + k] + t[k..])[k := a[start + k]];
    var q := a[start..start + k + 1] + t[k + 1..];
    assert forall i :: 0 <= i < |p| ==> p[i] == q[i];
  }

  lemma RestoreStep(a: seq<Cell>, t: seq<Cell>, start: nat, col: nat)
    requires |a| == BUFFER_WIDTH && |t| == BUFFER_WIDTH && start <= col < BUFFER_WIDTH
    ensures (a[..start] + t[..col - start] + a[col..])[col := t[col - start]] == a[..start] + t[..col + 1 - start] + a[col + 1..]
  {
    var p := (a[..start] + t[..col - start] + a[col..])[col := t[col - start]];
    var q := a[..start] + t[..col + 1 - start] + a[col + 1..];
    assert forall i :: 0 <= i < |p| ==> p[i] == q[i];
  }

  lemma CopyStep(s: seq<Cell>, d: seq<Cell>, col: nat)
    requires |s| == BUFFER_WIDTH && |d| == BUFFER_WIDTH && col < BUFFER_WIDTH
    ensures (s[..col] + d[col..])[col] == d[col]
    ensures (s[..col] + d[col..])[col := s[col]] == s[..col + 1] + d[col + 1..]
  {
    var p := (s[..col] + d[col..])[col := s[col]];
    var q := s[..col + 1] + d[col + 1..];
    assert forall i :: 0 <= i < |p| ==> p[i] == q[i];
  }

  // Steps of the row loops, one row at a time.

  lemma RowsCopiedUp(dst: Grid, src: Grid, from: nat, to: nat, count: nat)
    requires from + count < BUFFER_HEIGHT && to + count < BUFFER_HEIGHT
    ensures RowsCopied(dst, src, from, to, count)[to + count := src[from + count]] == RowsCopied(dst, src, from, to, count + 1)
  {
    var p := RowsCopied(dst, src, from, to, count)[to + count := src[from + count]];
    var q := RowsCopied(dst, src, from, to, count + 1);
    assert forall r :: 0 <= r < |p| ==> p[r] == q[r];
  }

  lemma RowsCopiedDown(dst: Grid, src: Grid, from: nat, to: nat, count: nat)
    requires 0 < from && 0 < to && from + count <= BUFFER_HEIGHT && to + count <= BUFFER_HEIGHT
    ensures RowsCopied(dst, src, from, to, count)[to - 1 := src[from - 1]] == RowsCopied(dst, src, from - 1, to - 1, count + 1)
  {
    var p := RowsCopied(dst, src, from, to, count)[to - 1 := src[from - 1]];
    var q := RowsCopied(dst, src, from - 1, to - 1, count + 1);
    assert forall r :: 0 <= r < |p| ==> p[r] == q[r];
  }

  lemma RowsFromStep(g: Grid, h: Grid, n: nat)
    requires n < BUFFER_HEIGHT
    ensures RowsFrom(g, h, n)[n := h[n]] == RowsFrom(g, h, n + 1)
  {
    var p := RowsFrom(g, h, n)[n := h[n]];
    var q := RowsFrom(g, h, n + 1);
    assert forall r :: 0 <= r < |p| ==> p[r] == q[r];
  }

  /** One row of the grid moved right by x without wrap: its first x cells
      keep their old value (this is what the copy loop alone does). */
  function ShiftRowRight(g: Grid, row: nat, x: nat): Grid
    requires row < BUFFER_HEIGHT && x <= BUFFER_WIDTH
  {
    g[row := RowMovedRight(g[row], x)]
  }

  /** What `shift_right_by_x` does to the grid after its first n row
      iterations: each iteration moves row i right and then blanks
      rows [0, x) of COLUMN i. */
  function ShiftRightSteps(g: Grid, x: nat, n: nat): Grid
    requires x <= BUFFER_HEIGHT && n <= BUFFER_HEIGHT
  {
    if n == 0 then g
    else Cleared(ShiftRowRight(ShiftRightSteps(g, x, n - 1), n - 1, x), 0, x, n - 1, n)
  }

  /** Clearing an empty range changes nothing. */
  lemma ClearedNothing(g: Grid, r0: int, r1: int, c0: int, c1: int)
    requires r0 >= r1 || c0 >= c1
    ensures Cleared(g, r0, r1, c0, c1) == g
  {
    GridExt(Cleared(g, r0, r1, c0, c1), g);
  }

  /** Blanking the next cell of a row extends the cleared run by one. */
  lemma PutBlankExtends(h: Grid, row: nat, c0: int, col: nat)
    requires row < BUFFER_HEIGHT && c0 <= col < BUFFER_WIDTH
    ensures Put(Cleared(h, row, row + 1, c0, col), row, col, BLANK) == Cleared(h, row, row + 1, c0, col + 1)
  {
    GridExt(Put(Cleared(h, row, row + 1, c0, col), row, col, BLANK), Cleared(h, row, row + 1, c0, col + 1));
  }

  lemma PutBlankExtendsDown(h: Grid, r0: int, row: nat, col: nat)
    requires r0 <= row < BUFFER_HEIGHT && col < BUFFER_WIDTH
    ensures Put(Cleared(h, r0, row, col, col + 1), row, col, BLANK) == Cleared(h, r0, row + 1, col, col + 1)
  {
    GridExt(Put(Cleared(h, r0, row, col, col + 1), row, col, BLANK), Cleared(h, r0, row + 1, col, col + 1));
  }

  /** Clearing rows [r0, row) and then row itself clears rows [r0, row + 1). */
  lemma ClearedRowsExtend(g: Grid, r0: int, row: int, c0: int, c1: int)
    requires r0 <= row
    ensures Cleared(Cleared(g, r0, row, c0, c1), row, row + 1, c0, c1) == Cleared(g, r0, row + 1, c0, c1)
  {
    GridExt(Cleared(Cleared(g, r0, row, c0, c1), row, row + 1, c0, c1), Cleared(g, r0, row + 1, c0, c1));
  }

  // ---------------------------------------------------------------------
  // Properties of the grid functions
  // ---------------------------------------------------------------------

  /** Rotating left and then right by the same amount restores the grid. */
  lemma RotateLeftRight(g: Grid, x: nat)
    requires x <= BUFFER_WIDTH
    ensures RotateRight(RotateLeft(g, x), x) == g
  {
    var h := RotateRight(RotateLeft(g, x), x);
    forall r, c | 0 <= r < BUFFER_HEIGHT && 0 <= c < BUFFER_WIDTH
      ensures h[r][c] == g[r][c]
    {
      assert LeftSource(RightSource(c, x), x) == c;
    }
    GridExt(h, g);
  }

  /** Rotating right and then left by the same amount restores the grid. */
  lemma RotateRightLeft(g: Grid, x: nat)
    requires x <= BUFFER_WIDTH
    ensures RotateLeft(RotateRight(g, x), x) == g
  {
    var h := RotateLeft(RotateRight(g, x), x);
    forall r, c | 0 <= r < BUFFER_HEIGHT && 0 <= c < BUFFER_WIDTH
      ensures h[r][c] == g[r][c]
    {
      assert RightSource(LeftSource(c, x), x) == c;
    }
    GridExt(h, g);
  }

  /** Rotating up and then down by the same amount restores the grid. */
  lemma RotateUpDown(g: Grid, x: nat)
    requires x <= BUFFER_HEIGHT
    ensures RotateDown(RotateUp(g, x), x) == g
  {
    var h := RotateDown(RotateUp(g, x), x);
    forall r | 0 <= r < BUFFER_HEIGHT
      ensures h[r] == g[r]
    {
      assert UpSource(DownSource(r, x), x) == r;
    }
  }

  /** Rotating down and then up by the same amount restores the grid. */
  lemma RotateDownUp(g: Grid, x: nat)
    requires x <= BUFFER_HEIGHT
    ensures RotateUp(RotateDown(g, x), x) == g
  {
    var h := RotateUp(RotateDown(g, x), x);
    forall r | 0 <= r < BUFFER_HEIGHT
      ensures h[r] == g[r]
    {
      assert DownSource(UpSource(r, x), x) == r;
    }
  }

  /** Cell (r, c) after the first n row iterations of `shift_right_by_x`,
      in closed form. */
  function ShiftRightStepsAt(g: Grid, x: nat, n: nat, r: nat, c: nat): Cell
    requires x <= BUFFER_HEIGHT && n <= BUFFER_HEIGHT
    requires r < BUFFER_HEIGHT && c < BUFFER_WIDTH
  {
    if r < n then
      if r >= x then (if c < x then g[r][c] else g[r][c - x])
      else if c < n then BLANK
      else if c < x then g[r][c]
      else if c - x < r then BLANK
      else g[r][c - x]
    else if r < x && c < n then BLANK
    else g[r][c]
  }

  lemma {:induction false} ShiftRightStepsForm(g: Grid, x: nat, n: nat)
    requires x <= BUFFER_HEIGHT && n <= BUFFER_HEIGHT
    ensures forall r, c :: 0 <= r < BUFFER_HEIGHT && 0 <= c < BUFFER_WIDTH ==>
      ShiftRightSteps(g, x, n)[r][c] == ShiftRightStepsAt(g, x, n, r, c)
  {
    if n > 0 {
      ShiftRightStepsForm(g, x, n - 1);
    }
  }

  /** What `shift_right_by_x` leaves for x <= 25: rows at or below x are
      moved right but keep their first x cells; rows above x are blank in
      columns [0, 25) and, further right, blank wherever the moved-in cell
      came from a column left of the row's own index. */
  lemma ShiftRightAsWritten(g: Grid, x: nat)
    requires x <= BUFFER_HEIGHT
    ensures forall r, c :: 0 <= r < BUFFER_HEIGHT && 0 <= c < BUFFER_WIDTH ==>
      ShiftRightSteps(g, x, BUFFER_HEIGHT)[r][c] ==
        if r >= x then (if c < x then g[r][c] else g[r][c - x])
        else if c < BUFFER_HEIGHT || c - x < r then BLANK
        else g[r][c - x]
  {
    ShiftRightStepsForm(g, x, BUFFER_HEIGHT);
  }

  /** Shifting right by one as written differs from the documented shift:
      the cell that should receive (0, 0) is blanked instead, and (1, 0)
      keeps its old character where a blank was promised. */
  lemma ShiftRightDefect(g: Grid)
    requires g[0][0] != BLANK && g[1][0] != BLANK
    ensures ShiftRight(g, 1)[0][1] == g[0][0] && ShiftRight(g, 1)[1][0] == BLANK
    ensures ShiftRightSteps(g, 1, BUFFER_HEIGHT)[0][1] == BLANK
    ensures ShiftRightSteps(g, 1, BUFFER_HEIGHT)[1][0] == g[1][0]
    ensures ShiftRightSteps(g, 1, BUFFER_HEIGHT) != ShiftRight(g, 1)
  {
    ShiftRightStepsForm(g, 1, BUFFER_HEIGHT);
    var h := ShiftRightSteps(g, 1, BUFFER_HEIGHT);
    assert h[0][1] == ShiftRightStepsAt(g, 1, BUFFER_HEIGHT, 0, 1) == BLANK;
    assert h[1][0] == ShiftRightStepsAt(g, 1, BUFFER_HEIGHT, 1, 0) == g[1][0];
  }

  /** Shifting without wrap is rotating and then blanking what wrapped. */
  lemma ShiftUpIsClearedRotateUp(g: Grid, x: nat)
    requires x <= BUFFER_HEIGHT
    ensures ShiftUp(g, x) == Cleared(RotateUp(g, x), BUFFER_HEIGHT - x, BUFFER_HEIGHT, 0, BUFFER_WIDTH)
  {
    GridExt(ShiftUp(g, x), Cleared(RotateUp(g, x), BUFFER_HEIGHT - x, BUFFER_HEIGHT, 0, BUFFER_WIDTH));
  }

  lemma ShiftDownIsClearedRotateDown(g: Grid, x: nat)
    requires x <= BUFFER_HEIGHT
    ensures ShiftDown(g, x) == Cleared(RotateDown(g, x), 0, x, 0, BUFFER_WIDTH)
  {
    GridExt(ShiftDown(g, x), Cleared(RotateDown(g, x), 0, x, 0, BUFFER_WIDTH));
  }

  lemma ShiftLeftIsClearedRotateLeft(g: Grid, x: nat)
    requires x <= BUFFER_WIDTH
    ensures ShiftLeft(g, x) == Cleared(RotateLeft(g, x), 0, BUFFER_HEIGHT, BUFFER_WIDTH - x, BUFFER_WIDTH)
  {
    GridExt(ShiftLeft(g, x), Cleared(RotateLeft(g, x), 0, BUFFER_HEIGHT, BUFFER_WIDTH - x, BUFFER_WIDTH));
  }

  lemma ShiftRightIsClearedRotateRight(g: Grid, x: nat)
    requires x <= BUFFER_WIDTH
    ensures ShiftRight(g, x) == Cleared(RotateRight(g, x), 0, BUFFER_HEIGHT, 0, x)
  {
    GridExt(ShiftRight(g, x), Cleared(RotateRight(g, x), 0, BUFFER_HEIGHT, 0, x));
  }

  /** Shifting up twice is shifting up by the sum. */
  lemma ShiftUpCompose(g: Grid, a: nat, b: nat)
    requires a + b <= BUFFER_HEIGHT
    ensures ShiftUp(ShiftUp(g, a), b) == ShiftUp(g, a + b)
  {
    GridExt(ShiftUp(ShiftUp(g, a), b), ShiftUp(g, a + b));
  }

  lemma ShiftLeftCompose(g: Grid, a: nat, b: nat)
    requires a + b <= BUFFER_WIDTH
    ensures ShiftLeft(ShiftLeft(g, a), b) == ShiftLeft(g, a + b)
  {
    GridExt(ShiftLeft(ShiftLeft(g, a), b), ShiftLeft(g, a + b));
  }

  /** Shifting back down restores every row that stayed on screen and
      leaves the top x rows blank. */
  lemma ShiftUpThenDown(g: Grid, x: nat)
    requires x <= BUFFER_HEIGHT
    ensures ShiftDown(ShiftUp(g, x), x) == Cleared(g, 0, x, 0, BUFFER_WIDTH)
  {
    GridExt(ShiftDown(ShiftUp(g, x), x), Cleared(g, 0, x, 0, BUFFER_WIDTH));
  }

  lemma ShiftLeftThenRight(g: Grid, x: nat)
    requires x <= BUFFER_WIDTH
    ensures ShiftRight(ShiftLeft(g, x), x) == Cleared(g, 0, BUFFER_HEIGHT, 0, x)
  {
    GridExt(ShiftRight(ShiftLeft(g, x), x), Cleared(g, 0, BUFFER_HEIGHT, 0, x));
  }

  /** Staging the top x rows, moving the rest up and copying the staged rows
      to the bottom is rotating up by x. */
  lemma StagedRotateUp(g: Grid, t: Grid, x: nat)
    requires x <= BUFFER_HEIGHT && forall r :: 0 <= r < x ==> t[r] == g[r]
    ensures RowsCopied(RowsCopied(g, g, x, 0, BUFFER_HEIGHT - x), t, 0, BUFFER_HEIGHT - x, x) == RotateUp(g, x)
  {
    var p := RowsCopied(RowsCopied(g, g, x, 0, BUFFER_HEIGHT - x), t, 0, BUFFER_HEIGHT - x, x);
    assert forall r :: 0 <= r < |p| ==> p[r] == RotateUp(g, x)[r];
  }

  /** Staging the bottom x rows, moving the rest down and copying the staged
      rows to the top is rotating down by x. */
  lemma StagedRotateDown(g: Grid, t: Grid, x: nat)
    requires x <= BUFFER_HEIGHT && forall r :: 0 <= r < x ==> t[r] == g[BUFFER_HEIGHT - x + r]
    ensures RowsCopied(RowsCopied(g, g, 0, x, BUFFER_HEIGHT - x), t, 0, 0, x) == RotateDown(g, x)
  {
    var p := RowsCopied(RowsCopied(g, g, 0, x, BUFFER_HEIGHT - x), t, 0, 0, x);
    assert forall r :: 0 <= r < |p| ==> p[r] == RotateDown(g, x)[r];
  }

  /** Copying rows x.. up by x and blanking the last x rows is shifting up
      by x. */
  lemma CopiedUpThenCleared(g: Grid, x: nat)
    requires x <= BUFFER_HEIGHT
    ensures Cleared(RowsCopied(g, g, x, 0, BUFFER_HEIGHT - x), BUFFER_HEIGHT - x, BUFFER_HEIGHT, 0, BUFFER_WIDTH) == ShiftUp(g, x)
  {
    GridExt(Cleared(RowsCopied(g, g, x, 0, BUFFER_HEIGHT - x), BUFFER_HEIGHT - x, BUFFER_HEIGHT, 0, BUFFER_WIDTH), ShiftUp(g, x));
  }

  /** Copying rows ..25 - x down by x and blanking the first x rows is
      shifting down by x. */
  lemma CopiedDownThenCleared(g: Grid, x: nat)
    requires x <= BUFFER_HEIGHT
    ensures Cleared(RowsCopied(g, g, 0, x, BUFFER_HEIGHT - x), 0, x, 0, BUFFER_WIDTH) == ShiftDown(g, x)
  {
    GridExt(Cleared(RowsCopied(g, g, 0, x, BUFFER_HEIGHT - x), 0, x, 0, BUFFER_WIDTH), ShiftDown(g, x));
  }

  /** Row by row, the rotations are the row rotations. */
  lemma RotatedRows(g: Grid, x: nat, row: nat)
    requires x <= BUFFER_WIDTH && row < BUFFER_HEIGHT
    ensures RotateLeft(g, x)[row] == RowRotatedLeft(g[row], x)
    ensures RotateRight(g, x)[row] == RowRotatedRight(g[row], x)
  {
    assert forall c :: 0 <= c < BUFFER_WIDTH ==> RotateLeft(g, x)[row][c] == RowRotatedLeft(g[row], x)[c];
    assert forall c :: 0 <= c < BUFFER_WIDTH ==> RotateRight(g, x)[row][c] == RowRotatedRight(g[row], x)[c];
  }

  /** One row of the documented shifts: the moving loop and then blanking
      the columns it vacated. */
  lemma ShiftedRows(h: Grid, g: Grid, x: nat, row: nat)
    requires x <= BUFFER_WIDTH && row < BUFFER_HEIGHT && h[row] == g[row]
    ensures Cleared(h[row := RowMovedLeft(g[row], x)], row, row + 1, BUFFER_WIDTH - x, BUFFER_WIDTH) == h[row := ShiftLeft(g, x)[row]]
    ensures Cleared(h[row := RowMovedRight(g[row], x)], row, row + 1, 0, x) == h[row := ShiftRight(g, x)[row]]
  {
    GridExt(Cleared(h[row := RowMovedLeft(g[row], x)], row, row + 1, BUFFER_WIDTH - x, BUFFER_WIDTH), h[row := ShiftLeft(g, x)[row]]);
    GridExt(Cleared(h[row := RowMovedRight(g[row], x)], row, row + 1, 0, x), h[row := ShiftRight(g, x)[row]]);
  }

  /** All rows replaced is the other grid. */
  lemma RowsFromAll(g: Grid, h: Grid)
    ensures RowsFrom(g, h, BUFFER_HEIGHT) == h
  {
    var p := RowsFrom(g, h, BUFFER_HEIGHT);
    assert forall r :: 0 <= r < |p| ==> p[r] == h[r];
  }

  /** For every x >= 1 the clear in `shift_left_by_x` leaves the grid, and for
      every x above the row count so does the one in `shift_right_by_x`. */
  lemma HorizontalShiftClearsOutOfBounds(x: nat, row: nat)
    requires x <= BUFFER_WIDTH && row < BUFFER_HEIGHT
    ensures !SubcolumnInBounds(BUFFER_WIDTH - x, BUFFER_WIDTH, row) <==> x >= 1
    ensures !SubcolumnInBounds(0, x, row) <==> x > BUFFER_HEIGHT
  {
  }

  // ---------------------------------------------------------------------
  // The screen object
  // ---------------------------------------------------------------------

  /** Whether `clear_subcolumn(startRow, endRow, col)` stays inside the
      grid: it indexes rows [startRow, endRow) of column col. */
  predicate SubcolumnInBounds(startRow: int, endRow: int, col: int) {
    startRow >= endRow || (0 <= startRow && endRow <= BUFFER_HEIGHT && 0 <= col < BUFFER_WIDTH)
  }

  /** Whether `clear_subrow(startCol, endCol, row)` stays inside the grid. */
  predicate SubrowInBounds(startCol: int, endCol: int, row: int) {
    startCol >= endCol || (0 <= startCol && endCol <= BUFFER_WIDTH && 0 <= row < BUFFER_HEIGHT)
  }

  /** The text-mode screen (`VGATextMode`): the 25x80 cell buffer that the
      display hardware reads, held here as a plain two-dimensional array. */
  class VgaTextMode {
    const chars: array2<Cell>

    ghost predicate Valid()
      reads this
    {
      chars.Length0 == BUFFER_HEIGHT && chars.Length1 == BUFFER_WIDTH
    }

    /** The grid the screen currently shows. */
    ghost function Cells(): Grid
      reads this, chars
      requires Valid()
    {
      seq(BUFFER_HEIGHT, r requires 0 <= r < BUFFER_HEIGHT reads chars =>
        seq(BUFFER_WIDTH, c requires 0 <= c < BUFFER_WIDTH reads chars => chars[r, c]))
    }

    /** The screen over memory whose contents are whatever the display held. */
    constructor ()
      ensures Valid() && fresh(chars)
    {
      chars := new Cell[BUFFER_HEIGHT, BUFFER_WIDTH];
    }

    /** `write`: cell (row, col) takes the character and colour. */
    method Write(b: byte, color: VgaColor, col: nat, row: nat)
      requires Valid() && row < BUFFER_HEIGHT && col < BUFFER_WIDTH
      modifies chars
      ensures Cells() == Put(old(Cells()), row, col, Cell(b, color))
    {
      chars[row, col] := Cell(b, color);
      GridExt(Cells(), Put(old(Cells()), row, col, Cell(b, color)));
    }

    /** `clear_row`: the row is blank, nothing else changes. */
    method ClearRow(row: nat)
      requires Valid() && row < BUFFER_HEIGHT
      modifies chars
      ensures Cells() == Cleared(old(Cells()), row, row + 1, 0, BUFFER_WIDTH)
    {
      ClearedNothing(Cells(), row, row + 1, 0, 0);
      for col := 0 to BUFFER_WIDTH
        invariant Cells() == Cleared(old(Cells()), row, row + 1, 0, col)
      {
        Write(BLANK.ch, BLANK.color, col, row);
        PutBlankExtends(old(Cells()), row, 0, col);
      }
    }

    /** `clear_column`: the column is blank, nothing else changes. */
    method ClearColumn(col: nat)
      requires Valid() && col < BUFFER_WIDTH
      modifies chars
      ensures Cells() == Cleared(old(Cells()), 0, BUFFER_HEIGHT, col, col + 1)
    {
      ClearedNothing(Cells(), 0, 0, col, col + 1);
      for row := 0 to BUFFER_HEIGHT
        invariant Cells() == Cleared(old(Cells()), 0, row, col, col + 1)
      {
        Write(BLANK.ch, BLANK.color, col, row);
        PutBlankExtendsDown(old(Cells()), 0, row, col);
      }
    }

    /** `clear_screen`: every cell is blank. */
    method ClearScreen()
      requires Valid()
      modifies chars
      ensures Cells() == BlankGrid()
    {
      ClearedNothing(Cells(), 0, 0, 0, BUFFER_WIDTH);
      for row := 0 to BUFFER_HEIGHT
        invariant Cells() == Cleared(old(Cells()), 0, row, 0, BUFFER_WIDTH)
      {
        ClearRow(row);
        GridExt(Cells(), Cleared(old(Cells()), 0, row + 1, 0, BUFFER_WIDTH));
      }
      GridExt(Cells(), BlankGrid());
    }

    /** `clear_row_range`: rows [startRow, endRow) are blank. */
    method ClearRowRange(startRow: nat, endRow: nat)
      requires Valid() && (startRow >= endRow || endRow <= BUFFER_HEIGHT)
      modifies chars
      ensures Cells() == Cleared(old(Cells()), startRow, endRow, 0, BUFFER_WIDTH)
    {
      ClearedNothing(Cells(), startRow, startRow, 0, BUFFER_WIDTH);
      if startRow >= endRow {
        ClearedNothing(Cells(), startRow, endRow, 0, BUFFER_WIDTH);
        return;
      }
      for row := startRow to endRow
        invariant Cells() == Cleared(old(Cells()), startRow, row, 0, BUFFER_WIDTH)
      {
        ClearRow(row);
        GridExt(Cells(), Cleared(old(Cells()), startRow, row + 1, 0, BUFFER_WIDTH));
      }
    }

    /** `clear_rect`: rows [startRow, endRow) x columns [startCol, endCol)
        are blank. */
    method ClearRect(startRow: nat, endRow: nat, startCol: nat, endCol: nat)
      requires Valid()
      requires startRow >= endRow || startCol >= endCol ||
               (endRow <= BUFFER_HEIGHT && endCol <= BUFFER_WIDTH)
      modifies chars
      ensures Cells() == Cleared(old(Cells()), startRow, endRow, startCol, endCol)
    {
      ClearedNothing(Cells(), startRow, startRow, startCol, endCol);
      if startRow >= endRow || startCol >= endCol {
        ClearedNothing(Cells(), startRow, endRow, startCol, endCol);
        return;
      }
      for row := startRow to endRow
        invariant Cells() == Cleared(old(Cells()), startRow, row, startCol, endCol)
      {
        // the inner loop is the loop of `clear_subrow`
        ClearSubrow(startCol, endCol, row);
        ClearedRowsExtend(old(Cells()), startRow, row, startCol, endCol);
      }
    }
 
    /** `clear_column_range`: columns [startCol, endCol) are blank in
        every row. */
    method ClearColumnRange(startCol: nat, endCol: nat)
      requires Valid() && (startCol >= endCol || endCol <= BUFFER_WIDTH)
      modifies chars
      ensures Cells() == Cleared(old(Cells()), 0, BUFFER_HEIGHT, startCol, endCol)
    {
      ClearedNothing(Cells(), 0, 0, startCol, endCol);
      if startCol >= endCol {
        ClearedNothing(Cells(), 0, BUFFER_HEIGHT, startCol, endCol);
        return;
      }
      for row := 0 to BUFFER_HEIGHT
        invariant Cells() == Cleared(old(Cells()), 0, row, startCol, endCol)
      {
        // the inner loop is the loop of `clear_subrow`
        ClearSubrow(startCol, endCol, row);
        ClearedRowsExtend(old(Cells()), 0, row, startCol, endCol);
      }
    }

    /** `clear_subrow`: columns [startCol, endCol) of the row are blank. */
    method ClearSubrow(startCol: nat, endCol: nat, row: nat)
      requires Valid() && SubrowInBounds(startCol, endCol, row)
      modifies chars
      ensures Cells() == Cleared(old(Cells()), row, row + 1, startCol, endCol)
    {
      ClearedNothing(Cells(), row, row + 1, startCol, startCol);
      if startCol >= endCol {
        ClearedNothing(Cells(), row, row + 1, startCol, endCol);
        return;
      }
      for col := startCol to endCol
        invariant Cells() == Cleared(old(Cells()), row, row + 1, startCol, col)
      {
        Write(BLANK.ch, BLANK.color, col, row);
        PutBlankExtends(old(Cells()), row, startCol, col);
      }
    }

    /** `clear_subcolumn`: rows [startRow, endRow) of the column are blank. */
    method ClearSubcolumn(startRow: nat, endRow: nat, col: nat)
      requires Valid() && SubcolumnInBounds(startRow, endRow, col)
      modifies chars
      ensures Cells() == Cleared(old(Cells()), startRow, endRow, col, col + 1)
    {
      ClearedNothing(Cells(), startRow, startRow, col, col + 1);
      if startRow >= endRow {
        ClearedNothing(Cells(), startRow, endRow, col, col + 1);
        return;
      }
      for row := startRow to endRow
        invariant Cells() == Cleared(old(Cells()), startRow, row, col, col + 1)
      {
        Write(BLANK.ch, BLANK.color, col, row);
        PutBlankExtendsDown(old(Cells()), startRow, row, col);
      }
    }

    /** A store into one cell (a volatile write or a plain assignment of
        the cell). */
    method SetCell(row: nat, col: nat, v: Cell)
      requires Valid() && row < BUFFER_HEIGHT && col < BUFFER_WIDTH
      modifies chars
      ensures Cells() == Put(old(Cells()), row, col, v)
    {
      chars[row, col] := v;
      GridExt(Cells(), Put(old(Cells()), row, col, v));
    }

    /** A load from one cell. */
    method GetCell(row: nat, col: nat) returns (v: Cell)
      requires Valid() && row < BUFFER_HEIGHT && col < BUFFER_WIDTH
      ensures v == Cells()[row][col]
    {
      v := chars[row, col];
    }

    /** The inner loop of the row copies: row src into row dst, column by
        column. */
    method CopyRow(src: nat, dst: nat)
      requires Valid() && src < BUFFER_HEIGHT && dst < BUFFER_HEIGHT
      modifies chars
      ensures Cells() == old(Cells())[dst := old(Cells())[src]]
    {
      ghost var g := Cells();
      assert g[src][..0] + g[dst][0..] == g[dst];
      for col := 0 to BUFFER_WIDTH
        invariant Cells() == g[dst := g[src][..col] + g[dst][col..]]
      {
        CopyStep(g[src], g[dst], col);
        var v := chars[src, col];
        assert v == Cells()[src][col];
        SetCell(dst, col, v);
        PutInRow(g, dst, g[src][..col] + g[dst][col..], col, v);
      }
      assert g[src][..BUFFER_WIDTH] + g[dst][BUFFER_WIDTH..] == g[src];
    }

    /** The row loop of `shift_up_by_x` and of `shift_up_by_x_with_wrap`:
        rows x.. are copied up by x, top to bottom. */
    method MoveRowsUp(x: nat)
      requires Valid() && x <= BUFFER_HEIGHT
      modifies chars
      ensures Cells() == RowsCopied(old(Cells()), old(Cells()), x, 0, BUFFER_HEIGHT - x)
    {
      ghost var g := Cells();
      assert RowsCopied(g, g, x, 0, 0) == g;
      for row := x to BUFFER_HEIGHT
        invariant Cells() == RowsCopied(g, g, x, 0, row - x)
      {
        CopyRow(row, row - x);
        RowsCopiedUp(g, g, x, 0, row - x);
      }
    }

    /** The reversed row loop of `shift_down_by_x` and of
        `shift_down_by_x_with_wrap`: rows ..25 - x are copied down by x,
        bottom to top. */
    method MoveRowsDown(x: nat)
      requires Valid() && x <= BUFFER_HEIGHT
      modifies chars
      ensures Cells() == RowsCopied(old(Cells()), old(Cells()), 0, x, BUFFER_HEIGHT - x)
    {
      ghost var g := Cells();
      assert RowsCopied(g, g, BUFFER_HEIGHT - x, BUFFER_HEIGHT, 0) == g;
      for row := BUFFER_HEIGHT downto x
        invariant x <= row
        invariant Cells() == RowsCopied(g, g, row - x, row, BUFFER_HEIGHT - row)
      {
        CopyRow(row - x, row);
        RowsCopiedDown(g, g, row + 1 - x, row + 1, BUFFER_HEIGHT - row - 1);
      }
    }

    /** `shift_up_by_x`: row r takes old row r + x, the bottom x rows are
        blank. */
    method ShiftUpByX(x: nat)
      requires Valid() && x <= BUFFER_HEIGHT
      modifies chars
      ensures Cells() == ShiftUp(old(Cells()), x)
    {
      MoveRowsUp(x);
      ClearRowRange(BUFFER_HEIGHT - x, BUFFER_HEIGHT);
      CopiedUpThenCleared(old(Cells()), x);
    }

    /** `shift_down_by_x`: row r takes old row r - x, the top x rows are
        blank. */
    method ShiftDownByX(x: nat)
      requires Valid() && x <= BUFFER_HEIGHT
      modifies chars
      ensures Cells() == ShiftDown(old(Cells()), x)
    {
      MoveRowsDown(x);
      ClearRowRange(0, x);
      CopiedDownThenCleared(old(Cells()), x);
    }

    /** The loop that fills the temporary row: cells start .. start + len
        of `row` go to positions 0 .. len of tmpRow; the rest of tmpRow is
        kept. */
    method ReadCells(row: nat, start: nat, len: nat, tmpRow: seq<Cell>) returns (t: seq<Cell>)
      requires Valid() && row < BUFFER_HEIGHT && start + len <= BUFFER_WIDTH && |tmpRow| == BUFFER_WIDTH
      ensures t == Cells()[row][start..start + len] + tmpRow[len..]
    {
      ghost var a := Cells()[row];
      t := tmpRow;
      assert t == a[start..start] + tmpRow[0..];
      for k := 0 to len
        invariant t == a[start..start + k] + tmpRow[k..]
      {
        ReadStep(a, tmpRow, start, k);
        assert chars[row, start + k] == a[start + k];
        t := t[k := chars[row, start + k]];
      }
    }

    /** The loop that writes the temporary row back: positions 0 .. len of
        tmpRow go to cells start .. start + len of `row`. */
    method WriteCells(row: nat, tmpRow: seq<Cell>, start: nat, len: nat)
      requires Valid() && row < BUFFER_HEIGHT && start + len <= BUFFER_WIDTH && |tmpRow| == BUFFER_WIDTH
      modifies chars
      ensures Cells() == old(Cells())[row := old(Cells())[row][..start] + tmpRow[..len] + old(Cells())[row][start + len..]]
    {
      ghost var g := Cells();
      ghost var a := g[row];
      assert a[..start] + tmpRow[..0] + a[start..] == a;
      for col := start to start + len
        invariant g[row := a[..start] + tmpRow[..col - start] + a[col..]] == Cells()
      {
        RestoreStep(a, tmpRow, start, col);
        SetCell(row, col, tmpRow[col - start]);
        PutInRow(g, row, a[..start] + tmpRow[..col - start] + a[col..], col, tmpRow[col - start]);
      }
    }

    /** The moving loop of `shift_left_by_x` and of
        `shift_left_by_x_with_wrap` on one row: columns x.. move left by x,
        left to right. */
    method MoveCellsLeft(row: nat, x: nat)
      requires Valid() && row < BUFFER_HEIGHT && x <= BUFFER_WIDTH
      modifies chars
      ensures Cells() == old(Cells())[row := RowMovedLeft(old(Cells())[row], x)]
    {
      ghost var g := Cells();
      ghost var a := g[row];
      assert a[x..x] + a[0..BUFFER_WIDTH] == a;
      for k := 0 to BUFFER_WIDTH - x
        invariant Cells() == g[row := a[x..x + k] + a[k..BUFFER_WIDTH]]
      {
        MoveLeftStep(a, x, k);
        var v := GetCell(row, x + k);
        SetCell(row, k, v);
        PutInRow(g, row, a[x..x + k] + a[k..BUFFER_WIDTH], k, v);
      }
      assert a[x..x + (BUFFER_WIDTH - x)] + a[BUFFER_WIDTH - x..BUFFER_WIDTH] == RowMovedLeft(a, x);
    }

    /** The reversed moving loop of `shift_right_by_x` and of
        `shift_right_by_x_with_wrap` on one row: columns ..80 - x move right
        by x, right to left. */
    method MoveCellsRight(row: nat, x: nat)
      requires Valid() && row < BUFFER_HEIGHT && x <= BUFFER_WIDTH
      modifies chars
      ensures Cells() == old(Cells())[row := RowMovedRight(old(Cells())[row], x)]
    {
      ghost var g := Cells();
      ghost var a := g[row];
      assert a[..BUFFER_WIDTH - x + x] + a[BUFFER_WIDTH - x..BUFFER_WIDTH - x] == a;
      for col := BUFFER_WIDTH - x downto 0
        invariant Cells() == g[row := a[..col + x] + a[col..BUFFER_WIDTH - x]]
      {
        MoveRightStep(a, x, col + 1);
        var v := chars[row, col];
        assert v == Cells()[row][col];
        SetCell(row, col + x, v);
        PutInRow(g, row, a[..col + 1 + x] + a[col + 1..BUFFER_WIDTH - x], col + x, v);
      }
    }

    /** One row of `shift_left_by_x_with_wrap`: the first x cells go to the
        temporary row, the rest move left by x, and the saved cells fill
        the last x columns. The temporary row is returned, as it carries
        over to the next row. */
    method RotateRowLeft(row: nat, x: nat, tmpRow: seq<Cell>) returns (t: seq<Cell>)
      requires Valid() && row < BUFFER_HEIGHT && x <= BUFFER_WIDTH && |tmpRow| == BUFFER_WIDTH
      modifies chars
      ensures |t| == BUFFER_WIDTH
      ensures Cells() == old(Cells())[row := RowRotatedLeft(old(Cells())[row], x)]
    {
      ghost var a := Cells()[row];
      t := ReadCells(row, 0, x, tmpRow);
      MoveCellsLeft(row, x);
      WriteCells(row, t, BUFFER_WIDTH - x, x);
      ghost var b := RowMovedLeft(a, x);
      assert b[..BUFFER_WIDTH - x] + t[..x] + b[BUFFER_WIDTH..] == RowRotatedLeft(a, x);
    }

    /** One row of `shift_right_by_x_with_wrap`: the last x cells go to the
        temporary row, the rest move right by x, and the saved cells fill
        the first x columns. */
    method RotateRowRight(row: nat, x: nat, tmpRow: seq<Cell>) returns (t: seq<Cell>)
      requires Valid() && row < BUFFER_HEIGHT && x <= BUFFER_WIDTH && |tmpRow| == BUFFER_WIDTH
      modifies chars
      ensures |t| == BUFFER_WIDTH
      ensures Cells() == old(Cells())[row := RowRotatedRight(old(Cells())[row], x)]
    {
      ghost var a := Cells()[row];
      t := ReadCells(row, BUFFER_WIDTH - x, x, tmpRow);
      MoveCellsRight(row, x);
      WriteCells(row, t, 0, x);
      ghost var b := RowMovedRight(a, x);
      assert b[..0] + t[..x] + b[x..] == RowRotatedRight(a, x);
    }

    /** `shift_left_by_x_with_wrap`: every row rotates left by x. */
    method ShiftLeftByXWithWrap(x: nat)
      requires Valid() && x <= BUFFER_WIDTH
      modifies chars
      ensures Cells() == RotateLeft(old(Cells()), x)
    {
      ghost var g := Cells();
      var tmpRow := seq(BUFFER_WIDTH, _ => BLANK);
      assert RowsFrom(g, RotateLeft(g, x), 0) == g;
      for row := 0 to BUFFER_HEIGHT
        invariant |tmpRow| == BUFFER_WIDTH
        invariant Cells() == RowsFrom(g, RotateLeft(g, x), row)
      {
        tmpRow := RotateRowLeft(row, x, tmpRow);
        RotatedRows(g, x, row);
        RowsFromStep(g, RotateLeft(g, x), row);
      }
      RowsFromAll(g, RotateLeft(g, x));
    }

    /** `shift_right_by_x_with_wrap`: every row rotates right by x. */
    method ShiftRightByXWithWrap(x: nat)
      requires Valid() && x <= BUFFER_WIDTH
      modifies chars
      ensures Cells() == RotateRight(old(Cells()), x)
    {
      ghost var g := Cells();
      var tmpRow := seq(BUFFER_WIDTH, _ => BLANK);
      assert RowsFrom(g, RotateRight(g, x), 0) == g;
      for row := 0 to BUFFER_HEIGHT
        invariant |tmpRow| == BUFFER_WIDTH
        invariant Cells() == RowsFrom(g, RotateRight(g, x), row)
      {
        tmpRow := RotateRowRight(row, x, tmpRow);
        RotatedRows(g, x, row);
        RowsFromStep(g, RotateRight(g, x), row);
      }
      RowsFromAll(g, RotateRight(g, x));
    }

    /** The inner loop that fills one row of the temporary grid from screen
        row src. */
    method ReadRow(src: nat, tmp: seq<Cell>) returns (t: seq<Cell>)
      requires Valid() && src < BUFFER_HEIGHT && |tmp| == BUFFER_WIDTH
      ensures t == Cells()[src]
    {
      ghost var a := Cells()[src];
      t := tmp;
      assert t == a[0..0] + tmp[0..];
      for col := 0 to BUFFER_WIDTH
        invariant t == a[0..col] + tmp[col..]
      {
        ReadStep(a, tmp, 0, col);
        assert chars[src, col] == a[col];
        t := t[col := chars[src, col]];
      }
      assert a[0..BUFFER_WIDTH] + tmp[BUFFER_WIDTH..] == a;
    }

    /** The inner loop that writes one row of the temporary grid into
        screen row dst. */
    method WriteRow(t: seq<Cell>, dst: nat)
      requires Valid() && dst < BUFFER_HEIGHT && |t| == BUFFER_WIDTH
      modifies chars
      ensures Cells() == old(Cells())[dst := t]
    {
      WriteCells(dst, t, 0, BUFFER_WIDTH);
      assert old(Cells())[dst][..0] + t[..BUFFER_WIDTH] + old(Cells())[dst][BUFFER_WIDTH..] == t;
    }

    /** The first loop of the vertical wraps: a fresh blank temporary grid
        whose rows 0 .. count take screen rows start .. start + count. */
    method ReadRows(start: nat, count: nat) returns (tmpRows: Grid)
      requires Valid() && start + count <= BUFFER_HEIGHT
      ensures forall r :: 0 <= r < count ==> tmpRows[r] == Cells()[start + r]
      ensures forall r :: count <= r < BUFFER_HEIGHT ==> tmpRows[r] == BlankGrid()[r]
    {
      tmpRows := BlankGrid();
      for k := 0 to count
        invariant forall r :: 0 <= r < k ==> tmpRows[r] == Cells()[start + r]
        invariant forall r :: k <= r < BUFFER_HEIGHT ==> tmpRows[r] == BlankGrid()[r]
      {
        var t := ReadRow(start + k, tmpRows[k]);
        tmpRows := tmpRows[k := t];
      }
    }

    /** The last loop of the vertical wraps: screen rows to .. to + count
        take rows from .. from + count of the temporary grid. */
    method WriteRows(tmpRows: Grid, from: nat, to: nat, count: nat)
      requires Valid() && from + count <= BUFFER_HEIGHT && to + count <= BUFFER_HEIGHT
      modifies chars
      ensures Cells() == RowsCopied(old(Cells()), tmpRows, from, to, count)
    {
      ghost var m := Cells();
      assert RowsCopied(m, tmpRows, from, to, 0) == m;
      for k := 0 to count
        invariant Cells() == RowsCopied(m, tmpRows, from, to, k)
      {
        WriteRow(tmpRows[from + k], to + k);
        RowsCopiedUp(m, tmpRows, from, to, k);
      }
    }

    /** `shift_up_by_x_with_wrap`: the rows rotate up by x, the top x rows
        staged through a temporary grid. */
    method ShiftUpByXWithWrap(x: nat)
      requires Valid() && x <= BUFFER_HEIGHT
      modifies chars
      ensures Cells() == RotateUp(old(Cells()), x)
    {
      var tmpRows := ReadRows(0, x);
      MoveRowsUp(x);
      WriteRows(tmpRows, 0, BUFFER_HEIGHT - x, x);
      StagedRotateUp(old(Cells()), tmpRows, x);
    }

    /** `shift_down_by_x_with_wrap`: the rows rotate down by x, the bottom x
        rows staged through a temporary grid. */
    method ShiftDownByXWithWrap(x: nat)
      requires Valid() && x <= BUFFER_HEIGHT
      modifies chars
      ensures Cells() == RotateDown(old(Cells()), x)
    {
      var tmpRows := ReadRows(BUFFER_HEIGHT - x, x);
      MoveRowsDown(x);
      WriteRows(tmpRows, 0, 0, x);
      StagedRotateDown(old(Cells()), tmpRows, x);
    }

    /** `shift_left_by_x`, as written: after moving a row left it clears
        `clear_subcolumn(width - x, width, row)`, which indexes ROWS
        width - x .. width; for any x >= 1 that reaches past the last row and
        panics. Only x == 0 leaves the screen intact (and unchanged). */
    method ShiftLeftByX(x: nat) returns (panicked: bool)
      requires Valid() && x <= BUFFER_WIDTH
      modifies chars
      ensures panicked <==> x >= 1
      ensures !panicked ==> Cells() == old(Cells())
    {
      ghost var g := Cells();
      for row := 0 to BUFFER_HEIGHT
        invariant row > 0 ==> x == 0
        invariant x == 0 ==> Cells() == g
      {
        MoveCellsLeft(row, x);
        if !SubcolumnInBounds(BUFFER_WIDTH - x, BUFFER_WIDTH, row) {
          return true;
        }
        assert RowMovedLeft(g[row], 0) == g[row];
        ghost var h := Cells();
        ClearSubcolumn(BUFFER_WIDTH - x, BUFFER_WIDTH, row);
        ClearedNothing(h, BUFFER_WIDTH - x, BUFFER_WIDTH, row, row + 1);
      }
      return false;
    }

    /** `shift_right_by_x`, as written: after moving a row right it clears
        `clear_subcolumn(0, x, row)`, i.e. rows 0 .. x of COLUMN row. It
        panics when x exceeds the number of rows; otherwise the screen ends
        as `ShiftRightSteps` describes. */
    method ShiftRightByX(x: nat) returns (panicked: bool)
      requires Valid() && x <= BUFFER_WIDTH
      modifies chars
      ensures panicked <==> x > BUFFER_HEIGHT
      ensures !panicked ==> x <= BUFFER_HEIGHT && Cells() == ShiftRightSteps(old(Cells()), x, BUFFER_HEIGHT)
    {
      for row := 0 to BUFFER_HEIGHT
        invariant row > 0 ==> x <= BUFFER_HEIGHT
        invariant x <= BUFFER_HEIGHT ==> Cells() == ShiftRightSteps(old(Cells()), x, row)
      {
        MoveCellsRight(row, x);
        if !SubcolumnInBounds(0, x, row) {
          return true;
        }
        ClearSubcolumn(0, x, row);
      }
      return false;
    }

    /** `shift_left_by_x` as its documentation describes it: every row moves
        left by x and the rightmost x columns of that row are blanked. */
    method ShiftLeftByXFixed(x: nat)
      requires Valid() && x <= BUFFER_WIDTH
      modifies chars
      ensures Cells() == ShiftLeft(old(Cells()), x)
    {
      ghost var g := Cells();
      assert RowsFrom(g, ShiftLeft(g, x), 0) == g;
      for row := 0 to BUFFER_HEIGHT
        invariant Cells() == RowsFrom(g, ShiftLeft(g, x), row)
      {
        ghost var h := Cells();
        MoveCellsLeft(row, x);
        ClearSubrow(BUFFER_WIDTH - x, BUFFER_WIDTH, row);
        ShiftedRows(h, g, x, row);
        RowsFromStep(g, ShiftLeft(g, x), row);
      }
      RowsFromAll(g, ShiftLeft(g, x));
    }

    /** `shift_right_by_x` as its documentation describes it: every row moves
        right by x and the leftmost x columns of that row are blanked. */
    method ShiftRightByXFixed(x: nat)
      requires Valid() && x <= BUFFER_WIDTH
      modifies chars
      ensures Cells() == ShiftRight(old(Cells()), x)
    {
      ghost var g := Cells();
      assert RowsFrom(g, ShiftRight(g, x), 0) == g;
      for row := 0 to BUFFER_HEIGHT
        invariant Cells() == RowsFrom(g, ShiftRight(g, x), row)
      {
        ghost var h := Cells();
        MoveCellsRight(row, x);
        ClearSubrow(0, x, row);
        ShiftedRows(h, g, x, row);
        RowsFromStep(g, ShiftRight(g, x), row);
      }
      RowsFromAll(g, ShiftRight(g, x));
    }
  }
}
