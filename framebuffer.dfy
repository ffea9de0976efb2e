/** The kernel's pixel renderer (`kernel/src/framebuffer.rs`): a back
    buffer of bytes laid out by the boot loader's frame-buffer geometry,
    the per-format pixel encodings of `set_pixel` and `clear`, filled
    circles, copying to the screen, and the bouncing balls of
    `run_bouncy_circles`. A panic of the source (an index out of range, a
    zero chunk size, slices of different lengths) is an outcome of the
    model: the operation reports it and the bytes are then unspecified. */
module FrameBuffer {
  import opened Machine

  /** The capacity of the static back buffer: 1280 x 720 pixels of four
      bytes. */
  const MAX_BACKBUFFER_BYTES: int := 1280 * 720 * 4

  /** `Color` (and `Color::rgb`, which only builds it). */
  datatype Color = Color(r: byte, g: byte, b: byte)

  /** The boot loader's pixel formats; `Other` stands for the variants the
      renderer matches with `_`. */
  datatype PixelFormat = Rgb | Bgr | U8 | Unknown | Other

  /** The geometry record of the boot loader (`FrameBufferInfo`). */
  datatype Info = Info(byteLen: nat, width: nat, height: nat, pixelFormat: PixelFormat, bytesPerPixel: nat, stride: nat)

  function Min(a: int, b: int): int {
    if a <= b then a else b
  }

  function Max(a: int, b: int): int {
    if a >= b then a else b
  }

  /** The grey level of the `U8` format: the three channels summed in 16
      bits and divided by three. It lies between the darkest and the
      brightest channel, so the cast back to a byte loses nothing. */
  function Gray(c: Color): (v: byte)
    ensures Min(Min(c.r as int, c.g as int), c.b as int) <= v as int <= Max(Max(c.r as int, c.g as int), c.b as int)
  {
    var sum: int := c.r as int + c.g as int + c.b as int;
    assert sum <= U16_MAX;
    (sum / 3) as byte
  }

  /** A grey colour keeps its level. */
  lemma GrayOfGray(a: byte)
    ensures Gray(Color(a, a, a)) == a
  {
  }

  /** How many bytes `set_pixel` stores for one pixel; the colour does not
      matter. */
  function StoreWidth(f: PixelFormat, bpp: nat): nat {
    match f
    case Rgb => 3
    case Bgr => 3
    case U8 => 1
    case Unknown => Min(Max(bpp, 1), 3)
    case Other => 0
  }

  /** The bytes `set_pixel` stores from the pixel's first byte on, in the
      order it stores them: three channels for RGB and BGR whatever the
      pixel size, the grey level for U8, red then green and blue as far as
      the pixel size allows for an unknown format, and nothing for any
      other format. */
  function PixelBytes(f: PixelFormat, c: Color, bpp: nat): (bytes: seq<byte>)
    ensures |bytes| == StoreWidth(f, bpp) <= 3
    ensures f == Unknown ==> bytes[0] == c.r
    ensures f == Other <==> bytes == []
  {
    match f
    case Rgb => [c.r, c.g, c.b]
    case Bgr => [c.b, c.g, c.r]
    case U8 => [Gray(c)]
    case Unknown => [c.r] + (if bpp > 1 then [c.g] else []) + (if bpp > 2 then [c.b] else [])
    case Other => []
  }

  /** The bytes `clear` stores at the start of every chunk of `bpp` bytes:
      the first `min(bpp, 3)` channels in RGB order (RGB and unknown
      formats) or in BGR order, one grey byte for U8, and red alone for any
      other format. */
  function ChunkBytes(f: PixelFormat, c: Color, bpp: nat): (bytes: seq<byte>)
    requires bpp > 0
    ensures 1 <= |bytes| <= Min(bpp, 3)
    ensures (f == U8 || f == Other) ==> |bytes| == 1
    ensures (f == Rgb || f == Bgr || f == Unknown) ==> |bytes| == Min(bpp, 3)
  {
    match f
    case Rgb => [c.r] + (if bpp > 1 then [c.g] else []) + (if bpp > 2 then [c.b] else [])
    case Unknown => [c.r] + (if bpp > 1 then [c.g] else []) + (if bpp > 2 then [c.b] else [])
    case Bgr => [c.b] + (if bpp > 1 then [c.g] else []) + (if bpp > 2 then [c.r] else [])
    case U8 => [Gray(c)]
    case Other => [c.r]
  }

  /** The bytes with `bytes` stored from offset `base` on. */
  function Overlay(s: seq<byte>, base: int, bytes: seq<byte>): (u: seq<byte>)
    requires 0 <= base && base + |bytes| <= |s|
    ensures |u| == |s|
    ensures forall j :: 0 <= j < |s| ==> u[j] == if base <= j < base + |bytes| then bytes[j - base] else s[j]
  {
    s[..base] + bytes + s[base + |bytes|..]
  }

  /** `width()` and `height()`: the geometry's `usize` read `as i32`. */
  function AsI32(n: nat): (w: int)
    ensures IsI32(w) && w <= n
    ensures n <= I32_MAX ==> w == n
  {
    ToI32(n)
  }

  /** The first byte of pixel (x, y): `(y * stride + x) * bytes_per_pixel`. */
  function ByteIndex(info: Info, x: nat, y: nat): (i: nat) {
    (y * info.stride + x) * info.bytesPerPixel
  }

  /** What `set_pixel` does to the buffer s: nothing when the point is off
      the screen or its pixel does not fit in the buffer, the pixel's bytes
      stored otherwise, and a panic (`None`) when the format stores more
      bytes than remain in the buffer. */
  function SetPixelResult(s: seq<byte>, info: Info, x: int, y: int, c: Color): (r: Option<seq<byte>>)
    ensures r.Some? ==> |r.value| == |s|
  {
    if x < 0 || y < 0 || x >= AsI32(info.width) || y >= AsI32(info.height) then Some(s)
    else
      var i := ByteIndex(info, x, y);
      if i + info.bytesPerPixel > |s| then Some(s)
      else
        var bytes := PixelBytes(info.pixelFormat, c, info.bytesPerPixel);
        if i + |bytes| > |s| then None else Some(Overlay(s, i, bytes))
  }

  /** Off the screen `set_pixel` changes nothing. */
  lemma SetPixelOffScreen(s: seq<byte>, info: Info, x: int, y: int, c: Color)
    requires x < 0 || y < 0 || x >= AsI32(info.width) || y >= AsI32(info.height)
    ensures SetPixelResult(s, info, x, y, c) == Some(s)
  {
  }

  /** A pixel that does not fit in the buffer is skipped. */
  lemma SetPixelPastEnd(s: seq<byte>, info: Info, x: nat, y: nat, c: Color)
    requires ByteIndex(info, x, y) + info.bytesPerPixel > |s|
    ensures SetPixelResult(s, info, x, y, c) == Some(s)
  {
  }

  /** On the screen and inside the buffer, with pixels of at least three
      bytes, RGB stores red, green and blue and BGR blue, green and red at
      the pixel's first three bytes; no other byte changes. */
  lemma SetPixelRgbBgr(s: seq<byte>, info: Info, x: nat, y: nat, c: Color)
    requires x < AsI32(info.width) && y < AsI32(info.height)
    requires info.pixelFormat == Rgb || info.pixelFormat == Bgr
    requires info.bytesPerPixel >= 3 && ByteIndex(info, x, y) + info.bytesPerPixel <= |s|
    ensures var i := ByteIndex(info, x, y);
      var u := SetPixelResult(s, info, x, y, c);
      u.Some? && |u.value| == |s| &&
      u.value[i] == (if info.pixelFormat == Rgb then c.r else c.b) &&
      u.value[i + 1] == c.g &&
      u.value[i + 2] == (if info.pixelFormat == Rgb then c.b else c.r) &&
      forall j :: 0 <= j < |s| && (j < i || i + 3 <= j) ==> u.value[j] == s[j]
  {
  }

  /** With pixels of fewer than three bytes, RGB and BGR panic on the
      buffer's last pixel, whose third byte lies past the end. */
  lemma SetPixelRgbNarrowPanics(s: seq<byte>, info: Info, x: nat, y: nat, c: Color)
    requires x < AsI32(info.width) && y < AsI32(info.height)
    requires info.pixelFormat == Rgb || info.pixelFormat == Bgr
    requires info.bytesPerPixel < 3 && ByteIndex(info, x, y) + info.bytesPerPixel == |s|
    ensures SetPixelResult(s, info, x, y, c) == None
  {
  }

  /** U8 stores the grey level at the pixel's first byte and nothing else. */
  lemma SetPixelGray(s: seq<byte>, info: Info, x: nat, y: nat, c: Color)
    requires x < AsI32(info.width) && y < AsI32(info.height)
    requires info.pixelFormat == U8 && info.bytesPerPixel >= 1 && ByteIndex(info, x, y) + info.bytesPerPixel <= |s|
    ensures var i := ByteIndex(info, x, y);
      SetPixelResult(s, info, x, y, c) == Some(s[i := Gray(c)])
  {
    var i := ByteIndex(info, x, y);
    assert Overlay(s, i, [Gray(c)]) == s[i := Gray(c)];
  }

  /** An unknown format stores red and, as far as the pixel size allows,
      green and blue, never beyond the pixel, and never panics on a
      pixel of at least one byte. */
  lemma SetPixelUnknown(s: seq<byte>, info: Info, x: nat, y: nat, c: Color)
    requires x < AsI32(info.width) && y < AsI32(info.height)
    requires info.pixelFormat == Unknown && info.bytesPerPixel >= 1 && ByteIndex(info, x, y) + info.bytesPerPixel <= |s|
    ensures var i := ByteIndex(info, x, y);
      var n := Min(info.bytesPerPixel, 3);
      var u := SetPixelResult(s, info, x, y, c);
      u.Some? && |u.value| == |s| && u.value[i] == c.r &&
      (n > 1 ==> u.value[i + 1] == c.g) && (n > 2 ==> u.value[i + 2] == c.b) &&
      forall j :: 0 <= j < |s| && (j < i || i + n <= j) ==> u.value[j] == s[j]
  {
  }

  /** Any other format is left alone. */
  lemma SetPixelOther(s: seq<byte>, info: Info, x: int, y: int, c: Color)
    requires info.pixelFormat == Other
    ensures SetPixelResult(s, info, x, y, c) == Some(s)
  {
    if 0 <= x < AsI32(info.width) && 0 <= y < AsI32(info.height) {
      var i := ByteIndex(info, x, y);
      if i + info.bytesPerPixel <= |s| {
        assert Overlay(s, i, []) == s;
      }
    }
  }

  /** `set_pixel` changes only the bytes of its own pixel's encoding, from
      the pixel's first byte on, and keeps the buffer's length. */
  lemma SetPixelFrame(s: seq<byte>, info: Info, x: nat, y: nat, c: Color)
    requires SetPixelResult(s, info, x, y, c).Some?
    ensures var u := SetPixelResult(s, info, x, y, c).value;
      var i := ByteIndex(info, x, y);
      |u| == |s| &&
      forall j :: 0 <= j < |s| && (j < i || i + |PixelBytes(info.pixelFormat, c, info.bytesPerPixel)| <= j) ==> u[j] == s[j]
  {
  }

  /** `clear` on the first k chunks of `bpp` bytes: each chunk gets the
      same leading bytes. */
  function ClearedChunks(s: seq<byte>, bpp: nat, bytes: seq<byte>, k: nat): (u: seq<byte>)
    requires 0 < bpp && |bytes| <= bpp && k * bpp <= |s|
    ensures |u| == |s|
    decreases k
  {
    if k == 0 then s
    else
      MulMono(k - 1, k, bpp);
      Overlay(ClearedChunks(s, bpp, bytes, k - 1), (k - 1) * bpp, bytes)
  }

  /** One more chunk. */
  lemma ClearedChunksStep(s: seq<byte>, bpp: nat, bytes: seq<byte>, k: nat)
    requires 0 < bpp && |bytes| <= bpp && (k + 1) * bpp <= |s|
    ensures k * bpp + |bytes| <= |s|
    ensures ClearedChunks(s, bpp, bytes, k + 1) == Overlay(ClearedChunks(s, bpp, bytes, k), k * bpp, bytes)
  {
    MulMono(k, k + 1, bpp);
  }

  /** The number of whole chunks `chunks_exact_mut` yields; the remaining
      `|s| % bpp` bytes are not visited. */
  function ChunkCount(len: nat, bpp: nat): (n: nat)
    requires bpp > 0
    ensures n * bpp <= len < (n + 1) * bpp
  {
    len / bpp
  }

  /** What `clear` does: a panic for a pixel size of zero (a chunk size of
      zero), otherwise every whole chunk gets the format's leading bytes. */
  function ClearResult(s: seq<byte>, info: Info, c: Color): (r: Option<seq<byte>>)
    ensures r.None? <==> info.bytesPerPixel == 0
    ensures r.Some? ==> |r.value| == |s|
  {
    if info.bytesPerPixel == 0 then None
    else
      var bpp := info.bytesPerPixel;
      Some(ClearedChunks(s, bpp, ChunkBytes(info.pixelFormat, c, bpp), ChunkCount(|s|, bpp)))
  }

  /** Chunk q, offset o of the first k chunks holds the chunk's leading
      byte o when there is one and keeps its value otherwise; past the k
      chunks nothing changes. */
  lemma {:induction false} ClearedChunksBytes(s: seq<byte>, bpp: nat, bytes: seq<byte>, k: nat, q: nat, o: nat)
    requires 0 < bpp && |bytes| <= bpp && k * bpp <= |s| && o < bpp
    ensures q < k ==> q * bpp + o < |s|
    ensures q < k ==> ClearedChunks(s, bpp, bytes, k)[q * bpp + o] == if o < |bytes| then bytes[o] else s[q * bpp + o]
    ensures k <= q && q * bpp + o < |s| ==> ClearedChunks(s, bpp, bytes, k)[q * bpp + o] == s[q * bpp + o]
    decreases k
  {
    if k > 0 {
      ClearedChunksBytes(s, bpp, bytes, k - 1, q, o);
      MulMono(k - 1, k, bpp);
      var base := (k - 1) * bpp;
      var j := q * bpp + o;
      assert base + bpp == k * bpp;
      var prev := ClearedChunks(s, bpp, bytes, k - 1);
      assert ClearedChunks(s, bpp, bytes, k) == Overlay(prev, base, bytes);
      if q < k - 1 {
        MulMono(q + 1, k - 1, bpp);
        assert (q + 1) * bpp == q * bpp + bpp;
        assert j < base;
      } else if q == k - 1 {
        assert j == base + o;
      } else {
        MulMono(k, q, bpp);
        assert base + bpp <= j;
      }
    }
  }

  /** `clear` in full: every byte of a whole chunk at an offset that the
      format writes holds the format's byte, and every other byte, the
      bytes past the last whole chunk among them, keeps its value. */
  lemma ClearBytes(s: seq<byte>, info: Info, c: Color, q: nat, o: nat)
    requires info.bytesPerPixel > 0 && o < info.bytesPerPixel && q * info.bytesPerPixel + o < |s|
    ensures var bpp := info.bytesPerPixel;
      var u := ClearResult(s, info, c);
      var bytes := ChunkBytes(info.pixelFormat, c, bpp);
      u.Some? && |u.value| == |s| &&
      u.value[q * bpp + o] == if q < ChunkCount(|s|, bpp) && o < |bytes| then bytes[o] else s[q * bpp + o]
  {
    var bpp := info.bytesPerPixel;
    ClearedChunksBytes(s, bpp, ChunkBytes(info.pixelFormat, c, bpp), ChunkCount(|s|, bpp), q, o);
  }

  /** The renderer: the back buffer it draws into and the geometry. */
  class Renderer {
    const buffer: array<byte>
    const info: Info

    constructor(buffer: array<byte>, info: Info)
      ensures this.buffer == buffer && this.info == info
    {
      this.buffer := buffer;
      this.info := info;
    }

    function Width(): (w: int)
      ensures IsI32(w) && w <= info.width
      ensures info.width <= I32_MAX ==> w == info.width
    {
      AsI32(info.width)
    }

    function Height(): (h: int)
      ensures IsI32(h) && h <= info.height
      ensures info.height <= I32_MAX ==> h == info.height
    {
      AsI32(info.height)
    }

    /** `set_pixel`. */
    method SetPixel(x: int, y: int, c: Color) returns (panicked: bool)
      modifies buffer
      ensures panicked <==> SetPixelResult(old(buffer[..]), info, x, y, c) == None
      ensures !panicked ==> Some(buffer[..]) == SetPixelResult(old(buffer[..]), info, x, y, c)
    {
      if x < 0 || y < 0 || x >= Width() || y >= Height() {
        return false;
      }
      var pixelIndex: nat := y * info.stride + x;
      var byteIndex: nat := pixelIndex * info.bytesPerPixel;
      assert byteIndex == ByteIndex(info, x, y);
      if byteIndex + info.bytesPerPixel > buffer.Length {
        return false;
      }
      panicked := StorePixel(byteIndex, c);
    }

    /** The format's stores of `set_pixel` at a pixel that fits in the
        buffer; a store past the end panics. */
    method StorePixel(byteIndex: nat, c: Color) returns (panicked: bool)
      requires byteIndex + info.bytesPerPixel <= buffer.Length
      modifies buffer
      ensures panicked <==> byteIndex + |PixelBytes(info.pixelFormat, c, info.bytesPerPixel)| > buffer.Length
      ensures !panicked ==> buffer[..] == Overlay(old(buffer[..]), byteIndex, PixelBytes(info.pixelFormat, c, info.bytesPerPixel))
    {
      ghost var s := buffer[..];
      match info.pixelFormat {
        case Rgb =>
          if byteIndex + 2 >= buffer.Length {
            return true;
          }
          buffer[byteIndex] := c.r;
          buffer[byteIndex + 1] := c.g;
          buffer[byteIndex + 2] := c.b;
          assert buffer[..] == Overlay(s, byteIndex, [c.r, c.g, c.b]);
        case Bgr =>
          if byteIndex + 2 >= buffer.Length {
            return true;
          }
          buffer[byteIndex] := c.b;
          buffer[byteIndex + 1] := c.g;
          buffer[byteIndex + 2] := c.r;
          assert buffer[..] == Overlay(s, byteIndex, [c.b, c.g, c.r]);
        case U8 =>
          if byteIndex >= buffer.Length {
            return true;
          }
          var gray := Gray(c);
          buffer[byteIndex] := gray;
          assert buffer[..] == Overlay(s, byteIndex, [gray]);
        case Unknown =>
          if byteIndex >= buffer.Length {
            return true;
          }
          buffer[byteIndex] := c.r;
          if info.bytesPerPixel > 1 {
            buffer[byteIndex + 1] := c.g;
          }
          if info.bytesPerPixel > 2 {
            buffer[byteIndex + 2] := c.b;
          }
          assert buffer[..] == Overlay(s, byteIndex, PixelBytes(Unknown, c, info.bytesPerPixel));
        case Other =>
          assert Overlay(s, byteIndex, []) == s;
      }
      return false;
    }

    /** One chunk of `clear`: the format's leading bytes at `base`. */
    method ClearChunk(base: nat, c: Color)
      requires info.bytesPerPixel > 0 && base + info.bytesPerPixel <= buffer.Length
      modifies buffer
      ensures buffer[..] == Overlay(old(buffer[..]), base, ChunkBytes(info.pixelFormat, c, info.bytesPerPixel))
    {
      var bpp := info.bytesPerPixel;
      match info.pixelFormat {
        case Rgb =>
          buffer[base] := c.r;
          if bpp > 1 {
            buffer[base + 1] := c.g;
          }
          if bpp > 2 {
            buffer[base + 2] := c.b;
          }
        case Bgr =>
          buffer[base] := c.b;
          if bpp > 1 {
            buffer[base + 1] := c.g;
          }
          if bpp > 2 {
            buffer[base + 2] := c.r;
          }
        case U8 =>
          buffer[base] := Gray(c);
        case Unknown =>
          buffer[base] := c.r;
          if bpp > 1 {
            buffer[base + 1] := c.g;
          }
          if bpp > 2 {
            buffer[base + 2] := c.b;
          }
        case Other =>
          buffer[base] := c.r;
      }
    }

    /** `clear`: the same bytes in every whole chunk. The source matches on
        the format once and loops in each arm; the model loops once and
        matches in each chunk, which stores the same bytes. */
    method Clear(c: Color) returns (panicked: bool)
      modifies buffer
      ensures panicked <==> ClearResult(old(buffer[..]), info, c) == None
      ensures !panicked ==> Some(buffer[..]) == ClearResult(old(buffer[..]), info, c)
    {
      var bpp := info.bytesPerPixel;
      if bpp == 0 {
        return true;
      }
      ghost var s := buffer[..];
      ghost var bytes := ChunkBytes(info.pixelFormat, c, bpp);
      var n := buffer.Length / bpp;
      assert n == ChunkCount(|s|, bpp);
      for k := 0 to n
        invariant k * bpp <= buffer.Length
        invariant buffer[..] == ClearedChunks(s, bpp, bytes, k)
      {
        assert (k + 1) * bpp == k * bpp + bpp;
        MulMono(k + 1, n, bpp);
        ClearedChunksStep(s, bpp, bytes, k);
        ClearChunk(k * bpp, c);
      }
      return false;
    }

    /** `present`: `copy_from_slice`, which panics unless the lengths
        agree. */
    method Present(target: array<byte>) returns (panicked: bool)
      requires target != buffer
      modifies target
      ensures panicked <==> target.Length != buffer.Length
      ensures !panicked ==> target[..] == buffer[..]
    {
      if target.Length != buffer.Length {
        return true;
      }
      for i := 0 to buffer.Length
        invariant target[..i] == buffer[..i]
      {
        target[i] := buffer[i];
      }
      assert target[..] == target[..buffer.Length];
      return false;
    }

    /** One row of `draw_filled_circle`: the offsets x in -radius..=radius
        with x^2 + y^2 <= r2. */
    method DrawCircleRow(cx: int, cy: int, y: int, radius: int, r2: int, c: Color) returns (panicked: bool)
      requires radius >= 0
      modifies buffer
      ensures panicked <==> PaintAll(old(buffer[..]), info, RowPoints(cx, cy, y, -radius, radius + 1, r2), c) == None
      ensures !panicked ==> Some(buffer[..]) == PaintAll(old(buffer[..]), info, RowPoints(cx, cy, y, -radius, radius + 1, r2), c)
    {
      ghost var goal := PaintAll(buffer[..], info, RowPoints(cx, cy, y, -radius, radius + 1, r2), c);
      for x := -radius to radius + 1
        invariant PaintAll(buffer[..], info, RowPoints(cx, cy, y, x, radius + 1, r2), c) == goal
      {
        RowStep(buffer[..], info, cx, cy, y, x, radius + 1, r2, c);
        ghost var rest := RowPoints(cx, cy, y, x + 1, radius + 1, r2);
        if x * x + y * y <= r2 {
          ghost var before := buffer[..];
          panicked := SetPixel(cx + x, cy + y, c);
          if panicked {
            assert goal == None;
            return;
          }
          assert goal == PaintAll(buffer[..], info, rest, c);
        }
      }
      return false;
    }

    /** `draw_filled_circle`. */
    method DrawFilledCircle(cx: int, cy: int, radius: int, c: Color) returns (panicked: bool)
      requires CircleFits(cx, cy, radius)
      modifies buffer
      ensures panicked <==> PaintAll(old(buffer[..]), info, FilledCircle(cx, cy, radius), c) == None
      ensures !panicked ==> Some(buffer[..]) == PaintAll(old(buffer[..]), info, FilledCircle(cx, cy, radius), c)
    {
      var r2 := radius * radius;
      ghost var goal := PaintAll(buffer[..], info, FilledCircle(cx, cy, radius), c);
      if radius >= 0 {
        for y := -radius to radius + 1
          invariant PaintAll(buffer[..], info, DiskRows(cx, cy, radius, y, radius + 1, r2), c) == goal
        {
          PaintAllConcat(buffer[..], info, RowPoints(cx, cy, y, -radius, radius + 1, r2), DiskRows(cx, cy, radius, y + 1, radius + 1, r2), c);
          panicked := DrawCircleRow(cx, cy, y, radius, r2, c);
          if panicked {
            return;
          }
        }
      }
      return false;
    }
  }
  /* ---------------------------------------------------------------- */
  /* draw_filled_circle                                                */
  /* ---------------------------------------------------------------- */

  type Point = (int, int)

  /** The points of row cy + dy that `draw_filled_circle` passes to
      `set_pixel`, for the offsets dx in [lo, hi) in ascending order: those
      with dx^2 + dy^2 <= r2. */
  function RowPoints(cx: int, cy: int, dy: int, lo: int, hi: int, r2: int): seq<Point>
    decreases hi - lo
  {
    if lo >= hi then []
    else (if lo * lo + dy * dy <= r2 then [(cx + lo, cy + dy)] else []) + RowPoints(cx, cy, dy, lo + 1, hi, r2)
  }

  /** The rows dy in [lo, hi), each over the offsets -r..=r. */
  function DiskRows(cx: int, cy: int, r: int, lo: int, hi: int, r2: int): seq<Point>
    decreases hi - lo
  {
    if lo >= hi then [] else RowPoints(cx, cy, lo, -r, r + 1, r2) + DiskRows(cx, cy, r, lo + 1, hi, r2)
  }

  /** Every point `draw_filled_circle(cx, cy, r, _)` passes to `set_pixel`,
      in order. */
  function FilledCircle(cx: int, cy: int, r: int): seq<Point> {
    DiskRows(cx, cy, r, -r, r + 1, r * r)
  }

  /** A row holds exactly the offsets in range inside the circle. */
  lemma {:induction false} RowPointsExact(cx: int, cy: int, dy: int, lo: int, hi: int, r2: int, dx: int, ey: int)
    ensures (cx + dx, cy + ey) in RowPoints(cx, cy, dy, lo, hi, r2) <==> ey == dy && lo <= dx < hi && dx * dx + dy * dy <= r2
    decreases hi - lo
  {
    if lo < hi {
      RowPointsExact(cx, cy, dy, lo + 1, hi, r2, dx, ey);
    }
  }

  lemma {:induction false} DiskRowsExact(cx: int, cy: int, r: int, lo: int, hi: int, r2: int, dx: int, dy: int)
    ensures (cx + dx, cy + dy) in DiskRows(cx, cy, r, lo, hi, r2) <==> lo <= dy < hi && -r <= dx <= r && dx * dx + dy * dy <= r2
    decreases hi - lo
  {
    if lo < hi {
      var row := RowPoints(cx, cy, lo, -r, r + 1, r2);
      var rest := DiskRows(cx, cy, r, lo + 1, hi, r2);
      assert DiskRows(cx, cy, r, lo, hi, r2) == row + rest;
      DiskRowsExact(cx, cy, r, lo + 1, hi, r2, dx, dy);
      RowPointsExact(cx, cy, lo, -r, r + 1, r2, dx, dy);
      assert (cx + dx, cy + dy) in row + rest <==> (cx + dx, cy + dy) in row || (cx + dx, cy + dy) in rest;
    }
  }

  /** `draw_filled_circle` plots (cx + dx, cy + dy) exactly when both
      offsets lie in [-r, r] and dx^2 + dy^2 <= r^2. */
  lemma FilledCircleExact(cx: int, cy: int, r: int, dx: int, dy: int)
    ensures (cx + dx, cy + dy) in FilledCircle(cx, cy, r) <==> -r <= dx <= r && -r <= dy <= r && dx * dx + dy * dy <= r * r
  {
    DiskRowsExact(cx, cy, r, -r, r + 1, r * r, dx, dy);
  }

  /** A negative radius plots nothing. */
  lemma FilledCircleNegative(cx: int, cy: int, r: int)
    requires r < 0
    ensures FilledCircle(cx, cy, r) == []
  {
  }

  /** The `set_pixel` calls for a list of points, in order; a panic stops
      the drawing. */
  function PaintAll(s: seq<byte>, info: Info, pts: seq<Point>, c: Color): (r: Option<seq<byte>>)
    ensures r.Some? ==> |r.value| == |s|
    decreases |pts|
  {
    if pts == [] then Some(s)
    else
      match SetPixelResult(s, info, pts[0].0, pts[0].1, c)
      case None => None
      case Some(u) => PaintAll(u, info, pts[1..], c)
  }

  lemma PaintAllCons(s: seq<byte>, info: Info, p: Point, rest: seq<Point>, c: Color)
    ensures PaintAll(s, info, [p] + rest, c) ==
      match SetPixelResult(s, info, p.0, p.1, c)
      case None => None
      case Some(u) => PaintAll(u, info, rest, c)
  {
    assert ([p] + rest)[1..] == rest;
  }

  /** Painting two lists one after the other paints their concatenation. */
  lemma {:induction false} PaintAllConcat(s: seq<byte>, info: Info, a: seq<Point>, b: seq<Point>, c: Color)
    ensures PaintAll(s, info, a + b, c) ==
      match PaintAll(s, info, a, c)
      case None => None
      case Some(u) => PaintAll(u, info, b, c)
    decreases |a|
  {
    if a == [] {
      assert a + b == b;
    } else {
      assert (a + b)[0] == a[0] && (a + b)[1..] == a[1..] + b;
      match SetPixelResult(s, info, a[0].0, a[0].1, c)
      case None =>
      case Some(u) =>
        PaintAllConcat(u, info, a[1..], b, c);
    }
  }

  /** The first offset of a row: plotted when inside the circle, skipped
      otherwise. */
  lemma RowStep(s: seq<byte>, info: Info, cx: int, cy: int, dy: int, lo: int, hi: int, r2: int, c: Color)
    requires lo < hi
    ensures PaintAll(s, info, RowPoints(cx, cy, dy, lo, hi, r2), c) ==
      if lo * lo + dy * dy <= r2 then
        match SetPixelResult(s, info, cx + lo, cy + dy, c)
        case None => None
        case Some(u) => PaintAll(u, info, RowPoints(cx, cy, dy, lo + 1, hi, r2), c)
      else PaintAll(s, info, RowPoints(cx, cy, dy, lo + 1, hi, r2), c)
  {
    var rest := RowPoints(cx, cy, dy, lo + 1, hi, r2);
    if lo * lo + dy * dy <= r2 {
      assert RowPoints(cx, cy, dy, lo, hi, r2) == [(cx + lo, cy + dy)] + rest;
      PaintAllCons(s, info, (cx + lo, cy + dy), rest, c);
    } else {
      assert RowPoints(cx, cy, dy, lo, hi, r2) == rest;
    }
  }

  /** Byte j belongs to the stores of pixel p. */
  predicate Covers(info: Info, p: Point, j: int) {
    0 <= p.0 && 0 <= p.1 &&
    ByteIndex(info, p.0, p.1) <= j < ByteIndex(info, p.0, p.1) + StoreWidth(info.pixelFormat, info.bytesPerPixel)
  }

  /** Painting changes no byte outside the stores of the points painted,
      and keeps the buffer's length. */
  lemma {:induction false} PaintAllFrame(s: seq<byte>, info: Info, pts: seq<Point>, c: Color, j: int)
    requires PaintAll(s, info, pts, c).Some? && 0 <= j < |s|
    requires forall i :: 0 <= i < |pts| ==> !Covers(info, pts[i], j)
    ensures |PaintAll(s, info, pts, c).value| == |s|
    ensures PaintAll(s, info, pts, c).value[j] == s[j]
    decreases |pts|
  {
    if pts != [] {
      var p := pts[0];
      if 0 <= p.0 && 0 <= p.1 {
        SetPixelFrame(s, info, p.0, p.1, c);
      }
      var u := SetPixelResult(s, info, p.0, p.1, c).value;
      forall i | 0 <= i < |pts[1..]|
        ensures !Covers(info, pts[1..][i], j)
      {
        assert pts[1..][i] == pts[i + 1];
      }
      PaintAllFrame(u, info, pts[1..], c, j);
    }
  }

  /** The i32 arithmetic of `draw_filled_circle` does not overflow: the
      radius squared and the largest sum of two squares, and the
      coordinates of the points it plots. */
  predicate CircleFits(cx: int, cy: int, r: int) {
    IsI32(cx) && IsI32(cy) && IsI32(r) && IsI32(r * r) &&
    (r >= 0 ==> IsI32(2 * r * r) && IsI32(cx - r) && IsI32(cx + r) && IsI32(cy - r) && IsI32(cy + r))
  }

  /* ---------------------------------------------------------------- */
  /* Ball                                                              */
  /* ---------------------------------------------------------------- */

  datatype BallState = BallState(x: int, y: int, vx: int, vy: int, radius: int, color: Color)

  /** `Ball::step`: move by the velocity, then turn a velocity round when
      the moved ball touches or crosses one of that axis's edges. */
  function Stepped(b: BallState, width: int, height: int): (n: BallState)
    ensures Abs(n.vx) == Abs(b.vx) && Abs(n.vy) == Abs(b.vy) && n.radius == b.radius && n.color == b.color
  {
    var x := b.x + b.vx;
    var y := b.y + b.vy;
    BallState(x, y,
      if x - b.radius <= 0 || x + b.radius >= width - 1 then -b.vx else b.vx,
      if y - b.radius <= 0 || y + b.radius >= height - 1 then -b.vy else b.vy,
      b.radius, b.color)
  }

  /** The i32 arithmetic of `Ball::step` does not overflow. */
  predicate StepFits(b: BallState, width: int, height: int) {
    var x := b.x + b.vx;
    var y := b.y + b.vy;
    IsI32(b.vx) && IsI32(b.vy) && IsI32(-b.vx) && IsI32(-b.vy) && IsI32(width - 1) && IsI32(height - 1) &&
    IsI32(x) && IsI32(y) && IsI32(x - b.radius) && IsI32(x + b.radius) && IsI32(y - b.radius) && IsI32(y + b.radius)
  }

  /** A step moves the ball by its velocity, keeps the speed on each axis,
      the radius and the colour, and turns the horizontal velocity round
      exactly when the moved ball reaches the left or the right edge (and
      the vertical one at the top or the bottom edge). */
  lemma SteppedMoves(b: BallState, width: int, height: int)
    ensures var n := Stepped(b, width, height);
      n.x == b.x + b.vx && n.y == b.y + b.vy &&
      Abs(n.vx) == Abs(b.vx) && Abs(n.vy) == Abs(b.vy) && n.radius == b.radius && n.color == b.color &&
      (b.vx != 0 ==> (n.vx == -b.vx <==> n.x - b.radius <= 0 || n.x + b.radius >= width - 1)) &&
      (b.vy != 0 ==> (n.vy == -b.vy <==> n.y - b.radius <= 0 || n.y + b.radius >= height - 1))
  {
  }

  /** A ball moving towards an edge that it reaches turns away from it,
      unless it reaches the opposite edge in the same step. */
  lemma BounceTurnsAway(b: BallState, width: int, height: int)
    ensures var n := Stepped(b, width, height);
      (b.vx < 0 && n.x - b.radius <= 0 && n.x + b.radius < width - 1 ==> n.vx > 0) &&
      (b.vx > 0 && n.x + b.radius >= width - 1 && n.x - b.radius > 0 ==> n.vx < 0) &&
      (b.vy < 0 && n.y - b.radius <= 0 && n.y + b.radius < height - 1 ==> n.vy > 0) &&
      (b.vy > 0 && n.y + b.radius >= height - 1 && n.y - b.radius > 0 ==> n.vy < 0)
  {
  }

  /** n frames of the animation. */
  function StepsOf(b: BallState, width: int, height: int, n: nat): BallState
    decreases n
  {
    if n == 0 then b else Stepped(StepsOf(b, width, height, n - 1), width, height)
  }

  /** However many frames pass, each axis keeps its speed and the ball its
      radius and colour. */
  lemma {:induction false} StepsKeepSpeed(b: BallState, width: int, height: int, n: nat)
    ensures var m := StepsOf(b, width, height, n);
      Abs(m.vx) == Abs(b.vx) && Abs(m.vy) == Abs(b.vy) && m.radius == b.radius && m.color == b.color
    decreases n
  {
    if n > 0 {
      StepsKeepSpeed(b, width, height, n - 1);
      SteppedMoves(StepsOf(b, width, height, n - 1), width, height);
    }
  }

  /** A `Ball`. */
  class Ball {
    var x: int
    var y: int
    var vx: int
    var vy: int
    var radius: int
    var color: Color

    ghost function State(): BallState
      reads this
    {
      BallState(x, y, vx, vy, radius, color)
    }

    constructor(b: BallState)
      ensures State() == b
    {
      x, y, vx, vy, radius, color := b.x, b.y, b.vx, b.vy, b.radius, b.color;
    }

    /** `step`. */
    method Step(width: int, height: int)
      requires StepFits(State(), width, height)
      modifies this
      ensures State() == Stepped(old(State()), width, height)
    {
      x := x + vx;
      y := y + vy;
      if x - radius <= 0 || x + radius >= width - 1 {
        vx := -vx;
      }
      if y - radius <= 0 || y + radius >= height - 1 {
        vy := -vy;
      }
    }
  }

  ghost function States(balls: seq<Ball>): (r: seq<BallState>)
    reads balls
    ensures |r| == |balls| && forall i :: 0 <= i < |balls| ==> r[i] == balls[i].State()
  {
    seq(|balls|, i reads balls requires 0 <= i < |balls| => balls[i].State())
  }

  /* ---------------------------------------------------------------- */
  /* run_bouncy_circles                                                */
  /* ---------------------------------------------------------------- */

  const BACKGROUND: Color := Color(7, 8, 16)
  const SPECULAR: Color := Color(255, 255, 255)

  /** The balls `run_bouncy_circles` starts with on a width x height
      screen. */
  function InitialBalls(width: int, height: int): (balls: seq<BallState>)
    ensures |balls| == 3
  {
    [BallState(QuotT(width, 4), QuotT(height, 3), 3, 2, 40, Color(255, 70, 70)),
     BallState(QuotT(width, 2), QuotT(height, 2), -2, 3, 30, Color(70, 255, 120)),
     BallState(QuotT(width * 3, 4), QuotT(height * 2, 3), 2, -2, 50, Color(90, 140, 255))]
  }

  /** On a screen of at least 208 x 156 pixels every ball starts clear of
      all four edges. A ball may still reach an edge in its first step:
      `FirstStepBouncesNone` gives the width from which none does. */
  lemma BallsStartInside(width: int, height: int)
    requires width >= 208 && height >= 156
    ensures forall i :: 0 <= i < 3 ==>
      InitialBalls(width, height)[i].x - InitialBalls(width, height)[i].radius > 0 &&
      InitialBalls(width, height)[i].x + InitialBalls(width, height)[i].radius < width - 1 &&
      InitialBalls(width, height)[i].y - InitialBalls(width, height)[i].radius > 0 &&
      InitialBalls(width, height)[i].y + InitialBalls(width, height)[i].radius < height - 1
  {
  }

  /** From a width of 213 and a height of 156 no ball reaches an edge in
      the first step, so every velocity is kept; at width 208 the third
      ball, moving right from x = 156, reaches the right edge and turns. */
  lemma FirstStepBouncesNone(width: int, height: int)
    requires width >= 213 && height >= 156
    ensures forall i :: 0 <= i < 3 ==>
      Stepped(InitialBalls(width, height)[i], width, height).vx == InitialBalls(width, height)[i].vx &&
      Stepped(InitialBalls(width, height)[i], width, height).vy == InitialBalls(width, height)[i].vy
    ensures Stepped(InitialBalls(208, 156)[2], 208, 156).vx == -2
  {
  }

  /** The highlight drawn on a ball: radius 5, a third of the radius right
      of and above the centre (truncating i32 division). */
  function HighlightX(b: BallState): (h: int)
    ensures b.radius >= 0 ==> b.x <= h && 3 * (h - b.x) <= b.radius
  {
    b.x + QuotT(b.radius, 3)
  }

  function HighlightY(b: BallState): (h: int)
    ensures b.radius >= 0 ==> h <= b.y && 3 * (b.y - h) <= b.radius
  {
    b.y - QuotT(b.radius, 3)
  }

  /** One ball drawn: its disk in its colour, then its highlight. */
  function DrawnBall(s: seq<byte>, info: Info, b: BallState): (r: Option<seq<byte>>)
    ensures r.Some? ==> |r.value| == |s|
  {
    match PaintAll(s, info, FilledCircle(b.x, b.y, b.radius), b.color)
    case None => None
    case Some(u) => PaintAll(u, info, FilledCircle(HighlightX(b), HighlightY(b), 5), SPECULAR)
  }

  /** The ball drawing of one frame: each ball in turn. */
  function DrawBalls(s: seq<byte>, info: Info, balls: seq<BallState>): (r: Option<seq<byte>>)
    ensures r.Some? ==> |r.value| == |s|
    decreases |balls|
  {
    if balls == [] then Some(s)
    else
      match DrawnBall(s, info, balls[0])
      case None => None
      case Some(w) => DrawBalls(w, info, balls[1..])
  }

  /** The image of one frame: the background, then the balls. */
  function FrameImage(s: seq<byte>, info: Info, balls: seq<BallState>): (r: Option<seq<byte>>)
    ensures r.Some? ==> |r.value| == |s|
  {
    match ClearResult(s, info, BACKGROUND)
    case None => None
    case Some(u) => DrawBalls(u, info, balls)
  }

  /** No pixel of any ball's disk covers byte j. */
  predicate ClearOfBalls(info: Info, balls: seq<BallState>, j: int) {
    forall i, k :: 0 <= i < |balls| && 0 <= k < |FilledCircle(balls[i].x, balls[i].y, balls[i].radius)| ==>
      !Covers(info, FilledCircle(balls[i].x, balls[i].y, balls[i].radius)[k], j)
  }

  /** No pixel of any ball's highlight covers byte j. */
  predicate ClearOfHighlights(info: Info, balls: seq<BallState>, j: int) {
    forall i, k :: 0 <= i < |balls| && 0 <= k < |FilledCircle(HighlightX(balls[i]), HighlightY(balls[i]), 5)| ==>
      !Covers(info, FilledCircle(HighlightX(balls[i]), HighlightY(balls[i]), 5)[k], j)
  }

  /** Drawing the balls changes no byte that no ball and no highlight
      covers. */
  lemma {:induction false} DrawBallsFrame(s: seq<byte>, info: Info, balls: seq<BallState>, j: int)
    requires DrawBalls(s, info, balls).Some? && 0 <= j < |s|
    requires ClearOfBalls(info, balls, j) && ClearOfHighlights(info, balls, j)
    ensures DrawBalls(s, info, balls).value[j] == s[j]
    decreases |balls|
  {
    if balls != [] {
      var b := balls[0];
      var disk := FilledCircle(b.x, b.y, b.radius);
      var spot := FilledCircle(HighlightX(b), HighlightY(b), 5);
      forall k | 0 <= k < |disk|
        ensures !Covers(info, disk[k], j)
      {
        assert disk[k] == FilledCircle(balls[0].x, balls[0].y, balls[0].radius)[k];
      }
      PaintAllFrame(s, info, disk, b.color, j);
      var u := PaintAll(s, info, disk, b.color).value;
      forall k | 0 <= k < |spot|
        ensures !Covers(info, spot[k], j)
      {
        assert spot[k] == FilledCircle(HighlightX(balls[0]), HighlightY(balls[0]), 5)[k];
      }
      PaintAllFrame(u, info, spot, SPECULAR, j);
      var w := PaintAll(u, info, spot, SPECULAR).value;
      var rest := balls[1..];
      forall i, k | 0 <= i < |rest| && 0 <= k < |FilledCircle(rest[i].x, rest[i].y, rest[i].radius)|
        ensures !Covers(info, FilledCircle(rest[i].x, rest[i].y, rest[i].radius)[k], j)
      {
        assert rest[i] == balls[i + 1];
      }
      forall i, k | 0 <= i < |rest| && 0 <= k < |FilledCircle(HighlightX(rest[i]), HighlightY(rest[i]), 5)|
        ensures !Covers(info, FilledCircle(HighlightX(rest[i]), HighlightY(rest[i]), 5)[k], j)
      {
        assert rest[i] == balls[i + 1];
      }
      DrawBallsFrame(w, info, rest, j);
    }
  }

  /** A byte that no ball and no highlight covers shows the background
      after a frame: chunk q's byte o is the background's byte o when
      `clear` writes one there and keeps its old value otherwise. */
  lemma FrameBackground(s: seq<byte>, info: Info, balls: seq<BallState>, q: nat, o: nat)
    requires FrameImage(s, info, balls).Some?
    requires info.bytesPerPixel > 0 && o < info.bytesPerPixel && q * info.bytesPerPixel + o < |s|
    requires ClearOfBalls(info, balls, q * info.bytesPerPixel + o) && ClearOfHighlights(info, balls, q * info.bytesPerPixel + o)
    ensures var bpp := info.bytesPerPixel;
      var bytes := ChunkBytes(info.pixelFormat, BACKGROUND, bpp);
      FrameImage(s, info, balls).value[q * bpp + o] ==
        if q < ChunkCount(|s|, bpp) && o < |bytes| then bytes[o] else s[q * bpp + o]
  {
    ClearBytes(s, info, BACKGROUND, q, o);
    var u := ClearResult(s, info, BACKGROUND).value;
    DrawBallsFrame(u, info, balls, q * info.bytesPerPixel + o);
  }

  /** The i32 arithmetic of one frame does not overflow for a ball. */
  predicate FrameFits(b: BallState, width: int, height: int) {
    IsI32(b.radius) && IsI32(QuotT(b.radius, 3)) && IsI32(HighlightX(b)) && IsI32(HighlightY(b)) &&
    CircleFits(b.x, b.y, b.radius) && CircleFits(HighlightX(b), HighlightY(b), 5) && StepFits(b, width, height)
  }

  /** One ball of the drawing loop, then the rest. */
  lemma DrawBallsStep(s: seq<byte>, info: Info, balls: seq<BallState>, i: nat)
    requires i < |balls|
    ensures DrawBalls(s, info, balls[i..]) ==
      match DrawnBall(s, info, balls[i])
      case None => None
      case Some(w) => DrawBalls(w, info, balls[i + 1..])
  {
    assert balls[i..][0] == balls[i] && balls[i..][1..] == balls[i + 1..];
  }

  /** The drawing loop of a frame: every ball's disk, then its highlight. */
  method DrawAllBalls(renderer: Renderer, balls: seq<Ball>) returns (panicked: bool)
    requires forall i :: 0 <= i < |balls| ==> FrameFits(balls[i].State(), renderer.Width(), renderer.Height())
    modifies renderer.buffer
    ensures panicked <==> DrawBalls(old(renderer.buffer[..]), renderer.info, States(balls)) == None
    ensures !panicked ==> Some(renderer.buffer[..]) == DrawBalls(old(renderer.buffer[..]), renderer.info, States(balls))
  {
    ghost var states := States(balls);
    ghost var goal := DrawBalls(renderer.buffer[..], renderer.info, states);
    for i := 0 to |balls|
      invariant DrawBalls(renderer.buffer[..], renderer.info, states[i..]) == goal
    {
      DrawBallsStep(renderer.buffer[..], renderer.info, states, i);
      panicked := DrawBall(renderer, balls[i]);
      if panicked {
        return;
      }
    }
    return false;
  }

  /** The body of the drawing loop for one ball. */
  method DrawBall(renderer: Renderer, ball: Ball) returns (panicked: bool)
    requires FrameFits(ball.State(), renderer.Width(), renderer.Height())
    modifies renderer.buffer
    ensures panicked <==> DrawnBall(old(renderer.buffer[..]), renderer.info, ball.State()) == None
    ensures !panicked ==> Some(renderer.buffer[..]) == DrawnBall(old(renderer.buffer[..]), renderer.info, ball.State())
  {
    panicked := renderer.DrawFilledCircle(ball.x, ball.y, ball.radius, ball.color);
    if panicked {
      return;
    }
    panicked := renderer.DrawFilledCircle(ball.x + QuotT(ball.radius, 3), ball.y - QuotT(ball.radius, 3), 5, SPECULAR);
  }

  /** The stepping loop of a frame. */
  method StepAllBalls(balls: seq<Ball>, width: int, height: int)
    requires forall i, j :: 0 <= i < j < |balls| ==> balls[i] != balls[j]
    requires forall i :: 0 <= i < |balls| ==> StepFits(balls[i].State(), width, height)
    modifies balls
    ensures forall i :: 0 <= i < |balls| ==> balls[i].State() == Stepped(old(balls[i].State()), width, height)
  {
    for i := 0 to |balls|
      invariant forall k :: 0 <= k < i ==> balls[k].State() == Stepped(old(balls[k].State()), width, height)
      invariant forall k :: i <= k < |balls| ==> balls[k].State() == old(balls[k].State())
    {
      balls[i].Step(width, height);
    }
  }

  /** One pass of the animation loop of `run_bouncy_circles`: clear the
      back buffer, draw the balls, step them and copy the back buffer to the
      screen. The wait for the next timer tick is not part of it. */
  method RenderFrame(renderer: Renderer, balls: seq<Ball>, screen: array<byte>) returns (panicked: bool)
    requires screen != renderer.buffer
    requires forall i, j :: 0 <= i < j < |balls| ==> balls[i] != balls[j]
    requires forall i :: 0 <= i < |balls| ==> FrameFits(balls[i].State(), renderer.Width(), renderer.Height())
    modifies renderer.buffer, screen, balls
    ensures panicked <==>
      FrameImage(old(renderer.buffer[..]), renderer.info, old(States(balls))) == None || screen.Length != renderer.buffer.Length
    ensures !panicked ==> Some(renderer.buffer[..]) == FrameImage(old(renderer.buffer[..]), renderer.info, old(States(balls)))
    ensures !panicked ==> screen[..] == renderer.buffer[..]
    ensures !panicked ==> forall i :: 0 <= i < |balls| ==>
      balls[i].State() == Stepped(old(balls[i].State()), renderer.Width(), renderer.Height())
  {
    panicked := renderer.Clear(BACKGROUND);
    if panicked {
      return;
    }
    panicked := DrawAllBalls(renderer, balls);
    if panicked {
      return;
    }
    StepAllBalls(balls, renderer.Width(), renderer.Height());
    panicked := renderer.Present(screen);
  }

  /** The set-up of `run_bouncy_circles`: spin for ever (`spins`) when the
      frame buffer is empty or larger than the static back buffer; otherwise
      a renderer over the first byteLen bytes of the back buffer and the
      three starting balls. */
  method StartBouncyCircles(info: Info, backbuffer: array<byte>) returns (spins: bool, renderer: Renderer?, balls: seq<Ball>)
    requires backbuffer.Length == MAX_BACKBUFFER_BYTES
    requires IsI32(AsI32(info.width) * 3) && IsI32(AsI32(info.height) * 2)
    ensures spins <==> info.byteLen == 0 || info.byteLen > MAX_BACKBUFFER_BYTES
    ensures !spins ==> renderer != null && renderer.info == info && fresh(renderer.buffer)
    ensures !spins ==> renderer.buffer[..] == backbuffer[..info.byteLen]
    ensures !spins ==> |balls| == 3 && forall i, j :: 0 <= i < j < 3 ==> balls[i] != balls[j]
    ensures !spins ==> States(balls) == InitialBalls(renderer.Width(), renderer.Height())
  {
    if info.byteLen == 0 || info.byteLen > MAX_BACKBUFFER_BYTES {
      return true, null, [];
    }
    var buffer := new byte[info.byteLen](i reads backbuffer requires 0 <= i < info.byteLen => backbuffer[i]);
    assert buffer[..] == backbuffer[..info.byteLen];
    renderer := new Renderer(buffer, info);
    var width := renderer.Width();
    var height := renderer.Height();
    var first := new Ball(BallState(QuotT(width, 4), QuotT(height, 3), 3, 2, 40, Color(255, 70, 70)));
    var second := new Ball(BallState(QuotT(width, 2), QuotT(height, 2), -2, 3, 30, Color(70, 255, 120)));
    var third := new Ball(BallState(QuotT(width * 3, 4), QuotT(height * 2, 3), 2, -2, 50, Color(90, 140, 255)));
    return false, renderer, [first, second, third];
  }
}
