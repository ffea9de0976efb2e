/** The text-mode raster routines of the first crate: `draw_point`,
    Bresenham's `draw_line` and the midpoint `draw_circle`, all drawing
    on the 25x80 text-mode screen of the kernel's `VGATextMode` (the
    screen they lock is passed in). A drawing is described by the list of
    points it plots; painting a list changes exactly the on-screen cells
    it names. */
module Drawing {
  import opened Machine
  import opened TextMode

  /** The full-block character `draw_point` uses. */
  const BLOCK: byte := 0xDB

  type Point = (int, int)

  predicate OnScreen(p: Point) {
    0 <= p.0 < BUFFER_WIDTH && 0 <= p.1 < BUFFER_HEIGHT
  }

  predicate AllOnScreen(pts: seq<Point>) {
    forall i :: 0 <= i < |pts| ==> OnScreen(pts[i])
  }

  /** One bounds-checked write of v at point p (x is the column, y the
      row): a point off the screen changes nothing. */
  function PaintOne(g: Grid, p: Point, v: Cell): Grid {
    if OnScreen(p) then Put(g, p.1, p.0, v) else g
  }

  /** The grid after writing v at the points of pts, in order. */
  function PaintPoints(g: Grid, pts: seq<Point>, v: Cell): Grid
    decreases |pts|
  {
    if pts == [] then g else PaintOne(PaintPoints(g, pts[..|pts| - 1], v), pts[|pts| - 1], v)
  }

  /** Painting one more point. */
  lemma PaintSnoc(g: Grid, pts: seq<Point>, p: Point, v: Cell)
    ensures PaintPoints(g, pts + [p], v) == PaintOne(PaintPoints(g, pts, v), p, v)
  {
    assert (pts + [p])[..|pts|] == pts;
  }

  /** Cell by cell: a cell holds v exactly when an on-screen point of the
      list names it, and every other cell keeps its value. */
  lemma {:induction false} PaintCells(g: Grid, pts: seq<Point>, v: Cell, r: int, c: int)
    requires 0 <= r < BUFFER_HEIGHT && 0 <= c < BUFFER_WIDTH
    ensures PaintPoints(g, pts, v)[r][c] == if (c, r) in pts then v else g[r][c]
    decreases |pts|
  {
    if pts != [] {
      var init := pts[..|pts| - 1];
      PaintCells(g, init, v, r, c);
      assert pts == init + [pts[|pts| - 1]];
    }
  }

  /** Painting two lists one after the other paints their concatenation. */
  lemma {:induction false} PaintConcat(g: Grid, p: seq<Point>, q: seq<Point>, v: Cell)
    ensures PaintPoints(PaintPoints(g, p, v), q, v) == PaintPoints(g, p + q, v)
    decreases |q|
  {
    if q == [] {
      assert p + q == p;
    } else {
      var init := q[..|q| - 1];
      var last := q[|q| - 1];
      PaintConcat(g, p, init, v);
      assert q == init + [last];
      assert p + q == (p + init) + [last];
      PaintSnoc(PaintPoints(g, p, v), init, last, v);
      PaintSnoc(g, p + init, last, v);
    }
  }

  /* ---------------------------------------------------------------- */
  /* draw_line                                                         */
  /* ---------------------------------------------------------------- */

  /** How many values `lo..=hi` ranges over. */
  function Count(lo: int, hi: int): (n: nat)
    ensures lo <= hi ==> n == hi - lo + 1
    ensures hi < lo ==> n == 0
  {
    if lo <= hi then hi - lo + 1 else 0
  }

  /** The distance `draw_line` computes with its `if` on the order. */
  function Dist(a: int, b: int): (d: nat)
    ensures d == Abs(a - b)
  {
    if a > b then a - b else b - a
  }

  /** `if_cond_x` / `if_cond_y`: the direction from a towards b. */
  function Dir(a: int, b: int): (s: int)
    ensures s == 1 || s == -1
    ensures a > b ==> s == -1
  {
    if a > b then -1 else 1
  }

  /** The points one branch of `draw_line` plots, as (major, minor) pairs:
      n steps along the major axis from (a, b), with e the error term
      (`mut_y` or `mut_x`). After plotting, a non-negative error moves the
      minor coordinate by sMinor and takes 2 * dMajor off; every step adds
      2 * dMinor and moves the major coordinate by sMajor. */
  function Walk(a: int, b: int, e: int, n: nat, dMajor: int, dMinor: int, sMajor: int, sMinor: int): (w: seq<Point>)
    ensures |w| == n
    ensures n > 0 ==> w[0] == (a, b)
    decreases n
  {
    if n == 0 then []
    else
      var b' := if e >= 0 then b + sMinor else b;
      var e' := (if e >= 0 then e - 2 * dMajor else e) + 2 * dMinor;
      [(a, b)] + Walk(a + sMajor, b', e', n - 1, dMajor, dMinor, sMajor, sMinor)
  }

  /** The same points with the two coordinates exchanged. */
  function Swap(w: seq<Point>): (s: seq<Point>)
    ensures |s| == |w| && forall i :: 0 <= i < |w| ==> s[i] == (w[i].1, w[i].0)
  {
    seq(|w|, i requires 0 <= i < |w| => (w[i].1, w[i].0))
  }

  /** The points `draw_line` plots, as (column, row): the shallow branch
      walks the columns x1..=x2, the steep one the rows y1..=y2. */
  function LinePoints(x1: int, y1: int, x2: int, y2: int): seq<Point> {
    var dx := Dist(x1, x2);
    var dy := Dist(y1, y2);
    if dy <= dx then Walk(x1, y1, 2 * dy - dx, Count(x1, x2), dx, dy, Dir(x1, x2), Dir(y1, y2))
    else Swap(Walk(y1, x1, 2 * dx - dy, Count(y1, y2), dy, dx, Dir(y1, y2), Dir(x1, x2)))
  }

  predicate Between(v: int, a: int, b: int) {
    (a <= v <= b) || (b <= v <= a)
  }

  /** Along a walk the major coordinate advances by sMajor per point and
      the minor one moves by 0 or sMinor. */
  lemma {:induction false} WalkSteps(a: int, b: int, e: int, n: nat, dMajor: int, dMinor: int, sMajor: int, sMinor: int)
    requires sMajor == 1 || sMajor == -1
    ensures forall i :: 0 <= i < n ==>
      Walk(a, b, e, n, dMajor, dMinor, sMajor, sMinor)[i].0 == if sMajor == 1 then a + i else a - i
    ensures forall i :: 0 <= i < n - 1 ==>
      Walk(a, b, e, n, dMajor, dMinor, sMajor, sMinor)[i + 1].1 - Walk(a, b, e, n, dMajor, dMinor, sMajor, sMinor)[i].1 in {0, sMinor}
    decreases n
  {
    if n > 0 {
      var b' := if e >= 0 then b + sMinor else b;
      var e' := (if e >= 0 then e - 2 * dMajor else e) + 2 * dMinor;
      var w := Walk(a, b, e, n, dMajor, dMinor, sMajor, sMinor);
      var t := Walk(a + sMajor, b', e', n - 1, dMajor, dMinor, sMajor, sMinor);
      WalkSteps(a + sMajor, b', e', n - 1, dMajor, dMinor, sMajor, sMinor);
      assert w == [(a, b)] + t;
      forall i | 0 <= i < n
        ensures w[i].0 == if sMajor == 1 then a + i else a - i
      {
        if i > 0 {
          assert w[i] == t[i - 1];
          assert t[i - 1].0 == if sMajor == 1 then a + sMajor + (i - 1) else a + sMajor - (i - 1);
        }
      }
      forall i | 0 <= i < n - 1
        ensures w[i + 1].1 - w[i].1 in {0, sMinor}
      {
        assert w[i + 1] == t[i];
        if i > 0 {
          assert w[i] == t[i - 1];
          assert t[i].1 - t[i - 1].1 in {0, sMinor};
        } else {
          assert t[0] == (a + sMajor, b');
        }
      }
    }
  }

  /** The error identity of a walk: e is what Bresenham's error term is
      with n points still to plot and R still to go on the minor axis. */
  predicate ErrorIdentity(e: int, n: int, dMajor: int, dMinor: int, R: int) {
    e == 2 * dMinor - 2 * dMinor * (n - 1) - dMajor + 2 * dMajor * R
  }

  /** The sign facts about a product that the error bounds need. */
  lemma MulSign(a: int, b: int)
    requires 0 <= a
    ensures b <= 0 ==> a * b <= 0
    ensures 1 <= b ==> a <= a * b
  {
  }

  /** One step keeps the identity, with R decreased when the minor
      coordinate moves. */
  lemma IdentityStep(e: int, n: int, dMajor: int, dMinor: int, R: int)
    requires ErrorIdentity(e, n, dMajor, dMinor, R)
    ensures ErrorIdentity(e - 2 * dMajor + 2 * dMinor, n - 1, dMajor, dMinor, R - 1)
    ensures ErrorIdentity(e + 2 * dMinor, n - 1, dMajor, dMinor, R)
  {
    assert dMinor * (n - 1) == dMinor * (n - 2) + dMinor;
    assert dMajor * R == dMajor * (R - 1) + dMajor;
  }

  /** The minor coordinate only moves while there is distance left. */
  lemma MoveNeedsDistance(e: int, n: int, dMajor: int, dMinor: int, R: int)
    requires ErrorIdentity(e, n, dMajor, dMinor, R)
    requires 0 <= dMinor && 0 < dMajor && 2 <= n && 0 <= e
    ensures 1 <= R
  {
    MulSign(dMinor, n - 1);
    MulSign(dMajor, R);
  }

  /** At the last point no distance is left. */
  lemma NoDistanceLeft(e: int, dMajor: int, dMinor: int, R: int)
    requires ErrorIdentity(e, 1, dMajor, dMinor, R)
    requires 0 < dMajor && e < 2 * dMinor && 0 <= R
    ensures R == 0
  {
    MulSign(dMajor, R);
  }

  /** A branch of `draw_line` starts with the identity: error
      2 * dMinor - dMajor, dMajor + 1 points and dMinor to go. */
  lemma IdentityAtStart(dMajor: int, dMinor: int)
    ensures ErrorIdentity(2 * dMinor - dMajor, dMajor + 1, dMajor, dMinor, dMinor)
  {
    assert dMinor * dMajor == dMajor * dMinor;
  }

  /** The Bresenham bound: with R the distance still to go on the minor
      axis, tied to the error term by `ErrorIdentity`, every point's minor
      coordinate lies between b and b + sMinor * R, and the last point
      reaches it. */
  lemma {:induction false} WalkBetween(a: int, b: int, e: int, n: nat, dMajor: int, dMinor: int, sMajor: int, sMinor: int, R: int)
    requires 0 <= dMinor <= dMajor && 0 <= R && n <= dMajor + 1 && (sMinor == 1 || sMinor == -1)
    requires n >= 1 ==> ErrorIdentity(e, n, dMajor, dMinor, R)
    requires 0 < dMajor ==> e < 2 * dMinor
    requires dMajor == 0 ==> R == 0
    ensures forall i :: 0 <= i < n ==> Between(Walk(a, b, e, n, dMajor, dMinor, sMajor, sMinor)[i].1, b, b + sMinor * R)
    ensures n >= 1 ==> Walk(a, b, e, n, dMajor, dMinor, sMajor, sMinor)[n - 1].1 == b + sMinor * R
    decreases n
  {
    if n == 0 {
      return;
    }
    var w := Walk(a, b, e, n, dMajor, dMinor, sMajor, sMinor);
    if n == 1 {
      if 0 < dMajor {
        NoDistanceLeft(e, dMajor, dMinor, R);
      }
      return;
    }
    var b' := if e >= 0 then b + sMinor else b;
    var e' := (if e >= 0 then e - 2 * dMajor else e) + 2 * dMinor;
    var R' := if e >= 0 then R - 1 else R;
    var t := Walk(a + sMajor, b', e', n - 1, dMajor, dMinor, sMajor, sMinor);
    assert w == [(a, b)] + t;
    IdentityStep(e, n, dMajor, dMinor, R);
    if e >= 0 {
      MoveNeedsDistance(e, n, dMajor, dMinor, R);
    }
    WalkBetween(a + sMajor, b', e', n - 1, dMajor, dMinor, sMajor, sMinor, R');
    assert b' + sMinor * R' == b + sMinor * R;
    forall i | 0 <= i < n
      ensures Between(w[i].1, b, b + sMinor * R)
    {
      if i > 0 {
        assert w[i] == t[i - 1];
      }
    }
    assert w[n - 1] == t[n - 2];
  }

  /** A walk forwards along the major axis from the starting error
      2 * dMinor - dMajor over dMajor + 1 points: the major coordinate
      counts up from a, the minor one stays between b and
      b + sMinor * dMinor, moves by 0 or sMinor per point and ends there. */
  lemma WalkShape(a: int, b: int, dMajor: int, dMinor: int, sMinor: int)
    requires 0 <= dMinor <= dMajor && (sMinor == 1 || sMinor == -1)
    ensures var w := Walk(a, b, 2 * dMinor - dMajor, dMajor + 1, dMajor, dMinor, 1, sMinor);
      (forall i :: 0 <= i < |w| ==> w[i].0 == a + i && Between(w[i].1, b, b + sMinor * dMinor)) &&
      (forall i :: 0 <= i < |w| - 1 ==> w[i + 1].1 - w[i].1 in {0, sMinor}) &&
      w[dMajor] == (a + dMajor, b + sMinor * dMinor)
  {
    WalkSteps(a, b, 2 * dMinor - dMajor, dMajor + 1, dMajor, dMinor, 1, sMinor);
    IdentityAtStart(dMajor, dMinor);
    WalkBetween(a, b, 2 * dMinor - dMajor, dMajor + 1, dMajor, dMinor, 1, sMinor, dMinor);
  }

  /** The shallow case of `draw_line` (dy <= dx): one point per column
      x1..=x2 (none when x1 > x2), starting at (x1, y1) and ending at
      (x2, y2), every row between y1 and y2, moving by at most one towards
      y2 from one column to the next. */
  lemma LineShallowShape(x1: int, y1: int, x2: int, y2: int)
    requires Dist(y1, y2) <= Dist(x1, x2)
    ensures |LinePoints(x1, y1, x2, y2)| == Count(x1, x2)
    ensures forall i :: 0 <= i < |LinePoints(x1, y1, x2, y2)| ==>
      LinePoints(x1, y1, x2, y2)[i].0 == x1 + i && Between(LinePoints(x1, y1, x2, y2)[i].1, y1, y2)
    ensures forall i :: 0 <= i < |LinePoints(x1, y1, x2, y2)| - 1 ==>
      LinePoints(x1, y1, x2, y2)[i + 1].1 - LinePoints(x1, y1, x2, y2)[i].1 in {0, Dir(y1, y2)}
    ensures x1 <= x2 ==> LinePoints(x1, y1, x2, y2)[0] == (x1, y1) && LinePoints(x1, y1, x2, y2)[x2 - x1] == (x2, y2)
  {
    if x1 <= x2 {
      var dx: int := x2 - x1;
      var dy: int := Dist(y1, y2);
      assert Dist(x1, x2) == dx && Count(x1, x2) == dx + 1 && Dir(x1, x2) == 1;
      var w := Walk(x1, y1, 2 * dy - dx, dx + 1, dx, dy, 1, Dir(y1, y2));
      assert LinePoints(x1, y1, x2, y2) == w;
      assert y1 + Dir(y1, y2) * dy == y2;
      WalkShape(x1, y1, dx, dy, Dir(y1, y2));
    } else {
      assert Count(x1, x2) == 0;
      assert LinePoints(x1, y1, x2, y2) == [];
    }
  }

  /** The steep case of `draw_line` (dy > dx): the same with rows and
      columns exchanged, one point per row y1..=y2. */
  lemma LineSteepShape(x1: int, y1: int, x2: int, y2: int)
    requires Dist(x1, x2) < Dist(y1, y2)
    ensures |LinePoints(x1, y1, x2, y2)| == Count(y1, y2)
    ensures forall i :: 0 <= i < |LinePoints(x1, y1, x2, y2)| ==>
      LinePoints(x1, y1, x2, y2)[i].1 == y1 + i && Between(LinePoints(x1, y1, x2, y2)[i].0, x1, x2)
    ensures forall i :: 0 <= i < |LinePoints(x1, y1, x2, y2)| - 1 ==>
      LinePoints(x1, y1, x2, y2)[i + 1].0 - LinePoints(x1, y1, x2, y2)[i].0 in {0, Dir(x1, x2)}
    ensures y1 <= y2 ==> LinePoints(x1, y1, x2, y2)[0] == (x1, y1) && LinePoints(x1, y1, x2, y2)[y2 - y1] == (x2, y2)
  {
    SteepIsSwappedShallow(x1, y1, x2, y2);
    var w := LinePoints(y1, x1, y2, x2);
    LineShallowShape(y1, x1, y2, x2);
    SwappedShape(w, y1, x1, x2, Dir(x1, x2));
  }

  /** A steep line is the shallow line with the axes exchanged, swapped
      back. */
  lemma SteepIsSwappedShallow(x1: int, y1: int, x2: int, y2: int)
    requires Dist(x1, x2) < Dist(y1, y2)
    ensures LinePoints(x1, y1, x2, y2) == Swap(LinePoints(y1, x1, y2, x2))
  {
  }

  /** What a shallow walk's shape says, read with the coordinates
      exchanged. */
  lemma SwappedShape(w: seq<Point>, a: int, b1: int, b2: int, s: int)
    requires forall i :: 0 <= i < |w| ==> w[i].0 == a + i && Between(w[i].1, b1, b2)
    requires forall i :: 0 <= i < |w| - 1 ==> w[i + 1].1 - w[i].1 in {0, s}
    ensures forall i :: 0 <= i < |w| ==> Swap(w)[i].1 == a + i && Between(Swap(w)[i].0, b1, b2)
    ensures forall i :: 0 <= i < |w| - 1 ==> Swap(w)[i + 1].0 - Swap(w)[i].0 in {0, s}
  {
    var t := Swap(w);
    forall i | 0 <= i < |w| - 1
      ensures t[i + 1].0 - t[i].0 in {0, s}
    {
      assert t[i + 1] == (w[i + 1].1, w[i + 1].0) && t[i] == (w[i].1, w[i].0);
    }
  }

  /** A line between two on-screen points stays on the screen, so
      `draw_line` between them never indexes outside the buffer. */
  lemma LineOnScreen(x1: int, y1: int, x2: int, y2: int)
    requires OnScreen((x1, y1)) && OnScreen((x2, y2))
    ensures AllOnScreen(LinePoints(x1, y1, x2, y2))
  {
    if Dist(y1, y2) <= Dist(x1, x2) {
      LineShallowShape(x1, y1, x2, y2);
    } else {
      LineSteepShape(x1, y1, x2, y2);
    }
    var pts := LinePoints(x1, y1, x2, y2);
    forall i | 0 <= i < |pts|
      ensures OnScreen(pts[i])
    {
      assert Between(pts[i].0, x1, x2) || Between(pts[i].1, y1, y2);
    }
  }

  /** As written, `draw_line` plots nothing at all exactly when its loop
      range runs backwards: a shallow line with x1 > x2 or a steep one with
      y1 > y2, although both ends may be on the screen; the major axis's
      step of -1 it computes is never used. */
  lemma LineEmptyExactly(x1: int, y1: int, x2: int, y2: int)
    ensures LinePoints(x1, y1, x2, y2) == [] <==>
      if Dist(y1, y2) <= Dist(x1, x2) then x1 > x2 else y1 > y2
    ensures LinePoints(5, 0, 0, 0) == [] && LinePoints(0, 5, 0, 0) == []
  {
    assert LinePoints(5, 0, 0, 0) == Walk(5, 0, -5, Count(5, 0), 5, 0, -1, 1);
    assert LinePoints(0, 5, 0, 0) == Swap(Walk(5, 0, -5, Count(5, 0), 5, 0, -1, 1));
  }

  /** The line `draw_line` is evidently meant to draw: the same walk, run
      for one point per column (or row) in either direction. */
  function LinePointsFixed(x1: int, y1: int, x2: int, y2: int): (pts: seq<Point>)
    ensures |pts| == 1 + if Dist(y1, y2) <= Dist(x1, x2) then Dist(x1, x2) else Dist(y1, y2)
    ensures pts[0] == (x1, y1)
  {
    var dx := Dist(x1, x2);
    var dy := Dist(y1, y2);
    if dy <= dx then Walk(x1, y1, 2 * dy - dx, dx + 1, dx, dy, Dir(x1, x2), Dir(y1, y2))
    else Swap(Walk(y1, x1, 2 * dx - dy, dy + 1, dy, dx, Dir(y1, y2), Dir(x1, x2)))
  }

  /** A point list joins (x1, y1) to (x2, y2): it starts at one and ends
      at the other, every point lies inside the box they span, and each
      point is a neighbour of the one before. */
  predicate Joins(pts: seq<Point>, x1: int, y1: int, x2: int, y2: int) {
    |pts| > 0 && pts[0] == (x1, y1) && pts[|pts| - 1] == (x2, y2) &&
    (forall i :: 0 <= i < |pts| ==> Between(pts[i].0, x1, x2) && Between(pts[i].1, y1, y2)) &&
    (forall i :: 0 <= i < |pts| - 1 ==> -1 <= pts[i + 1].0 - pts[i].0 <= 1 && -1 <= pts[i + 1].1 - pts[i].1 <= 1)
  }

  /** The far end of a walk's major axis: dMajor steps in direction
      sMajor from a. */
  function MajorEnd(a: int, dMajor: int, sMajor: int): int {
    if sMajor == 1 then a + dMajor else a - dMajor
  }

  /** A full walk every point of which lies in the box from (a, b) to its
      far end (c, d). */
  lemma WalkInBox(w: seq<Point>, a: int, b: int, c: int, d: int, dMajor: int, dMinor: int, sMajor: int, sMinor: int)
    requires 0 <= dMinor <= dMajor && (sMajor == 1 || sMajor == -1) && (sMinor == 1 || sMinor == -1)
    requires w == Walk(a, b, 2 * dMinor - dMajor, dMajor + 1, dMajor, dMinor, sMajor, sMinor)
    requires c == MajorEnd(a, dMajor, sMajor) && d == b + sMinor * dMinor
    ensures forall i :: 0 <= i < |w| ==> Between(w[i].0, a, c) && Between(w[i].1, b, d)
    ensures w[|w| - 1] == (c, d)
  {
    WalkSteps(a, b, 2 * dMinor - dMajor, dMajor + 1, dMajor, dMinor, sMajor, sMinor);
    IdentityAtStart(dMajor, dMinor);
    WalkBetween(a, b, 2 * dMinor - dMajor, dMajor + 1, dMajor, dMinor, sMajor, sMinor, dMinor);
  }

  /** Along a full walk each point is a neighbour of the one before. */
  lemma WalkNeighbours(w: seq<Point>, a: int, b: int, dMajor: int, dMinor: int, sMajor: int, sMinor: int)
    requires 0 <= dMinor <= dMajor && (sMajor == 1 || sMajor == -1) && (sMinor == 1 || sMinor == -1)
    requires w == Walk(a, b, 2 * dMinor - dMajor, dMajor + 1, dMajor, dMinor, sMajor, sMinor)
    ensures forall i :: 0 <= i < |w| - 1 ==> -1 <= w[i + 1].0 - w[i].0 <= 1 && -1 <= w[i + 1].1 - w[i].1 <= 1
  {
    WalkSteps(a, b, 2 * dMinor - dMajor, dMajor + 1, dMajor, dMinor, sMajor, sMinor);
  }

  /** A full walk joins (a, b) to its far end (c, d) in the walk's own
      (major, minor) coordinates. */
  lemma WalkJoins(w: seq<Point>, a: int, b: int, c: int, d: int, dMajor: int, dMinor: int, sMajor: int, sMinor: int)
    requires 0 <= dMinor <= dMajor && (sMajor == 1 || sMajor == -1) && (sMinor == 1 || sMinor == -1)
    requires w == Walk(a, b, 2 * dMinor - dMajor, dMajor + 1, dMajor, dMinor, sMajor, sMinor)
    requires c == MajorEnd(a, dMajor, sMajor) && d == b + sMinor * dMinor
    ensures Joins(w, a, b, c, d)
  {
    WalkInBox(w, a, b, c, d, dMajor, dMinor, sMajor, sMinor);
    WalkNeighbours(w, a, b, dMajor, dMinor, sMajor, sMinor);
  }

  /** Exchanging the coordinates of a joining list joins the exchanged
      ends. */
  lemma SwapJoins(w: seq<Point>, a: int, b: int, c: int, d: int)
    requires Joins(w, a, b, c, d)
    ensures Joins(Swap(w), b, a, d, c)
  {
    var s := Swap(w);
    forall i | 0 <= i < |s| - 1
      ensures -1 <= s[i + 1].0 - s[i].0 <= 1 && -1 <= s[i + 1].1 - s[i].1 <= 1
    {
      assert s[i + 1] == (w[i + 1].1, w[i + 1].0) && s[i] == (w[i].1, w[i].0);
    }
  }

  lemma LineFixedShallow(x1: int, y1: int, x2: int, y2: int)
    requires Dist(y1, y2) <= Dist(x1, x2)
    ensures Joins(LinePointsFixed(x1, y1, x2, y2), x1, y1, x2, y2)
  {
    var dx: int := Dist(x1, x2);
    var dy: int := Dist(y1, y2);
    var sx, sy := Dir(x1, x2), Dir(y1, y2);
    assert MajorEnd(x1, dx, sx) == x2 && y1 + sy * dy == y2;
    var w := Walk(x1, y1, 2 * dy - dx, dx + 1, dx, dy, sx, sy);
    assert LinePointsFixed(x1, y1, x2, y2) == w;
    WalkJoins(w, x1, y1, x2, y2, dx, dy, sx, sy);
  }

  lemma LineFixedSteep(x1: int, y1: int, x2: int, y2: int)
    requires Dist(x1, x2) < Dist(y1, y2)
    ensures Joins(LinePointsFixed(x1, y1, x2, y2), x1, y1, x2, y2)
  {
    var dx: int := Dist(x1, x2);
    var dy: int := Dist(y1, y2);
    var sx, sy := Dir(x1, x2), Dir(y1, y2);
    assert MajorEnd(y1, dy, sy) == y2 && x1 + sx * dx == x2;
    var w := Walk(y1, x1, 2 * dx - dy, dy + 1, dy, dx, sy, sx);
    assert LinePointsFixed(x1, y1, x2, y2) == Swap(w);
    WalkJoins(w, y1, x1, y2, x2, dy, dx, sy, sx);
    SwapJoins(w, y1, x1, y2, x2);
  }

  /** The corrected line joins its two ends whichever way it runs, with
      one point per step of the longer axis. */
  lemma LineFixedShape(x1: int, y1: int, x2: int, y2: int)
    ensures |LinePointsFixed(x1, y1, x2, y2)| == (if Dist(y1, y2) <= Dist(x1, x2) then Dist(x1, x2) else Dist(y1, y2)) + 1
    ensures Joins(LinePointsFixed(x1, y1, x2, y2), x1, y1, x2, y2)
  {
    if Dist(y1, y2) <= Dist(x1, x2) {
      LineFixedShallow(x1, y1, x2, y2);
    } else {
      LineFixedSteep(x1, y1, x2, y2);
    }
  }

  /** The corrected line agrees with `draw_line` wherever the loop range of
      the source runs forwards. */
  lemma LineFixedAgrees(x1: int, y1: int, x2: int, y2: int)
    requires if Dist(y1, y2) <= Dist(x1, x2) then x1 <= x2 else y1 <= y2
    ensures LinePointsFixed(x1, y1, x2, y2) == LinePoints(x1, y1, x2, y2)
  {
  }

  /** A corrected line between two on-screen points stays on the screen. */
  lemma LineFixedOnScreen(x1: int, y1: int, x2: int, y2: int)
    requires OnScreen((x1, y1)) && OnScreen((x2, y2))
    ensures AllOnScreen(LinePointsFixed(x1, y1, x2, y2))
  {
    LineFixedShape(x1, y1, x2, y2);
  }

  /** Painting a list that starts with p: p first, then the rest. */
  lemma PaintCons(g: Grid, p: Point, q: seq<Point>, v: Cell)
    ensures PaintPoints(g, [p] + q, v) == PaintPoints(PaintOne(g, p, v), q, v)
  {
    PaintConcat(g, [p], q, v);
    assert PaintPoints(g, [p], v) == PaintOne(PaintPoints(g, [], v), p, v);
  }

  /** The next state of a `draw_line` loop: the major coordinate steps, the
      minor one and the error term as `Walk` says. */
  function NextMinor(b: int, e: int, sMinor: int): int {
    if e >= 0 then b + sMinor else b
  }

  function NextError(e: int, dMajor: int, dMinor: int): int {
    (if e >= 0 then e - 2 * dMajor else e) + 2 * dMinor
  }

  /** One loop step of the shallow branch: the point written is the first
      of the walk still to go, it is on the screen, and painting the rest
      from the grid that holds it gives the same picture. */
  lemma WalkStep(h: Grid, a: int, b: int, e: int, n: nat, dMajor: int, dMinor: int, sMajor: int, sMinor: int, v: Cell)
    requires n > 0 && AllOnScreen(Walk(a, b, e, n, dMajor, dMinor, sMajor, sMinor))
    ensures OnScreen((a, b))
    ensures AllOnScreen(Walk(a + sMajor, NextMinor(b, e, sMinor), NextError(e, dMajor, dMinor), n - 1, dMajor, dMinor, sMajor, sMinor))
    ensures PaintPoints(h, Walk(a, b, e, n, dMajor, dMinor, sMajor, sMinor), v) ==
      PaintPoints(PaintOne(h, (a, b), v), Walk(a + sMajor, NextMinor(b, e, sMinor), NextError(e, dMajor, dMinor), n - 1, dMajor, dMinor, sMajor, sMinor), v)
  {
    var w := Walk(a, b, e, n, dMajor, dMinor, sMajor, sMinor);
    var t := Walk(a + sMajor, NextMinor(b, e, sMinor), NextError(e, dMajor, dMinor), n - 1, dMajor, dMinor, sMajor, sMinor);
    assert w == [(a, b)] + t;
    assert OnScreen(w[0]);
    forall i | 0 <= i < |t|
      ensures OnScreen(t[i])
    {
      assert t[i] == w[i + 1];
    }
    PaintCons(h, (a, b), t, v);
  }

  /** The same step for the steep branch, whose walk runs over (row,
      column) pairs. */
  lemma SwappedWalkStep(h: Grid, a: int, b: int, e: int, n: nat, dMajor: int, dMinor: int, sMajor: int, sMinor: int, v: Cell)
    requires n > 0 && AllOnScreen(Swap(Walk(a, b, e, n, dMajor, dMinor, sMajor, sMinor)))
    ensures OnScreen((b, a))
    ensures AllOnScreen(Swap(Walk(a + sMajor, NextMinor(b, e, sMinor), NextError(e, dMajor, dMinor), n - 1, dMajor, dMinor, sMajor, sMinor)))
    ensures PaintPoints(h, Swap(Walk(a, b, e, n, dMajor, dMinor, sMajor, sMinor)), v) ==
      PaintPoints(PaintOne(h, (b, a), v), Swap(Walk(a + sMajor, NextMinor(b, e, sMinor), NextError(e, dMajor, dMinor), n - 1, dMajor, dMinor, sMajor, sMinor)), v)
  {
    var w := Swap(Walk(a, b, e, n, dMajor, dMinor, sMajor, sMinor));
    var t := Swap(Walk(a + sMajor, NextMinor(b, e, sMinor), NextError(e, dMajor, dMinor), n - 1, dMajor, dMinor, sMajor, sMinor));
    assert w == [(b, a)] + t;
    assert OnScreen(w[0]);
    forall i | 0 <= i < |t|
      ensures OnScreen(t[i])
    {
      assert t[i] == w[i + 1];
    }
    PaintCons(h, (b, a), t, v);
  }

  /** One unchecked write of `draw_line`. */
  method PaintNext(vga: VgaTextMode, x: int, y: int, b: byte, color: VgaColor)
    requires vga.Valid() && OnScreen((x, y))
    modifies vga.chars
    ensures vga.Cells() == PaintOne(old(vga.Cells()), (x, y), Cell(b, color))
  {
    vga.Write(b, color, x as nat, y as nat);
  }

  /** The coordinates and radii `draw_line` and `draw_circle` are given:
      small enough that their `usize as isize` casts keep the value and
      the `isize` arithmetic on them (doubled distances, error terms,
      centre plus radius) stays within 64 bits. */
  predicate FitsIsize(v: nat) {
    v <= I64_MAX / 8
  }

  /** `draw_line`. The source writes each point unchecked, so every point
      of the line must be on the screen (`LineOnScreen`: it is when both
      ends are). Each loop runs once per value of its range, `x1..=x2` or
      `y1..=y2`. */
  method DrawLine(vga: VgaTextMode, x1: nat, y1: nat, x2: nat, y2: nat, b: byte, color: VgaColor)
    requires vga.Valid() && AllOnScreen(LinePoints(x1, y1, x2, y2))
    requires FitsIsize(x1) && FitsIsize(y1) && FitsIsize(x2) && FitsIsize(y2)
    modifies vga.chars
    ensures vga.Cells() == PaintPoints(old(vga.Cells()), LinePoints(x1, y1, x2, y2), Cell(b, color))
  {
    var dx: int := Dist(x1, x2);
    var dy: int := Dist(y1, y2);
    var ifCondX := Dir(x1, x2);
    var ifCondY := Dir(y1, y2);
    if dy <= dx {
      DrawShallow(vga, x1, y1, Count(x1, x2), dx, dy, ifCondX, ifCondY, b, color);
    } else {
      DrawSteep(vga, x1, y1, Count(y1, y2), dx, dy, ifCondX, ifCondY, b, color);
    }
  }

  /** `draw_line` with each loop run once per step of the longer axis plus
      one, in either direction: it paints `LinePointsFixed`, which joins the
      two ends (`LineFixedShape`). */
  method DrawLineFixed(vga: VgaTextMode, x1: nat, y1: nat, x2: nat, y2: nat, b: byte, color: VgaColor)
    requires vga.Valid() && OnScreen((x1, y1)) && OnScreen((x2, y2))
    modifies vga.chars
    ensures vga.Cells() == PaintPoints(old(vga.Cells()), LinePointsFixed(x1, y1, x2, y2), Cell(b, color))
  {
    LineFixedOnScreen(x1, y1, x2, y2);
    var dx: int := Dist(x1, x2);
    var dy: int := Dist(y1, y2);
    var ifCondX := Dir(x1, x2);
    var ifCondY := Dir(y1, y2);
    if dy <= dx {
      DrawShallow(vga, x1, y1, dx + 1, dx, dy, ifCondX, ifCondY, b, color);
    } else {
      DrawSteep(vga, x1, y1, dy + 1, dx, dy, ifCondX, ifCondY, b, color);
    }
  }

  /** The `dy <= dx` loop of `draw_line`: n points, one per column. */
  method DrawShallow(vga: VgaTextMode, x1: int, y1: int, n: nat, dx: int, dy: int, ifCondX: int, ifCondY: int, b: byte, color: VgaColor)
    requires vga.Valid() && AllOnScreen(Walk(x1, y1, 2 * dy - dx, n, dx, dy, ifCondX, ifCondY))
    modifies vga.chars
    ensures vga.Cells() == PaintPoints(old(vga.Cells()), Walk(x1, y1, 2 * dy - dx, n, dx, dy, ifCondX, ifCondY), Cell(b, color))
  {
    ghost var target := PaintPoints(vga.Cells(), Walk(x1, y1, 2 * dy - dx, n, dx, dy, ifCondX, ifCondY), Cell(b, color));
    var x := x1;
    var y := y1;
    var mutY := 2 * dy - dx;
    ghost var rest := Walk(x1, y1, 2 * dy - dx, n, dx, dy, ifCondX, ifCondY);
    for i := 0 to n
      invariant rest == Walk(x, y, mutY, n - i, dx, dy, ifCondX, ifCondY)
      invariant AllOnScreen(rest)
      invariant PaintPoints(vga.Cells(), rest, Cell(b, color)) == target
    {
      WalkStep(vga.Cells(), x, y, mutY, n - i, dx, dy, ifCondX, ifCondY, Cell(b, color));
      ghost var y0, mutY0 := y, mutY;
      PaintNext(vga, x, y, b, color);
      if mutY >= 0 {
        y := y + ifCondY;
        mutY := mutY - 2 * dx;
      }
      mutY := mutY + 2 * dy;
      x := x + ifCondX;
      assert y == NextMinor(y0, mutY0, ifCondY) && mutY == NextError(mutY0, dx, dy);
      rest := Walk(x, y, mutY, n - i - 1, dx, dy, ifCondX, ifCondY);
    }
  }

  /** The `dy > dx` loop of `draw_line`: n points, one per row, the walk
      running over (row, column) pairs. */
  method DrawSteep(vga: VgaTextMode, x1: int, y1: int, n: nat, dx: int, dy: int, ifCondX: int, ifCondY: int, b: byte, color: VgaColor)
    requires vga.Valid() && AllOnScreen(Swap(Walk(y1, x1, 2 * dx - dy, n, dy, dx, ifCondY, ifCondX)))
    modifies vga.chars
    ensures vga.Cells() == PaintPoints(old(vga.Cells()), Swap(Walk(y1, x1, 2 * dx - dy, n, dy, dx, ifCondY, ifCondX)), Cell(b, color))
  {
    ghost var target := PaintPoints(vga.Cells(), Swap(Walk(y1, x1, 2 * dx - dy, n, dy, dx, ifCondY, ifCondX)), Cell(b, color));
    var x := x1;
    var y := y1;
    var mutX := 2 * dx - dy;
    ghost var rest := Swap(Walk(y1, x1, 2 * dx - dy, n, dy, dx, ifCondY, ifCondX));
    for i := 0 to n
      invariant rest == Swap(Walk(y, x, mutX, n - i, dy, dx, ifCondY, ifCondX))
      invariant AllOnScreen(rest)
      invariant PaintPoints(vga.Cells(), rest, Cell(b, color)) == target
    {
      SwappedWalkStep(vga.Cells(), y, x, mutX, n - i, dy, dx, ifCondY, ifCondX, Cell(b, color));
      ghost var x0, mutX0 := x, mutX;
      PaintNext(vga, x, y, b, color);
      if mutX >= 0 {
        x := x + ifCondX;
        mutX := mutX - 2 * dy;
      }
      mutX := mutX + 2 * dx;
      y := y + ifCondY;
      assert x == NextMinor(x0, mutX0, ifCondX) && mutX == NextError(mutX0, dy, dx);
      rest := Swap(Walk(y, x, mutX, n - i - 1, dy, dx, ifCondY, ifCondX));
    }
  }

  /* ---------------------------------------------------------------- */
  /* draw_circle                                                       */
  /* ---------------------------------------------------------------- */

  /** Four mirror images of the offset (a, b), in the order `draw_circle`
      plots them. */
  function Mirrors(a: int, b: int): seq<Point> {
    [(a, -b), (-a, b), (a, b), (-a, -b)]
  }

  /** The offsets one step of `draw_circle` plots for (x, y): the four
      mirrors, then, unless x == y, the four mirrors of the swapped
      offset. */
  function StepOffsets(x: int, y: int): seq<Point> {
    Mirrors(x, y) + if x != y then Mirrors(y, x) else []
  }

  /** The points at the given offsets from the centre. */
  function Plot(cx: int, cy: int, offs: seq<Point>): (pts: seq<Point>)
    ensures |pts| == |offs|
    ensures forall i :: 0 <= i < |offs| ==> pts[i] == (cx + offs[i].0, cy + offs[i].1)
  {
    seq(|offs|, i requires 0 <= i < |offs| => (cx + offs[i].0, cy + offs[i].1))
  }

  /** The midpoint step from (x, y) with decision value p: y advances; x
      stays when p <= 0 and steps in otherwise, and p is updated to match. */
  function NextX(x: int, y: int, p: int): (x': int)
    ensures x - 1 <= x' <= x
  {
    if p <= 0 then x else x - 1
  }

  function NextP(x: int, y: int, p: int): int {
    if p <= 0 then p + 2 * (y + 1) + 1 else p + 2 * (y + 1) - 2 * (x - 1) + 1
  }

  /** The points the `while x > y` loop of `draw_circle` plots. */
  function CircleLoop(cx: int, cy: int, x: int, y: int, p: int): seq<Point>
    decreases if x > y then x - y else 0
  {
    if x <= y then []
    else
      var x' := NextX(x, y, p);
      var y' := y + 1;
      if x' < y' then []
      else Plot(cx, cy, StepOffsets(x', y')) + CircleLoop(cx, cy, x', y', NextP(x, y, p))
  }

  /** Each iteration of the loop plots four points, or eight when x != y,
      so the loop plots whole groups of four mirror images. */
  lemma {:induction false} CircleLoopQuads(cx: int, cy: int, x: int, y: int, p: int)
    ensures |CircleLoop(cx, cy, x, y, p)| % 4 == 0
    ensures x <= y ==> CircleLoop(cx, cy, x, y, p) == []
    decreases if x > y then x - y else 0
  {
    if x > y {
      var x' := NextX(x, y, p);
      if x' >= y + 1 {
        CircleLoopQuads(cx, cy, x', y + 1, NextP(x, y, p));
      }
    }
  }

  /** Everything `draw_circle` plots: the eight points of (r, 0) and its
      swap, then the loop. */
  function CirclePoints(cx: int, cy: int, r: int): (pts: seq<Point>)
    ensures |pts| >= 8
    ensures pts[0] == (cx + r, cy) && pts[1] == (cx - r, cy)
    ensures pts[4] == (cx, cy - r) && pts[5] == (cx, cy + r)
  {
    Plot(cx, cy, Mirrors(r, 0) + Mirrors(0, r)) + CircleLoop(cx, cy, r, 0, 1 - r)
  }

  /** The offsets of one step are closed under negating either coordinate
      and under exchanging them. */
  lemma StepOffsetsSymmetric(x: int, y: int)
    ensures var s := StepOffsets(x, y);
      forall i :: 0 <= i < |s| ==> (-s[i].0, s[i].1) in s && (s[i].0, -s[i].1) in s && (s[i].1, s[i].0) in s
  {
    var s := StepOffsets(x, y);
    if x != y {
      assert s == [(x, -y), (-x, y), (x, y), (-x, -y), (y, -x), (-y, x), (y, x), (-y, -x)];
    } else {
      assert s == [(x, -x), (-x, x), (x, x), (-x, -x)];
    }
  }

  /** The points at offsets within r on both axes lie in the square of
      side 2r around the centre. */
  predicate InBox(pts: seq<Point>, cx: int, cy: int, r: int) {
    forall i :: 0 <= i < |pts| ==> cx - r <= pts[i].0 <= cx + r && cy - r <= pts[i].1 <= cy + r
  }

  lemma StepInBox(cx: int, cy: int, x: int, y: int, r: int)
    requires 0 <= y <= x <= r
    ensures InBox(Plot(cx, cy, StepOffsets(x, y)), cx, cy, r)
    ensures InBox(Plot(cx, cy, Mirrors(x, y) + Mirrors(y, x)), cx, cy, r)
  {
  }

  lemma InBoxConcat(p: seq<Point>, q: seq<Point>, cx: int, cy: int, r: int)
    requires InBox(p, cx, cy, r) && InBox(q, cx, cy, r)
    ensures InBox(p + q, cx, cy, r)
  {
    forall i | 0 <= i < |p + q|
      ensures cx - r <= (p + q)[i].0 <= cx + r && cy - r <= (p + q)[i].1 <= cy + r
    {
      if i >= |p| {
        assert (p + q)[i] == q[i - |p|];
      }
    }
  }

  /** The decision value `draw_circle` updates is the midpoint test:
      p = x^2 - x + (y + 1)^2 - r^2, the circle's equation at
      (x - 1/2, y + 1) scaled and shifted to stay in integers. */
  predicate Midpoint(x: int, y: int, p: int, r: int) {
    p == x * x - x + (y + 1) * (y + 1) - r * r
  }

  /** `draw_circle` starts from (r, 0) with p = 1 - r, which satisfies the
      identity. */
  lemma MidpointAtStart(r: int)
    ensures Midpoint(r, 0, 1 - r, r)
  {
  }

  /** Each step of the loop keeps the midpoint identity. With
      `MidpointAtStart` these are the base and the step of the induction
      showing that the p of every iteration is the midpoint test of its
      (x, y), which is why `NextX` steps in when p > 0; they document the
      update, and no other proof relies on them. */
  lemma MidpointStep(x: int, y: int, p: int, r: int)
    requires Midpoint(x, y, p, r)
    ensures Midpoint(NextX(x, y, p), y + 1, NextP(x, y, p), r)
  {
    var y' := y + 1;
    assert (y' + 1) * (y' + 1) == (y + 1) * (y + 1) + 2 * y' + 1;
    if p > 0 {
      var x' := x - 1;
      assert x' * x' - x' == x * x - x - 2 * x';
    }
  }

  /** Each step keeps 0 <= y <= x <= r (x never grows and the loop stops
      before y passes x), so every point the loop plots lies in the square
      of side 2r around the centre. */
  lemma {:induction false} CircleLoopInBox(cx: int, cy: int, x: int, y: int, p: int, r: int)
    requires 0 <= y <= x <= r
    ensures InBox(CircleLoop(cx, cy, x, y, p), cx, cy, r)
    decreases x - y
  {
    if x > y {
      var x' := NextX(x, y, p);
      var y' := y + 1;
      if x' >= y' {
        CircleLoopInBox(cx, cy, x', y', NextP(x, y, p), r);
        StepInBox(cx, cy, x', y', r);
        InBoxConcat(Plot(cx, cy, StepOffsets(x', y')), CircleLoop(cx, cy, x', y', NextP(x, y, p)), cx, cy, r);
      }
    }
  }

  /** Every point `draw_circle` plots lies within r of the centre on both
      axes. */
  lemma CircleInBox(cx: int, cy: int, r: nat)
    ensures InBox(CirclePoints(cx, cy, r), cx, cy, r)
  {
    CircleLoopInBox(cx, cy, r, 0, 1 - r, r);
    StepInBox(cx, cy, r, 0, r);
    InBoxConcat(Plot(cx, cy, Mirrors(r, 0) + Mirrors(0, r)), CircleLoop(cx, cy, r, 0, 1 - r), cx, cy, r);
  }

  /** The `safe_write` closure: write only when the point is on the
      screen. */
  method SafeWrite(vga: VgaTextMode, x: int, y: int, b: byte, color: VgaColor)
    requires vga.Valid()
    modifies vga.chars
    ensures vga.Cells() == PaintOne(old(vga.Cells()), (x, y), Cell(b, color))
  {
    if x >= 0 && y >= 0 && x < BUFFER_WIDTH && y < BUFFER_HEIGHT {
      vga.Write(b, color, x as nat, y as nat);
    }
  }

  /** Four `safe_write`s of the mirrors of (a, c) around the centre. */
  method WriteMirrors(vga: VgaTextMode, cx: int, cy: int, a: int, c: int, b: byte, color: VgaColor)
    requires vga.Valid()
    modifies vga.chars
    ensures vga.Cells() == PaintPoints(old(vga.Cells()), Plot(cx, cy, Mirrors(a, c)), Cell(b, color))
  {
    ghost var g := vga.Cells();
    ghost var v := Cell(b, color);
    ghost var done: seq<Point> := [];
    SafeWrite(vga, cx + a, cy - c, b, color);
    PaintSnoc(g, done, (cx + a, cy - c), v);
    done := done + [(cx + a, cy - c)];
    SafeWrite(vga, cx - a, cy + c, b, color);
    PaintSnoc(g, done, (cx - a, cy + c), v);
    done := done + [(cx - a, cy + c)];
    SafeWrite(vga, cx + a, cy + c, b, color);
    PaintSnoc(g, done, (cx + a, cy + c), v);
    done := done + [(cx + a, cy + c)];
    SafeWrite(vga, cx - a, cy - c, b, color);
    PaintSnoc(g, done, (cx - a, cy - c), v);
    done := done + [(cx - a, cy - c)];
    assert done == Plot(cx, cy, Mirrors(a, c));
  }

  /** Plotting two offset lists is plotting their concatenation. */
  lemma PlotConcat(cx: int, cy: int, a: seq<Point>, c: seq<Point>)
    ensures Plot(cx, cy, a + c) == Plot(cx, cy, a) + Plot(cx, cy, c)
  {
  }

  /** The `safe_write`s of one step: the four mirrors of (x, y) and, unless
      x == y, the four of (y, x). */
  method WriteStep(vga: VgaTextMode, cx: int, cy: int, x: int, y: int, b: byte, color: VgaColor)
    requires vga.Valid()
    modifies vga.chars
    ensures vga.Cells() == PaintPoints(old(vga.Cells()), Plot(cx, cy, StepOffsets(x, y)), Cell(b, color))
  {
    WriteMirrors(vga, cx, cy, x, y, b, color);
    if x != y {
      WriteMirrors(vga, cx, cy, y, x, b, color);
      PlotConcat(cx, cy, Mirrors(x, y), Mirrors(y, x));
      PaintConcat(old(vga.Cells()), Plot(cx, cy, Mirrors(x, y)), Plot(cx, cy, Mirrors(y, x)), Cell(b, color));
    } else {
      assert StepOffsets(x, y) == Mirrors(x, y);
    }
  }

  /** One pass of the loop: the step's points, then the loop from the next
      state. */
  lemma CircleStep(h: Grid, cx: int, cy: int, x: int, y: int, p: int, v: Cell)
    requires x > y && NextX(x, y, p) >= y + 1
    ensures PaintPoints(h, CircleLoop(cx, cy, x, y, p), v) ==
      PaintPoints(PaintPoints(h, Plot(cx, cy, StepOffsets(NextX(x, y, p), y + 1)), v), CircleLoop(cx, cy, NextX(x, y, p), y + 1, NextP(x, y, p)), v)
  {
    PaintConcat(h, Plot(cx, cy, StepOffsets(NextX(x, y, p), y + 1)), CircleLoop(cx, cy, NextX(x, y, p), y + 1, NextP(x, y, p)), v);
  }

  /** Painting the whole circle: the eight points of (r, 0) and (0, r),
      then the loop. */
  lemma CircleStart(g: Grid, cx: int, cy: int, r: int, v: Cell)
    ensures PaintPoints(g, CirclePoints(cx, cy, r), v) ==
      PaintPoints(PaintPoints(PaintPoints(g, Plot(cx, cy, Mirrors(r, 0)), v), Plot(cx, cy, Mirrors(0, r)), v), CircleLoop(cx, cy, r, 0, 1 - r), v)
  {
    var first := Plot(cx, cy, Mirrors(r, 0) + Mirrors(0, r));
    PaintConcat(g, first, CircleLoop(cx, cy, r, 0, 1 - r), v);
    PlotConcat(cx, cy, Mirrors(r, 0), Mirrors(0, r));
    PaintConcat(g, Plot(cx, cy, Mirrors(r, 0)), Plot(cx, cy, Mirrors(0, r)), v);
  }

  /** `draw_circle`: every write goes through `safe_write`, so any centre
      and radius whose `isize` casts keep their value are accepted, and
      only on-screen points are drawn. */
  method DrawCircle(vga: VgaTextMode, cx: nat, cy: nat, r: nat, b: byte, color: VgaColor)
    requires vga.Valid() && FitsIsize(cx) && FitsIsize(cy) && FitsIsize(r)
    modifies vga.chars
    ensures vga.Cells() == PaintPoints(old(vga.Cells()), CirclePoints(cx, cy, r), Cell(b, color))
  {
    CircleStart(vga.Cells(), cx, cy, r, Cell(b, color));
    ghost var target := PaintPoints(vga.Cells(), CirclePoints(cx, cy, r), Cell(b, color));
    var x: int := r;
    var y: int := 0;
    var p: int := 1 - r;
    WriteMirrors(vga, cx, cy, x, y, b, color);
    WriteMirrors(vga, cx, cy, y, x, b, color);
    while x > y
      invariant PaintPoints(vga.Cells(), CircleLoop(cx, cy, x, y, p), Cell(b, color)) == target
      decreases x - y
    {
      ghost var x0, y0, p0 := x, y, p;
      y := y + 1;
      if p <= 0 {
        p := p + 2 * y + 1;
      } else {
        x := x - 1;
        p := p + 2 * y - 2 * x + 1;
      }
      assert x == NextX(x0, y0, p0) && p == NextP(x0, y0, p0);
      if x < y {
        assert CircleLoop(cx, cy, x0, y0, p0) == [];
        break;
      }
      CircleStep(vga.Cells(), cx, cy, x0, y0, p0, Cell(b, color));
      WriteStep(vga, cx, cy, x, y, b, color);
    }
  }

  /* ---------------------------------------------------------------- */
  /* draw_point                                                        */
  /* ---------------------------------------------------------------- */

  /** `draw_point`: a block at (x, y) when that is on the screen, nothing
      otherwise. */
  method DrawPoint(vga: VgaTextMode, x: nat, y: nat, color: VgaColor)
    requires vga.Valid()
    modifies vga.chars
    ensures OnScreen((x, y)) ==> vga.Cells() == Put(old(vga.Cells()), y, x, Cell(BLOCK, color))
    ensures !OnScreen((x, y)) ==> vga.Cells() == old(vga.Cells())
  {
    if x >= BUFFER_WIDTH || y >= BUFFER_HEIGHT {
      return;
    }
    vga.Write(BLOCK, color, x, y);
  }
}
