/** What the drawing operations do to a colour buffer, as functions on sequences.
    A buffer of a `w x h` screen is a row-major sequence of `w * h` packed colours; the
    drawing coordinates have y growing upward, so screen point (x, y) lives in stored
    row `h - y`. */
module Raster {
  import opened Numeric
  import opened Colour
  import opened Geometry

  type Cells = seq<bv32>

  // ---------------------------------------------------------------------------
  // Index arithmetic

  lemma MulAtLeast(a: int, w: nat)
    requires a >= 1
    ensures a * w >= w
  {
    assert a * w == (a - 1) * w + w;
    assert (a - 1) * w >= 0;
  }

  /** Euclidean division recovers row and column from a row-major index. */
  lemma {:induction false} RowColumn(w: nat, q: nat, r: nat)
    requires r < w
    ensures (q * w + r) / w == q && (q * w + r) % w == r
  {
    var i := q * w + r;
    var q', r' := i / w, i % w;
    assert i == q' * w + r';
    if q' < q {
      assert (q - q') * w == q * w - q' * w;
      MulAtLeast(q - q', w);
    } else if q' > q {
      assert (q' - q) * w == q' * w - q * w;
      MulAtLeast(q' - q, w);
    }
  }

  /** A cell of a `w x h` buffer lies in stored row `i / w < h`, so its y is in [1, h]. */
  lemma CellRow(w: nat, h: nat, i: nat)
    requires i < w * h
    ensures 0 < w && i / w < h
  {
  }

  /** Column (x) of cell `i`. */
  function CellX(w: nat, h: nat, i: nat): (x: nat)
    requires i < w * h
    ensures x < w
  {
    CellRow(w, h, i);
    i % w
  }

  /** Upward y of cell `i`: stored row `i / w` is screen row `h - i / w`. */
  function CellY(w: nat, h: nat, i: nat): (y: nat)
    requires i < w * h
    ensures 1 <= y <= h
  {
    CellRow(w, h, i);
    h - i / w
  }

  /** Cell `i` holds screen point (x, y) exactly when `i` is `(h - y) * w + x`. */
  lemma {:induction false} CellCoordinates(w: nat, h: nat, i: nat, x: nat, y: nat)
    requires i < w * h && x < w && y <= h
    ensures CellX(w, h, i) == x && CellY(w, h, i) == y <==> i == (h - y) * w + x
  {
    CellRow(w, h, i);
    if i == (h - y) * w + x {
      RowColumn(w, h - y, x);
    }
  }

  /** Screen point (x, y) with y >= 1 has a cell, and that cell's coordinates are (x, y). */
  lemma {:induction false} FlippedIndex(w: nat, h: nat, x: nat, y: nat)
    requires x < w && 1 <= y <= h
    ensures var i := (h - y) * w + x;
      i < w * h && CellX(w, h, i) == x && CellY(w, h, i) == y
  {
    var i := (h - y) * w + x;
    assert (h - y) * w + w <= h * w by {
      assert (h - y + 1) * w <= h * w;
    }
    CellCoordinates(w, h, i, x, y);
  }

  // ---------------------------------------------------------------------------
  // Clear and single-pixel write

  /** A buffer of `n` cells, all black. */
  function Blank(n: nat): (r: Cells)
    ensures |r| == n
  {
    seq(n, _ => 0)
  }

  /** The linear index the pixel write computes: stored row `h - y`, column `x`. */
  function PixelIndex(w: nat, h: nat, pos: UVec2): nat
    requires pos.y <= h
  {
    (h - pos.y) * w + pos.x
  }

  /** A single pixel write: stores the packed colour at the flipped index if that index
      is below `w * h`, and does nothing otherwise. */
  function PutPixel(cells: Cells, w: nat, h: nat, pos: UVec2, c: Rgb): (r: Cells)
    requires |cells| == w * h && pos.y <= h
    ensures |r| == |cells|
  {
    var i := PixelIndex(w, h, pos);
    if i < w * h then cells[i := Pack(c)] else cells
  }

  /** A point on the screen is written to the cell whose column is x and whose stored row
      is `h - y`; the colour is recovered from it; no other cell changes. */
  lemma {:induction false} PixelWritesFlippedCell(cells: Cells, w: nat, h: nat, x: nat, y: nat, c: Rgb)
    requires |cells| == w * h && x < w && 1 <= y <= h
    ensures var i, r := (h - y) * w + x, PutPixel(cells, w, h, UVec2(x, y), c);
      && i < |cells| && CellX(w, h, i) == x && CellY(w, h, i) == y
      && Unpack(r[i]) == c
      && forall j :: 0 <= j < |cells| && j != i ==> r[j] == cells[j]
  {
    var i := (h - y) * w + x;
    FlippedIndex(w, h, x, y);
  }

  /** Row y = 0 maps to stored row h, one past the buffer: such a write never lands. */
  lemma PixelBottomRowDropped(cells: Cells, w: nat, h: nat, x: nat, c: Rgb)
    requires |cells| == w * h
    ensures PutPixel(cells, w, h, UVec2(x, 0), c) == cells
  {
  }

  /** The bound check is on the linear index only: an x past the right edge wraps into
      the next stored row, which is the row one step lower in y. */
  lemma {:induction false} PixelWrapsToNextRow(cells: Cells, w: nat, h: nat, x: nat, y: nat, c: Rgb)
    requires |cells| == w * h && w <= x && 1 <= y <= h
    ensures PutPixel(cells, w, h, UVec2(x, y), c) == PutPixel(cells, w, h, UVec2(x - w, y - 1), c)
  {
    assert (h - (y - 1)) * w == (h - y) * w + w;
  }

  // ---------------------------------------------------------------------------
  // Sequences of pixel writes

  /** Every point's y is at most h, as each pixel write demands. */
  predicate AllFit(h: nat, ps: seq<UVec2>)
  {
    forall k :: 0 <= k < |ps| ==> ps[k].y <= h
  }

  /** The pixel writes of `ps`, in order. */
  function PutAll(cells: Cells, w: nat, h: nat, ps: seq<UVec2>, c: Rgb): (r: Cells)
    requires |cells| == w * h && AllFit(h, ps)
    ensures |r| == |cells|
    decreases |ps|
  {
    if ps == [] then cells
    else PutPixel(PutAll(cells, w, h, ps[..|ps| - 1], c), w, h, ps[|ps| - 1], c)
  }

  /** Some point of `ps` lands on cell `j`. */
  predicate Hits(w: nat, h: nat, ps: seq<UVec2>, j: nat)
    requires AllFit(h, ps)
  {
    exists k :: 0 <= k < |ps| && PixelIndex(w, h, ps[k]) == j
  }

  /** After a run of writes in one colour, a cell holds that colour if some point lands
      on it and its old value otherwise; the order of the writes does not matter. */
  lemma {:induction false} PutAllCells(cells: Cells, w: nat, h: nat, ps: seq<UVec2>, c: Rgb, j: nat)
    requires |cells| == w * h && AllFit(h, ps) && j < |cells|
    ensures PutAll(cells, w, h, ps, c)[j] == if Hits(w, h, ps, j) then Pack(c) else cells[j]
    decreases |ps|
  {
    if ps != [] {
      var init := ps[..|ps| - 1];
      PutAllCells(cells, w, h, init, c, j);
      if Hits(w, h, ps, j) && PixelIndex(w, h, ps[|ps| - 1]) != j {
        var k :| 0 <= k < |ps| && PixelIndex(w, h, ps[k]) == j;
        assert init[k] == ps[k];
      }
      if Hits(w, h, init, j) {
        var k :| 0 <= k < |init| && PixelIndex(w, h, init[k]) == j;
        assert ps[k] == init[k];
      }
    }
  }

  // ---------------------------------------------------------------------------
  // Line drawing

  /** A segment after normalisation: transposed when steep, ordered left to right. */
  datatype Segment = Segment(a: Vec2, b: Vec2, steep: bool)

  predicate IsSteep(p1: Vec2, p2: Vec2)
  {
    Abs(p1.x - p2.x) < Abs(p1.y - p2.y)
  }

  /** Transposes a steep segment so x is the major axis, then orders it left to right. */
  function Normalise(p1: Vec2, p2: Vec2): (s: Segment)
    ensures s.steep == IsSteep(p1, p2)
    ensures s.a.x <= s.b.x
    ensures Abs(s.b.y - s.a.y) <= s.b.x - s.a.x
    ensures var q1, q2 := (if s.steep then Transpose(p1) else p1), (if s.steep then Transpose(p2) else p2);
      (s.a == q1 && s.b == q2) || (s.a == q2 && s.b == q1)
  {
    var steep := IsSteep(p1, p2);
    var q1 := if steep then Transpose(p1) else p1;
    var q2 := if steep then Transpose(p2) else p2;
    if q1.x > q2.x then Segment(q2, q1, steep) else Segment(q1, q2, steep)
  }

  /** The first and one-past-last major-axis steps: `round(a.x) as usize .. round(b.x) as usize`. */
  function FirstStep(s: Segment): nat { RoundToUsize(s.a.x) }
  function EndStep(s: Segment): nat { RoundToUsize(s.b.x) }

  /** The point written at major-axis step x: interpolated, transposed back, truncated. */
  function StepPoint(s: Segment, x: nat): UVec2
    requires s.a.x < s.b.x
  {
    var t := (x as real - s.a.x) / (s.b.x - s.a.x);
    var pos := Lerp(s.a, s.b, t);
    AsUVec2(if s.steep then Transpose(pos) else pos)
  }

  lemma StepPointAt(a: Vec2, b: Vec2, steep: bool, x: nat)
    requires a.x < b.x
    ensures var pos := Lerp(a, b, (x as real - a.x) / (b.x - a.x));
      StepPoint(Segment(a, b, steep), x) == AsUVec2(if steep then Transpose(pos) else pos)
  {
  }

  /** The major coordinate of the point for `(s, x)`. */
  function Major(s: Segment, p: UVec2): nat
  {
    if s.steep then p.y else p.x
  }

  lemma MulDivCancel(n: real, d: real)
    requires d != 0.0
    ensures d * (n / d) == n
  {
  }

  /** The written point's major coordinate is the step itself, exactly. */
  lemma StepPointMajor(s: Segment, x: nat)
    requires s.a.x < s.b.x
    ensures Major(s, StepPoint(s, x)) == x
  {
    MulDivCancel(x as real - s.a.x, s.b.x - s.a.x);
    TruncOfNat(x);
  }

  /** The points `line` writes, in order: one per step of `[round(a.x), round(b.x))`. */
  function LinePixels(p1: Vec2, p2: Vec2): seq<UVec2>
  {
    var s := Normalise(p1, p2);
    var lo, hi := FirstStep(s), EndStep(s);
    if lo < hi then seq(hi - lo, k requires 0 <= k < hi - lo => StepPoint(s, lo + k)) else []
  }

  lemma LinePixelsAt(p1: Vec2, p2: Vec2, k: nat)
    requires k < |LinePixels(p1, p2)|
    ensures var s := Normalise(p1, p2);
      s.a.x < s.b.x && LinePixels(p1, p2)[k] == StepPoint(s, FirstStep(s) + k)
  {
  }

  /** Exactly one write per integer step of the major axis, and the k-th write sits on step
      `round(a.x) + k`; when the rounded ends coincide nothing is written. */
  lemma {:induction false} LineOneWritePerStep(p1: Vec2, p2: Vec2)
    ensures var s, ps := Normalise(p1, p2), LinePixels(p1, p2);
      && FirstStep(s) <= EndStep(s)
      && |ps| == EndStep(s) - FirstStep(s)
      && (FirstStep(s) < EndStep(s) ==> s.a.x < s.b.x)
      && forall k :: 0 <= k < |ps| ==> Major(s, ps[k]) == FirstStep(s) + k
  {
    var s, ps := Normalise(p1, p2), LinePixels(p1, p2);
    RoundMonotone(s.a.x, s.b.x);
    forall k | 0 <= k < |ps|
      ensures Major(s, ps[k]) == FirstStep(s) + k
    {
      StepPointMajor(s, FirstStep(s) + k);
    }
  }

  /** Swapping the endpoints gives the same writes in the same order. */
  lemma {:induction false} LineSymmetric(p1: Vec2, p2: Vec2)
    ensures LinePixels(p1, p2) == LinePixels(p2, p1)
  {
    var s, t := Normalise(p1, p2), Normalise(p2, p1);
    assert IsSteep(p1, p2) == IsSteep(p2, p1);
    if s.a.x == s.b.x {
      assert FirstStep(s) == EndStep(s) && FirstStep(t) == EndStep(t);
    } else {
      assert s == t;
    }
  }

  /** A horizontal line at integer height y writes (x, y) for every x in
      `[round(x0), round(x1))` with x0 <= x1. */
  lemma {:induction false} HorizontalLine(x0: real, x1: real, y: nat)
    requires x0 <= x1
    ensures var lo, hi := RoundToUsize(x0), RoundToUsize(x1);
      LinePixels(Vec2(x0, y as real), Vec2(x1, y as real)) == seq(hi - lo, k requires 0 <= k < hi - lo => UVec2(lo + k, y))
  {
    var p1, p2 := Vec2(x0, y as real), Vec2(x1, y as real);
    var s := Normalise(p1, p2);
    var lo, hi := RoundToUsize(x0), RoundToUsize(x1);
    RoundMonotone(x0, x1);
    assert !s.steep && s.a == p1 && s.b == p2;
    var ps := LinePixels(p1, p2);
    forall k | 0 <= k < hi - lo
      ensures ps[k] == UVec2(lo + k, y)
    {
      LinePixelsAt(p1, p2, k);
      StepPointMajor(s, lo + k);
      var pos := Lerp(s.a, s.b, ((lo + k) as real - s.a.x) / (s.b.x - s.a.x));
      assert pos.y == y as real;
      TruncOfNat(y);
      assert ps[k] == AsUVec2(pos);
    }
  }

  /** Every point a line writes satisfies the pixel write's y <= h demand. */
  predicate LineFits(h: nat, p1: Vec2, p2: Vec2)
  {
    AllFit(h, LinePixels(p1, p2))
  }

  /** Along a segment with |slope| <= 1, a step at most half a pixel beyond either end
      moves the minor coordinate at most half a pixel past the higher end. */
  lemma MinorBound(ya: real, yb: real, dx: real, u: real)
    requires dx > 0.0 && Abs(yb - ya) <= dx && -0.5 <= u < dx + 0.5
    ensures ya + (yb - ya) * (u / dx) <= Max(ya, yb) + 0.5
  {
    var d, t := yb - ya, u / dx;
    MulDivCancel(u, dx);
    assert (d * t) * dx == d * u;
    if d >= 0.0 {
      calc {
        (d * t) * dx;
      ==
        d * u;
      <= { ScaleMonotone(d, u, dx + 0.5); }
        d * (dx + 0.5);
      <=
        (d + 0.5) * dx;
      }
      CancelPositive(d * t, d + 0.5, dx);
    } else {
      calc {
        (d * t) * dx;
      ==
        d * u;
      <= { ScaleMonotone(-d, -0.5, u); }
        d * -0.5;
      <=
        0.5 * dx;
      }
      CancelPositive(d * t, 0.5, dx);
    }
  }

  /** Multiplying both sides of an inequality by a non-negative factor. */
  lemma ScaleMonotone(c: real, l: real, r: real)
    requires c >= 0.0 && l <= r
    ensures c * l <= c * r
  {
  }

  /** Dividing both sides of an inequality by a positive factor. */
  lemma CancelPositive(l: real, r: real, c: real)
    requires c > 0.0 && l * c <= r * c
    ensures l <= r
  {
  }

  /** A steep step writes its major coordinate as y, and that stays below round(b.x). */
  lemma SteepStepFits(s: Segment, h: nat, x: nat)
    requires s.steep && s.a.x < s.b.x <= h as real && FirstStep(s) <= x < EndStep(s)
    ensures StepPoint(s, x).y <= h
  {
    StepPointMajor(s, x);
    RoundMonotone(s.b.x, h as real);
    assert Round(h as real) == h;
  }

  /** A shallow step's y is interpolated; it overshoots the higher end by at most half a
      pixel, which truncation absorbs. */
  lemma ShallowStepFits(s: Segment, h: nat, x: nat)
    requires !s.steep && s.a.x < s.b.x && Abs(s.b.y - s.a.y) <= s.b.x - s.a.x
    requires s.a.y <= h as real && s.b.y <= h as real && FirstStep(s) <= x < EndStep(s)
    ensures StepPoint(s, x).y <= h
  {
    var dx, u := s.b.x - s.a.x, x as real - s.a.x;
    assert s.b.x > 0.0;
    assert -0.5 <= u < dx + 0.5;
    MinorBound(s.a.y, s.b.y, dx, u);
    var pos := Lerp(s.a, s.b, u / dx);
    assert pos.y <= h as real + 0.5;
    assert StepPoint(s, x) == AsUVec2(pos);
  }

  /** A line whose endpoints are not above the top row (y <= h) only writes points with
      y <= h, so it never triggers the pixel write's underflow. */
  lemma LineFitsWhenEndpointsFit(h: nat, p1: Vec2, p2: Vec2)
    requires p1.y <= h as real && p2.y <= h as real
    ensures LineFits(h, p1, p2)
  {
    var s, ps := Normalise(p1, p2), LinePixels(p1, p2);
    forall k | 0 <= k < |ps|
      ensures ps[k].y <= h
    {
      LinePixelsAt(p1, p2, k);
      LineOneWritePerStep(p1, p2);
      if s.steep {
        SteepStepFits(s, h, FirstStep(s) + k);
      } else {
        ShallowStepFits(s, h, FirstStep(s) + k);
      }
    }
  }


  // ---------------------------------------------------------------------------
  // Triangle fill

  /** The clamped float bounding box, one axis: lower end `max(0, min(size, v0, v1, v2))`. */
  function BoxLow(size: real, v0: real, v1: real, v2: real): real
  {
    Max(0.0, Min(Min(Min(size, v0), v1), v2))
  }

  /** Upper end of one axis: `min(size, max(0, v0, v1, v2))`. */
  function BoxHigh(size: real, v0: real, v1: real, v2: real): real
  {
    Min(size, Max(Max(Max(0.0, v0), v1), v2))
  }

  function BoxMin(size: UVec2, pts: seq<Vec2>): Vec2
    requires |pts| == 3
  {
    Vec2(BoxLow(size.x as real, pts[0].x, pts[1].x, pts[2].x), BoxLow(size.y as real, pts[0].y, pts[1].y, pts[2].y))
  }

  function BoxMax(size: UVec2, pts: seq<Vec2>): Vec2
    requires |pts| == 3
  {
    Vec2(BoxHigh(size.x as real, pts[0].x, pts[1].x, pts[2].x), BoxHigh(size.y as real, pts[0].y, pts[1].y, pts[2].y))
  }

  /** The half-open integer scan ranges `lo.x..hi.x` and `lo.y..hi.y`. */
  datatype ScanRange = ScanRange(lo: UVec2, hi: UVec2)

  /** The truncated box the triangle scans: it lies inside the screen, so every scanned
      pixel has `x < w` and `y < h`; and it holds every in-screen vertex whose coordinates
      are not at the top end. */
  function ScanBox(size: UVec2, pts: seq<Vec2>): (b: ScanRange)
    requires |pts| == 3
    ensures b.lo.x <= b.hi.x <= size.x && b.lo.y <= b.hi.y <= size.y
    ensures forall k :: 0 <= k < 3 && 0.0 <= pts[k].x <= size.x as real ==>
      b.lo.x <= AsUVec2(pts[k]).x <= b.hi.x
    ensures forall k :: 0 <= k < 3 && 0.0 <= pts[k].y <= size.y as real ==>
      b.lo.y <= AsUVec2(pts[k]).y <= b.hi.y
  {
    var mn, mx := BoxMin(size, pts), BoxMax(size, pts);
    TruncOfNat(size.x);
    TruncOfNat(size.y);
    TruncMonotone(mn.x, mx.x);
    TruncMonotone(mn.y, mx.y);
    TruncMonotone(mx.x, size.x as real);
    TruncMonotone(mx.y, size.y as real);
    forall k | 0 <= k < 3
      ensures 0.0 <= pts[k].x <= size.x as real ==> TruncToUnsigned(mn.x) <= AsUVec2(pts[k]).x <= TruncToUnsigned(mx.x)
      ensures 0.0 <= pts[k].y <= size.y as real ==> TruncToUnsigned(mn.y) <= AsUVec2(pts[k]).y <= TruncToUnsigned(mx.y)
    {
      if 0.0 <= pts[k].x <= size.x as real {
        TruncMonotone(mn.x, pts[k].x);
        TruncMonotone(pts[k].x, mx.x);
      }
      if 0.0 <= pts[k].y <= size.y as real {
        TruncMonotone(mn.y, pts[k].y);
        TruncMonotone(pts[k].y, mx.y);
      }
    }
    ScanRange(AsUVec2(mn), AsUVec2(mx))
  }

  lemma TruncMonotone(a: real, b: real)
    requires a <= b
    ensures TruncToUnsigned(a) <= TruncToUnsigned(b)
  {
  }

  /** The vertices truncated to unsigned, as the triangle passes them to Barycentric. */
  function Truncated(pts: seq<Vec2>): (t: seq<UVec2>)
    requires |pts| == 3
    ensures |t| == 3
  {
    [AsUVec2(pts[0]), AsUVec2(pts[1]), AsUVec2(pts[2])]
  }

  /** The triangle writes screen point (x, y): it is in the scan box and inside. */
  predicate Covers(size: UVec2, pts: seq<Vec2>, x: nat, y: nat)
    requires |pts| == 3
  {
    var b := ScanBox(size, pts);
    b.lo.x <= x < b.hi.x && b.lo.y <= y < b.hi.y && Inside(Truncated(pts), UVec2(x, y))
  }

  /** The buffer after filling triangle `pts`: each cell whose screen point is covered holds
      the colour, every other cell keeps its value. */
  function FillTriangle(cells: Cells, w: nat, h: nat, pts: seq<Vec2>, c: Rgb): (r: Cells)
    requires |cells| == w * h && |pts| == 3
    ensures |r| == |cells|
  {
    seq(|cells|, i requires 0 <= i < |cells| =>
      if Covers(UVec2(w, h), pts, CellX(w, h, i), CellY(w, h, i)) then Pack(c) else cells[i])
  }

  /** The scan in progress: covered points in columns before x, and in column x below y,
      are filled; every other cell keeps its value. */
  function FillScanned(cells: Cells, w: nat, h: nat, pts: seq<Vec2>, c: Rgb, x: nat, y: nat): (r: Cells)
    requires |cells| == w * h && |pts| == 3
    ensures |r| == |cells|
  {
    seq(|cells|, i requires 0 <= i < |cells| =>
      var cx, cy := CellX(w, h, i), CellY(w, h, i);
      if Covers(UVec2(w, h), pts, cx, cy) && (cx < x || (cx == x && cy < y)) then Pack(c) else cells[i])
  }

  /** Nothing is filled before the scan starts. */
  lemma {:induction false} FillScanStart(cells: Cells, w: nat, h: nat, pts: seq<Vec2>, c: Rgb)
    requires |cells| == w * h && |pts| == 3
    ensures var b := ScanBox(UVec2(w, h), pts);
      FillScanned(cells, w, h, pts, c, b.lo.x, b.lo.y) == cells
  {
  }

  /** Finishing column x is starting column x + 1. */
  lemma {:induction false} FillScanNextColumn(cells: Cells, w: nat, h: nat, pts: seq<Vec2>, c: Rgb, x: nat)
    requires |cells| == w * h && |pts| == 3
    ensures var b := ScanBox(UVec2(w, h), pts);
      FillScanned(cells, w, h, pts, c, x, b.hi.y) == FillScanned(cells, w, h, pts, c, x + 1, b.lo.y)
  {
  }

  /** After the last column the scan has filled exactly the triangle. */
  lemma {:induction false} FillScanEnd(cells: Cells, w: nat, h: nat, pts: seq<Vec2>, c: Rgb)
    requires |cells| == w * h && |pts| == 3
    ensures var b := ScanBox(UVec2(w, h), pts);
      FillScanned(cells, w, h, pts, c, b.hi.x, b.lo.y) == FillTriangle(cells, w, h, pts, c)
  {
  }

  /** One scan step at box point (x, y): the pixel write if the point is inside, else nothing. */
  lemma {:induction false} FillScanStep(cells: Cells, w: nat, h: nat, pts: seq<Vec2>, c: Rgb, x: nat, y: nat)
    requires |cells| == w * h && |pts| == 3
    requires var b := ScanBox(UVec2(w, h), pts); b.lo.x <= x < b.hi.x && b.lo.y <= y < b.hi.y
    ensures y <= h
    ensures var before := FillScanned(cells, w, h, pts, c, x, y);
      FillScanned(cells, w, h, pts, c, x, y + 1) ==
        if Inside(Truncated(pts), UVec2(x, y)) then PutPixel(before, w, h, UVec2(x, y), c) else before
  {
    var before := FillScanned(cells, w, h, pts, c, x, y);
    var after := FillScanned(cells, w, h, pts, c, x, y + 1);
    var written := PutPixel(before, w, h, UVec2(x, y), c);
    var inside := Inside(Truncated(pts), UVec2(x, y));
    forall i | 0 <= i < |cells|
      ensures after[i] == (if inside then written else before)[i]
    {
      FillScanStepAt(cells, w, h, pts, c, x, y, i);
    }
  }

  lemma {:induction false} FillScanStepAt(cells: Cells, w: nat, h: nat, pts: seq<Vec2>, c: Rgb, x: nat, y: nat, i: nat)
    requires |cells| == w * h && |pts| == 3 && i < |cells|
    requires var b := ScanBox(UVec2(w, h), pts); b.lo.x <= x < b.hi.x && b.lo.y <= y < b.hi.y
    ensures y <= h
    ensures var before := FillScanned(cells, w, h, pts, c, x, y);
      FillScanned(cells, w, h, pts, c, x, y + 1)[i] ==
        (if Inside(Truncated(pts), UVec2(x, y)) then PutPixel(before, w, h, UVec2(x, y), c) else before)[i]
  {
    var before := FillScanned(cells, w, h, pts, c, x, y);
    var after := FillScanned(cells, w, h, pts, c, x, y + 1);
    var written := PutPixel(before, w, h, UVec2(x, y), c);
    var idx := PixelIndex(w, h, UVec2(x, y));
    var inside := Inside(Truncated(pts), UVec2(x, y));
    CellCoordinates(w, h, i, x, y);
    var cx, cy := CellX(w, h, i), CellY(w, h, i);
    if cx == x && cy == y {
      assert Covers(UVec2(w, h), pts, x, y) == inside;
      assert after[i] == if inside then Pack(c) else cells[i];
      assert before[i] == cells[i];
      assert written[i] == Pack(c);
    } else {
      assert after[i] == before[i];
      assert i != idx;
      assert written[i] == before[i];
    }
  }

  /** Filling sets the flipped cell of each covered screen point (the stored row of y = 0 is
      out of range, so that row is never filled) and leaves every other cell unchanged. */
  lemma {:induction false} FillCell(cells: Cells, w: nat, h: nat, pts: seq<Vec2>, c: Rgb, x: nat, y: nat)
    requires |cells| == w * h && |pts| == 3 && x < w && 1 <= y <= h
    ensures var i := (h - y) * w + x;
      && i < |cells|
      && FillTriangle(cells, w, h, pts, c)[i] == if Covers(UVec2(w, h), pts, x, y) then Pack(c) else cells[i]
  {
    var i := (h - y) * w + x;
    FlippedIndex(w, h, x, y);
  }

  /** A triangle whose truncated vertices are collinear (zero denominator) fills nothing. */
  lemma {:induction false} FillDegenerate(cells: Cells, w: nat, h: nat, pts: seq<Vec2>, c: Rgb)
    requires |cells| == w * h && |pts| == 3
    requires var t := Truncated(pts); Denominator(AsVec2(t[0]), AsVec2(t[1]), AsVec2(t[2])) == 0.0
    ensures FillTriangle(cells, w, h, pts, c) == cells
  {
    var r := FillTriangle(cells, w, h, pts, c);
    forall i | 0 <= i < |cells|
      ensures r[i] == cells[i]
    {
      assert !Inside(Truncated(pts), UVec2(CellX(w, h, i), CellY(w, h, i)));
    }
  }

  /** Filling the same triangle twice leaves the buffer as filling it once. */
  lemma {:induction false} FillIdempotent(cells: Cells, w: nat, h: nat, pts: seq<Vec2>, c: Rgb)
    requires |cells| == w * h && |pts| == 3
    ensures var once := FillTriangle(cells, w, h, pts, c);
      FillTriangle(once, w, h, pts, c) == once
  {
  }

  lemma BoxEndsSymmetric(size: real, v0: real, v1: real, v2: real)
    ensures BoxLow(size, v0, v1, v2) == BoxLow(size, v1, v2, v0) == BoxLow(size, v1, v0, v2)
    ensures BoxHigh(size, v0, v1, v2) == BoxHigh(size, v1, v2, v0) == BoxHigh(size, v1, v0, v2)
  {
  }

  lemma ScanBoxIndependentOfOrder(size: UVec2, pts: seq<Vec2>)
    requires |pts| == 3
    ensures ScanBox(size, [pts[1], pts[2], pts[0]]) == ScanBox(size, pts)
    ensures ScanBox(size, [pts[1], pts[0], pts[2]]) == ScanBox(size, pts)
  {
    BoxEndsSymmetric(size.x as real, pts[0].x, pts[1].x, pts[2].x);
    BoxEndsSymmetric(size.y as real, pts[0].y, pts[1].y, pts[2].y);
    assert BoxMin(size, [pts[1], pts[2], pts[0]]) == BoxMin(size, pts);
    assert BoxMax(size, [pts[1], pts[2], pts[0]]) == BoxMax(size, pts);
    assert BoxMin(size, [pts[1], pts[0], pts[2]]) == BoxMin(size, pts);
    assert BoxMax(size, [pts[1], pts[0], pts[2]]) == BoxMax(size, pts);
  }

  /** The scan box and the truncated vertices are symmetric in the vertices, and so,
      by InsideIndependentOfOrder, is the covered set. */
  lemma {:induction false} CoversIndependentOfOrder(size: UVec2, pts: seq<Vec2>, x: nat, y: nat)
    requires |pts| == 3
    ensures Covers(size, pts, x, y) == Covers(size, [pts[1], pts[2], pts[0]], x, y)
    ensures Covers(size, pts, x, y) == Covers(size, [pts[1], pts[0], pts[2]], x, y)
  {
    var rot, swp := [pts[1], pts[2], pts[0]], [pts[1], pts[0], pts[2]];
    ScanBoxIndependentOfOrder(size, pts);
    var t := Truncated(pts);
    assert Truncated(rot) == [t[1], t[2], t[0]];
    assert Truncated(swp) == [t[1], t[0], t[2]];
    InsideIndependentOfOrder(t, UVec2(x, y));
  }

  /** In exact arithmetic the filled cells do not depend on the order or winding of the
      vertices: rotating them or swapping two gives the same buffer. */
  lemma {:induction false} FillIndependentOfOrder(cells: Cells, w: nat, h: nat, pts: seq<Vec2>, c: Rgb)
    requires |cells| == w * h && |pts| == 3
    ensures FillTriangle(cells, w, h, pts, c) == FillTriangle(cells, w, h, [pts[1], pts[2], pts[0]], c)
    ensures FillTriangle(cells, w, h, pts, c) == FillTriangle(cells, w, h, [pts[1], pts[0], pts[2]], c)
  {
    forall i | 0 <= i < |cells|
      ensures FillTriangle(cells, w, h, pts, c)[i] == FillTriangle(cells, w, h, [pts[1], pts[2], pts[0]], c)[i]
      ensures FillTriangle(cells, w, h, pts, c)[i] == FillTriangle(cells, w, h, [pts[1], pts[0], pts[2]], c)[i]
    {
      CoversIndependentOfOrder(UVec2(w, h), pts, CellX(w, h, i), CellY(w, h, i));
    }
  }
}
