/** The rasteriser (`Drawer`): it owns one frame's colour buffer and writes packed
    colours into it cell by cell. Each method is proved against the Raster function that
    says what the buffer holds afterwards. */
module Drawing {
  import opened Numeric
  import opened Colour
  import opened Geometry
  import opened Raster
  import opened Scene

  /** Lower end of the bounding box after the first k points, before clamping at 0. */
  ghost function PrefixLow(size: real, v: seq<real>, k: nat): real
    requires k <= |v|
  {
    if k == 0 then size else Min(PrefixLow(size, v, k - 1), v[k - 1])
  }

  /** Upper end of the bounding box after the first k points, before clamping at size. */
  ghost function PrefixHigh(v: seq<real>, k: nat): real
    requires k <= |v|
  {
    if k == 0 then 0.0 else Max(PrefixHigh(v, k - 1), v[k - 1])
  }

  class Drawer {
    /** The frame's pixels, row-major, `screenSize.x * screenSize.y` cells. */
    const buffer: array<bv32>
    const screenSize: UVec2

    ghost predicate Valid()
    {
      && screenSize.x > 0 && screenSize.y > 0
      && buffer.Length == screenSize.x * screenSize.y
      && screenSize.x * screenSize.y < 0x1_0000_0000
    }

    /** Wraps a buffer already sized to a non-empty `width x height` screen. */
    constructor (buffer: array<bv32>, width: nat, height: nat)
      requires width > 0 && height > 0
      requires buffer.Length == width * height && width * height < 0x1_0000_0000
      ensures Valid() && this.buffer == buffer && screenSize == UVec2(width, height)
    {
      this.buffer := buffer;
      this.screenSize := UVec2(width, height);
    }

    /** Sets every cell to black. */
    method Clear()
      requires Valid()
      modifies buffer
      ensures buffer[..] == Blank(buffer.Length)
    {
      var n := screenSize.x * screenSize.y;
      var i := 0;
      while i < n
        invariant 0 <= i <= n
        invariant forall j :: 0 <= j < i ==> buffer[j] == 0
      {
        buffer[i] := 0;
        i := i + 1;
      }
      assert forall j :: 0 <= j < n ==> buffer[..][j] == Blank(n)[j];
    }

    /** Writes one pixel at the y-flipped position, if its linear index is in range.
        The u32 subtraction `height - y` demands `y <= height`. */
    method Pixel(pos: UVec2, color: Rgb)
      requires Valid() && pos.y <= screenSize.y
      modifies buffer
      ensures buffer[..] == PutPixel(old(buffer[..]), screenSize.x, screenSize.y, pos, color)
    {
      var stored := UVec2(pos.x, screenSize.y - pos.y);
      var index := stored.y * screenSize.x + stored.x;
      if index < screenSize.x * screenSize.y {
        buffer[index] := Pack(color);
      }
    }

    /** Draws the segment p1-p2: one pixel per integer step of the major axis. */
    method Line(p1: Vec2, p2: Vec2, color: Rgb)
      requires Valid() && LineFits(screenSize.y, p1, p2)
      modifies buffer
      ensures buffer[..] == PutAll(old(buffer[..]), screenSize.x, screenSize.y, LinePixels(p1, p2), color)
    {
      var a, b := p1, p2;
      var steep := Abs(a.x - b.x) < Abs(a.y - b.y);
      if steep {
        // the line is steep: transpose the image
        a, b := Transpose(a), Transpose(b);
      }
      if a.x > b.x {
        // make it left to right
        a, b := b, a;
      }
      assert Normalise(p1, p2) == Segment(a, b, steep);
      ghost var ps := LinePixels(p1, p2);
      LineOneWritePerStep(p1, p2);
      var lo, hi := RoundToUsize(a.x), RoundToUsize(b.x);
      var x := lo;
      while x < hi
        invariant lo <= x <= hi
        invariant buffer[..] == PutAll(old(buffer[..]), screenSize.x, screenSize.y, ps[..x - lo], color)
      {
        var t := (x as real - a.x) / (b.x - a.x);
        var pos := Lerp(a, b, t);
        StepPointAt(a, b, steep, x);
        if steep {
          pos := Transpose(pos);
        }
        LinePixelsAt(p1, p2, x - lo);
        assert ps[..x - lo + 1][..x - lo] == ps[..x - lo];
        Pixel(AsUVec2(pos), color);
        x := x + 1;
      }
      assert ps[..hi - lo] == ps;
    }

    /** The clamped float bounding box of the three points, accumulated point by point. */
    method BoundingBox(pts: seq<Vec2>) returns (bboxmin: Vec2, bboxmax: Vec2)
      requires |pts| == 3
      ensures bboxmin == BoxMin(screenSize, pts) && bboxmax == BoxMax(screenSize, pts)
    {
      var clamp := Vec2(screenSize.x as real, screenSize.y as real);
      ghost var xs, ys := [pts[0].x, pts[1].x, pts[2].x], [pts[0].y, pts[1].y, pts[2].y];
      bboxmin := clamp;
      bboxmax := Vec2(0.0, 0.0);
      for k := 0 to 3
        invariant bboxmin == Vec2(Max(0.0, PrefixLow(clamp.x, xs, k)), Max(0.0, PrefixLow(clamp.y, ys, k)))
        invariant bboxmax == Vec2(Min(clamp.x, PrefixHigh(xs, k)), Min(clamp.y, PrefixHigh(ys, k)))
      {
        var point := pts[k];
        bboxmin := Vec2(Max(0.0, Min(bboxmin.x, point.x)), Max(0.0, Min(bboxmin.y, point.y)));
        bboxmax := Vec2(Min(clamp.x, Max(bboxmax.x, point.x)), Min(clamp.y, Max(bboxmax.y, point.y)));
      }
      assert PrefixLow(clamp.x, xs, 1) == Min(clamp.x, xs[0]);
      assert PrefixLow(clamp.y, ys, 1) == Min(clamp.y, ys[0]);
      assert PrefixHigh(xs, 1) == Max(0.0, xs[0]) && PrefixHigh(ys, 1) == Max(0.0, ys[0]);
      assert PrefixLow(clamp.x, xs, 2) == Min(PrefixLow(clamp.x, xs, 1), xs[1]);
      assert PrefixLow(clamp.y, ys, 2) == Min(PrefixLow(clamp.y, ys, 1), ys[1]);
      assert PrefixHigh(xs, 2) == Max(PrefixHigh(xs, 1), xs[1]) && PrefixHigh(ys, 2) == Max(PrefixHigh(ys, 1), ys[1]);
    }

    /** Fills the triangle: scans the half-open bounding box and writes every pixel whose
        three barycentric weights against the truncated vertices are all non-negative. */
    method Triangle(pts: seq<Vec2>, color: Rgb)
      requires Valid() && |pts| == 3
      modifies buffer
      ensures buffer[..] == FillTriangle(old(buffer[..]), screenSize.x, screenSize.y, pts, color)
    {
      var bboxmin, bboxmax := BoundingBox(pts);
      // into integer coords
      var lo, hi := AsUVec2(bboxmin), AsUVec2(bboxmax);
      var tpts := [AsUVec2(pts[0]), AsUVec2(pts[1]), AsUVec2(pts[2])];
      ghost var w, h, cells := screenSize.x, screenSize.y, buffer[..];
      assert ScanBox(screenSize, pts) == ScanRange(lo, hi);
      assert tpts == Truncated(pts);
      FillScanStart(cells, w, h, pts, color);
      var x := lo.x;
      while x < hi.x
        invariant lo.x <= x <= hi.x
        invariant buffer[..] == FillScanned(cells, w, h, pts, color, x, lo.y)
      {
        var y := lo.y;
        while y < hi.y
          invariant lo.y <= y <= hi.y
          invariant buffer[..] == FillScanned(cells, w, h, pts, color, x, y)
        {
          var p := UVec2(x, y);
          var bc := Barycentric(tpts, p);
          FillScanStep(cells, w, h, pts, color, x, y);
          if bc.Some? && bc.value.l1 >= 0.0 && bc.value.l2 >= 0.0 && bc.value.l3 >= 0.0 {
            Pixel(p, color);
          }
          y := y + 1;
        }
        FillScanNextColumn(cells, w, h, pts, color, x);
        x := x + 1;
      }
      FillScanEnd(cells, w, h, pts, color);
    }

    /** The scene loop of one frame: each face's vertices are projected from [-1, 1] to
        the screen and the face is filled in white. */
    method DrawMesh(vertices: seq<Vec3>, faces: seq<Face>)
      requires Valid() && FacesInRange(|vertices|, faces)
      modifies buffer
      ensures buffer[..] == FillFaces(old(buffer[..]), screenSize.x, screenSize.y, vertices, faces)
    {
      ghost var cells := buffer[..];
      for k := 0 to |faces|
        invariant buffer[..] == FillFaces(cells, screenSize.x, screenSize.y, vertices, faces[..k])
      {
        var face := faces[k];
        var screenCoords := [
          Project(vertices[face.i0], screenSize),
          Project(vertices[face.i1], screenSize),
          Project(vertices[face.i2], screenSize)
        ];
        assert faces[..k + 1][..k] == faces[..k];
        Triangle(screenCoords, White);
      }
      assert faces[..|faces|] == faces;
    }
  }
}
