# Software rasteriser `Drawer`, modelled in Dafny

This project models the `Drawer` in `src/main.rs`, a small CPU rasteriser. A `Drawer` owns
one frame's pixel buffer: `width * height` cells of `u32`, stored row-major and with y
flipped. It can:

- clear the buffer;
- write a single pixel, with the colour packed as `blue | green << 8 | red << 16`;
- draw a line one pixel per step of its major axis;
- fill a triangle by scanning its clamped bounding box with a barycentric inside test.

The scene loop projects every mesh face from [-1, 1] to the screen and fills it in white.

The project has six modules:

- `Numeric` covers Rust's float-to-integer conversions. `round()` rounds half away from zero. `as usize` and `as_uvec2` truncate toward zero and saturate negatives to 0.
- `Colour` covers the colour type and its packed cell value.
- `Geometry` covers:
  - float and unsigned points, and the casts between them;
  - the barycentric weights, plus an independent edge-function inside test;
  - the projection.
- `Raster` holds pure functions on the cell sequence. Each one says what the buffer holds after an operation.
- `Scene` covers the per-frame loop over faces.
- `Drawing` holds the class `Drawer`:
  - an `array<bv32>` buffer and the screen size;
  - methods with the source's loops;
  - each method proved against the pure function that states its result: a `Raster` function for `Clear`, `Pixel`, `Line` and `Triangle`, `Raster.BoxMin`/`BoxMax` for `BoundingBox`, and `Scene.FillFaces` for `DrawMesh`.

Float values (`f32`, `glam::Vec2`, `Vec3`) are exact `real`s.

Four points about the code itself:

- The triangle scan is half-open (`lo..hi`).
- The inside test is `barycentric`'s closed-form formula, with an exact zero test on the denominator.
- A line writes each interpolated point truncated to unsigned.
- The file has no depth buffer.

## Model

| member | source | states |
|---|---|---|
| Colour.Pack | src/main.rs:145 | The stored value is `b + 256*g + 65536*r`. It is below 2^24. Shifting and masking recovers every channel. |
| Colour.PackInjective | src/main.rs:145 | Two colours pack to the same cell value exactly when they are equal. |
| Numeric.Round | src/main.rs:171 | `round()` lands within 1/2 of its argument. Ties go away from zero. |
| Numeric.RoundToUsize | src/main.rs:171 | `round() as usize` is 0 for non-positive input. Otherwise it is within 1/2 of the input. |
| Numeric.TruncToUnsigned | src/main.rs:216-223 | `as u32` is 0 for any input below 1. For non-negative input it is the integer part: at most the input and within 1 of it. |
| Geometry.AsUVec2 | src/main.rs:216-223 | `as_uvec2` truncates each coordinate to the unsigned integer just below it. Values below 1 give 0. |
| Geometry.AsVec2 | src/main.rs:185-189 | `as_vec2` is exact: truncating its result gives back the unsigned point. |
| Drawing.Drawer.constructor | src/main.rs:112-117 | A drawer wraps a buffer of exactly `width * height` cells for a non-empty screen. |
| Drawing.Drawer.Clear | src/main.rs:127-131 | Afterwards every cell is 0, whatever the buffer held before. Clearing twice therefore equals clearing once. |
| Drawing.Drawer.Pixel | src/main.rs:133-147 | Requires `y <= height`, since `height - y` is a u32 subtraction. Stores the packed colour at `(height - y) * width + x` when that index is below `width * height`. Otherwise the buffer is unchanged. |
| Raster.PixelWritesFlippedCell | src/main.rs:139-146 | For `x < width` and `1 <= y <= height` the write lands in the cell whose column is x and whose flipped row is y. The colour unpacks back out of that cell. No other cell changes. |
| Raster.PixelBottomRowDropped | src/main.rs:140-143 | A write at row y = 0 maps to stored row `height`, one past the buffer, so it leaves the buffer unchanged: row 0 is never written. |
| Raster.PixelWrapsToNextRow | src/main.rs:143-144 | The bound check is on the linear index only. So `x >= width` writes the same cell as `(x - width, y - 1)`: the next stored row. |
| Raster.PutAllCells | src/main.rs:171-181 | After a run of writes in one colour, each cell holds that colour if some point lands on it and keeps its old value otherwise. |
| Raster.Normalise | src/main.rs:158-169 | After the steepness transpose and the left-to-right swap, `a.x <= b.x` and `abs(dy) <= dx`. The endpoints are the original points, transposed when steep. |
| Drawing.Drawer.Line | src/main.rs:149-182 | Requires that every written point has `y <= height`. The buffer ends as the pixel writes of `LinePixels` in order: one interpolated, transposed-back, truncated point per step of `[round(a.x), round(b.x))`. |
| Raster.LineOneWritePerStep | src/main.rs:171-180 | There is exactly one write per integer step of the major axis. The k-th write's major coordinate is `round(a.x) + k` exactly. When the rounded ends coincide nothing is written. Otherwise the division's denominator is non-zero. |
| Raster.LineSymmetric | src/main.rs:158-169 | Swapping the endpoints gives the same writes in the same order, as the calls at lines 71 and 73 do. |
| Raster.HorizontalLine | src/main.rs:171-181 | A horizontal line at integer height y writes exactly `(x, y)` for x in `[round(x0), round(x1))`. |
| Raster.LineFitsWhenEndpointsFit | src/main.rs:171-180 | If both endpoints have `y <= height`, every point the line writes does too. A shallow line overshoots by at most half a pixel, and truncation absorbs it. So such a line never reaches the pixel write's underflow. |
| Geometry.Barycentric | src/main.rs:184-198 | Gives weights exactly when the denominator is non-zero, and then they sum to 1. |
| Geometry.BarycentricIsEdgeRatio | src/main.rs:191-195 | Each weight equals the ratio of the point's edge function to the triangle's signed double area. |
| Geometry.BarycentricReconstructs | src/main.rs:184-198 | The weights recombine the three vertices into the point itself. |
| Geometry.BarycentricAtVertices | src/main.rs:191-194 | For a non-degenerate triangle the weights at `pts[0]`, `pts[1]` and `pts[2]` are (1,0,0), (0,1,0) and (0,0,1). |
| Geometry.InsideIffEdgeInside | src/main.rs:228-230 | "All weights >= 0" holds exactly when the triangle has non-zero area and the point is on the inner side of, or on, every edge. This is the reference test, and it holds for either winding. |
| Geometry.InsideIndependentOfOrder | src/main.rs:228-230 | Rotating the vertices or swapping two of them does not change the inside test. |
| Drawing.Drawer.BoundingBox | src/main.rs:206-213 | The accumulated box is `max(0, min(size, p0, p1, p2))` and `min(size, max(0, p0, p1, p2))` per axis. |
| Raster.ScanBox | src/main.rs:206-217 | The truncated scan box satisfies `lo <= hi <= size` on both axes. So every scanned pixel has `x < width` and `y < height`. Every vertex on the screen lies within it. |
| Drawing.Drawer.Triangle | src/main.rs:200-235 | Needs no bound on the points. The buffer ends as `FillTriangle`: every cell whose screen point is in the half-open box and inside the truncated triangle holds the colour. Every other cell keeps its value. |
| Raster.FillCell | src/main.rs:225-233 | The cell of screen point `(x, y)`, for `x < width` and `1 <= y <= height`, holds the colour exactly when the point is covered. Otherwise it keeps its old value. |
| Raster.FillScanStep | src/main.rs:226-232 | Each inner scan step is one pixel write when the point is inside, and nothing otherwise. The point's y is within the pixel write's bound. |
| Raster.FillDegenerate | src/main.rs:191-192 | A triangle whose truncated vertices are collinear (zero denominator) fills nothing. |
| Raster.FillIdempotent | src/main.rs:225-233 | Filling the same triangle twice leaves the buffer as filling it once. |
| Raster.FillIndependentOfOrder | src/main.rs:210-230 | Rotating the vertices or swapping two of them gives the same buffer. |
| Geometry.Project | src/main.rs:88-93 | `(v.xy + 1) * size / 2` sends -1 to 0 and 1 to the screen size on each axis. |
| Geometry.ProjectWithinScreen | src/main.rs:88-93 | Vertices in [-1, 1] land in `[0, width] x [0, height]`. |
| Geometry.ProjectInvertible | src/main.rs:88-93 | On a non-empty screen the projection is invertible: `v = 2 * s / size - 1` on each axis. |
| Drawing.Drawer.DrawMesh | src/main.rs:81-96 | Requires every face index to name a vertex. The buffer ends as the faces filled in order, each projected and filled in white. |
| Scene.FillFacesWhiteOrUntouched | src/main.rs:81-96 | After the scene pass each cell either keeps its value or is white. |
| Scene.FillFacesCoveredIsWhite | src/main.rs:81-96 | A cell covered by any face ends white, whatever the later faces do. |
| Scene.FillFacesUncoveredUnchanged | src/main.rs:81-96 | A cell that no face covers keeps its old value. Together with `FillFacesCoveredIsWhite`: a covered cell ends white, and an uncovered cell is left untouched. |

## Left out

- `f32` arithmetic: rounding error, NaN and infinities are not modelled, because all floats are exact reals. A zero barycentric denominator is `None`. In `f32` it gives infinite or NaN weights, which the `>= 0` test rejects for every pixel.
- The u32 width of coordinates and index products is not modelled:
  - the wrap-around of `pos.y * width + pos.x` for huge `x`;
  - the saturation of `as u32` / `as usize` at the type's maximum.
  The drawer assumes `width * height < 2^32`.
- Drawing.Drawer.Pixel, Drawing.Drawer.Line: the `y <= height` precondition stands for the u32 subtraction that panics in the source. It is a precondition, not a modelled panic.
- The window, the event loop, the softbuffer surface and its `resize`, and `finish` / `present` (src/main.rs:14-67, 119-121) are I/O and foreign library calls.
- The loop over the scene's meshes (src/main.rs:80) is not modelled as its own operation: a scene is `DrawMesh` called once per mesh, in order.
- Mesh loading and logging are left out, because they are an external parser and console output. `DrawMesh` takes the vertices and faces as parameters.
- The fixed demo calls at src/main.rs:71-78 are not modelled as a separate operation. They are instances of `Line` and `Triangle`, and `LineSymmetric` covers the pair at lines 71 and 73.
- The `screen_size()` getter (src/main.rs:123-125) is the `screenSize` field.
- Geometry.Barycentric: the weights are only stated to sum to 1 when the denominator is non-zero. With a zero denominator the source's sum is NaN.
