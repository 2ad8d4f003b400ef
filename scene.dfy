/** The per-frame scene pass: every face of a mesh is projected to the screen and filled
    in plain white. */
module Scene {
  import opened Colour
  import opened Geometry
  import opened Raster

  /** A triangular face: three indices into the mesh's vertex list. */
  datatype Face = Face(i0: nat, i1: nat, i2: nat)

  /** Every index of every face names a vertex (indexing panics otherwise). */
  predicate FacesInRange(vertexCount: nat, faces: seq<Face>)
  {
    forall k :: 0 <= k < |faces| ==>
      faces[k].i0 < vertexCount && faces[k].i1 < vertexCount && faces[k].i2 < vertexCount
  }

  /** The face's three vertices in screen coordinates. */
  function ProjectFace(vertices: seq<Vec3>, f: Face, size: UVec2): (pts: seq<Vec2>)
    requires f.i0 < |vertices| && f.i1 < |vertices| && f.i2 < |vertices|
    ensures |pts| == 3
  {
    [Project(vertices[f.i0], size), Project(vertices[f.i1], size), Project(vertices[f.i2], size)]
  }

  /** The buffer after filling the faces in order, each in white. */
  function FillFaces(cells: Cells, w: nat, h: nat, vertices: seq<Vec3>, faces: seq<Face>): (r: Cells)
    requires |cells| == w * h && FacesInRange(|vertices|, faces)
    ensures |r| == |cells|
    decreases |faces|
  {
    if faces == [] then cells
    else
      var before := FillFaces(cells, w, h, vertices, faces[..|faces| - 1]);
      FillTriangle(before, w, h, ProjectFace(vertices, faces[|faces| - 1], UVec2(w, h)), White)
  }

  /** After the scene pass every cell is either untouched or white. */
  lemma {:induction false} FillFacesWhiteOrUntouched(cells: Cells, w: nat, h: nat, vertices: seq<Vec3>, faces: seq<Face>, i: nat)
    requires |cells| == w * h && FacesInRange(|vertices|, faces) && i < |cells|
    ensures var r := FillFaces(cells, w, h, vertices, faces);
      r[i] == cells[i] || Unpack(r[i]) == White
    decreases |faces|
  {
    if faces != [] {
      FillFacesWhiteOrUntouched(cells, w, h, vertices, faces[..|faces| - 1], i);
    }
  }

  /** A cell that one face covers ends up white, whatever the faces after it do. */
  lemma {:induction false} FillFacesCoveredIsWhite(cells: Cells, w: nat, h: nat, vertices: seq<Vec3>, faces: seq<Face>, k: nat, i: nat)
    requires |cells| == w * h && FacesInRange(|vertices|, faces) && i < |cells| && k < |faces|
    requires Covers(UVec2(w, h), ProjectFace(vertices, faces[k], UVec2(w, h)), CellX(w, h, i), CellY(w, h, i))
    ensures Unpack(FillFaces(cells, w, h, vertices, faces)[i]) == White
    decreases |faces|
  {
    var init := faces[..|faces| - 1];
    if k < |faces| - 1 {
      assert init[k] == faces[k];
      FillFacesCoveredIsWhite(cells, w, h, vertices, init, k, i);
    }
  }

  /** A cell that no face covers keeps its value through the whole scene pass. */
  lemma {:induction false} FillFacesUncoveredUnchanged(cells: Cells, w: nat, h: nat, vertices: seq<Vec3>, faces: seq<Face>, i: nat)
    requires |cells| == w * h && FacesInRange(|vertices|, faces) && i < |cells|
    requires forall k :: 0 <= k < |faces| ==>
      !Covers(UVec2(w, h), ProjectFace(vertices, faces[k], UVec2(w, h)), CellX(w, h, i), CellY(w, h, i))
    ensures FillFaces(cells, w, h, vertices, faces)[i] == cells[i]
    decreases |faces|
  {
    if faces != [] {
      var init := faces[..|faces| - 1];
      forall k | 0 <= k < |init|
        ensures !Covers(UVec2(w, h), ProjectFace(vertices, init[k], UVec2(w, h)), CellX(w, h, i), CellY(w, h, i))
      {
        assert init[k] == faces[k];
      }
      FillFacesUncoveredUnchanged(cells, w, h, vertices, init, i);
    }
  }
}
