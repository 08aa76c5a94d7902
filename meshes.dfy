/** Triangle meshes as trimesh holds them: a vertex buffer and a face array of
    index triples. `MeshData` is a mesh as a value; `Mesh` is the mutable object
    the converter transforms in place. */
module Meshes {
  import opened Geometry

  datatype MeshData = MeshData(vertices: seq<Vertex>, faces: seq<Face>)

  /** Every face of the mesh addresses one of its vertices. */
  predicate WellIndexed(m: MeshData)
  {
    FacesInRange(m.faces, |m.vertices|)
  }

  // ---------------------------------------------------------------------------
  // Concatenation (`trimesh.util.concatenate`)

  function OffsetFace(f: Face, n: int): Face
  {
    (f.0 + n, f.1 + n, f.2 + n)
  }

  /** Every index of every face moved up by `n`. */
  function Offset(fs: seq<Face>, n: int): (r: seq<Face>)
    ensures |r| == |fs|
  {
    seq(|fs|, i requires 0 <= i < |fs| => OffsetFace(fs[i], n))
  }

  /** Offsetting the faces of a mesh of `m` vertices by `n` makes them address
      exactly the positions `n` to `n + m - 1` of a longer buffer. */
  lemma OffsetInRange(fs: seq<Face>, n: int, m: int)
    requires FacesInRange(fs, m) && n >= 0
    ensures FacesInRange(Offset(fs, n), n + m)
    ensures forall f :: f in Offset(fs, n) ==> n <= f.0 && n <= f.1 && n <= f.2
  {
    forall f | f in Offset(fs, n)
      ensures n <= f.0 < n + m && n <= f.1 < n + m && n <= f.2 < n + m
    {
      var i :| 0 <= i < |fs| && Offset(fs, n)[i] == f;
      assert fs[i] in fs;
    }
  }

  /** Offsetting by zero is the identity, and offsets add up. */
  lemma OffsetCompose(fs: seq<Face>, n: int, m: int)
    ensures Offset(fs, 0) == fs
    ensures Offset(Offset(fs, n), m) == Offset(fs, n + m)
  {
    assert Offset(fs, 0) == fs;
  }

  /** Two meshes as one: the second mesh's vertices follow the first's, and its
      faces are renumbered to address them there. */
  function Append(p: MeshData, q: MeshData): (r: MeshData)
    ensures |r.vertices| == |p.vertices| + |q.vertices|
    ensures |r.faces| == |p.faces| + |q.faces|
  {
    MeshData(p.vertices + q.vertices, p.faces + Offset(q.faces, |p.vertices|))
  }

  /** The empty mesh is a unit of concatenation on both sides. */
  lemma AppendEmpty(m: MeshData)
    ensures Append(MeshData([], []), m) == m
    ensures Append(m, MeshData([], [])) == m
  {
    OffsetCompose(m.faces, 0, 0);
    assert m.vertices + [] == m.vertices;
    assert m.faces + [] == m.faces;
  }

  /** Joining two meshes that are well indexed gives a well indexed mesh. */
  lemma AppendWellIndexed(p: MeshData, q: MeshData)
    requires WellIndexed(p) && WellIndexed(q)
    ensures WellIndexed(Append(p, q))
  {
    OffsetInRange(q.faces, |p.vertices|, |q.vertices|);
  }

  /** All meshes of a list combined into one, in order. Defined from the end so
      that it follows a loop that adds one mesh at a time. */
  function Combine(ms: seq<MeshData>): MeshData
  {
    if |ms| == 0 then MeshData([], [])
    else Append(Combine(ms[..|ms| - 1]), ms[|ms| - 1])
  }

  /** The vertex buffers of a list of meshes, one after the other. */
  function AllVertices(ms: seq<MeshData>): seq<Vertex>
  {
    if |ms| == 0 then [] else ms[0].vertices + AllVertices(ms[1..])
  }

  /** The number of vertices of a list of meshes, summed. */
  function VertexCount(ms: seq<MeshData>): nat
  {
    if |ms| == 0 then 0 else |ms[0].vertices| + VertexCount(ms[1..])
  }

  /** The number of faces of a list of meshes, summed. */
  function FaceCount(ms: seq<MeshData>): nat
  {
    if |ms| == 0 then 0 else |ms[0].faces| + FaceCount(ms[1..])
  }

  lemma {:induction false} AllVerticesAppend(ms: seq<MeshData>, m: MeshData)
    ensures AllVertices(ms + [m]) == AllVertices(ms) + m.vertices
    ensures VertexCount(ms + [m]) == VertexCount(ms) + |m.vertices|
    ensures FaceCount(ms + [m]) == FaceCount(ms) + |m.faces|
  {
    if |ms| == 0 {
      assert ms + [m] == [m];
      assert [m][1..] == [];
    } else {
      assert (ms + [m])[1..] == ms[1..] + [m];
      AllVerticesAppend(ms[1..], m);
    }
  }

  /** The combined vertex buffer is the parts' buffers one after the other;
      nothing is added or dropped, so the vertex and face counts are the sums of
      the parts' counts. */
  lemma {:induction false} CombineContents(ms: seq<MeshData>)
    ensures Combine(ms).vertices == AllVertices(ms)
    ensures |Combine(ms).vertices| == VertexCount(ms)
    ensures |Combine(ms).faces| == FaceCount(ms)
  {
    if |ms| > 0 {
      var init := ms[..|ms| - 1];
      CombineContents(init);
      assert ms == init + [ms[|ms| - 1]];
      AllVerticesAppend(init, ms[|ms| - 1]);
    }
  }

  /** Combining meshes whose faces all address their own vertices gives a mesh
      whose faces all address its vertices. */
  lemma {:induction false} CombineWellIndexed(ms: seq<MeshData>)
    requires forall i :: 0 <= i < |ms| ==> WellIndexed(ms[i])
    ensures WellIndexed(Combine(ms))
  {
    if |ms| > 0 {
      CombineWellIndexed(ms[..|ms| - 1]);
      AppendWellIndexed(Combine(ms[..|ms| - 1]), ms[|ms| - 1]);
    }
  }

  /** Each face of each part reappears in the combined mesh, renumbered so that
      its corners are the same vertex positions as in the part. */
  lemma {:induction false} CombineKeepsFaces(ms: seq<MeshData>, j: int, t: int)
    requires 0 <= j < |ms| && 0 <= t < |ms[j].faces|
    requires WellIndexed(ms[j])
    ensures |Combine(ms[..j]).faces| + t < |Combine(ms).faces|
    ensures Combine(ms).faces[|Combine(ms[..j]).faces| + t]
         == OffsetFace(ms[j].faces[t], |Combine(ms[..j]).vertices|)
    ensures var f := Combine(ms).faces[|Combine(ms[..j]).faces| + t];
            var g := ms[j].faces[t];
            0 <= f.0 < |Combine(ms).vertices| && Combine(ms).vertices[f.0] == ms[j].vertices[g.0] &&
            0 <= f.1 < |Combine(ms).vertices| && Combine(ms).vertices[f.1] == ms[j].vertices[g.1] &&
            0 <= f.2 < |Combine(ms).vertices| && Combine(ms).vertices[f.2] == ms[j].vertices[g.2]
  {
    var init := ms[..|ms| - 1];
    assert ms[j].faces[t] in ms[j].faces;
    if j == |ms| - 1 {
      assert ms[..j] == init;
    } else {
      assert init[..j] == ms[..j];
      CombineKeepsFaces(init, j, t);
    }
  }

  // ---------------------------------------------------------------------------
  // Elevation of combined meshes

  /** Every part has a vertex and sits on z = 0. */
  predicate Grounded(ms: seq<MeshData>)
  {
    forall i :: 0 <= i < |ms| ==> |ms[i].vertices| > 0 && MinOn(ms[i].vertices, Z) == 0.0
  }

  /** Combining meshes that each sit on z = 0 gives a mesh that sits on z = 0. */
  lemma {:induction false} CombineGrounded(ms: seq<MeshData>)
    requires |ms| > 0 && Grounded(ms)
    ensures |Combine(ms).vertices| > 0
    ensures MinOn(Combine(ms).vertices, Z) == 0.0
  {
    var init := ms[..|ms| - 1];
    var last := ms[|ms| - 1];
    if |init| == 0 {
      AppendEmpty(last);
    } else {
      CombineGrounded(init);
      MinOnConcat(Combine(init).vertices, last.vertices, Z);
    }
  }

  // ---------------------------------------------------------------------------
  // The mutable mesh

  /** A `trimesh.Trimesh`: its vertex buffer and face array, changed in place by
      the transformations. */
  class Mesh {
    var vertices: seq<Vertex>
    var faces: seq<Face>

    constructor (vertices: seq<Vertex>, faces: seq<Face>)
      ensures this.vertices == vertices && this.faces == faces
    {
      this.vertices := vertices;
      this.faces := faces;
    }

    /** The mesh's current contents as a value. */
    function Data(): (r: MeshData)
      reads this
      ensures r.vertices == vertices && r.faces == faces
    {
      MeshData(vertices, faces)
    }

    /** `apply_translation`: moves every vertex by `d`; the faces stay. */
    method ApplyTranslation(d: Vertex)
      modifies this
      ensures vertices == Translated(old(vertices), d)
      ensures faces == old(faces)
    {
      vertices := Translated(vertices, d);
    }

    /** `apply_scale`: multiplies every coordinate by `k` about the origin; the
        faces stay. */
    method ApplyScale(k: real)
      modifies this
      ensures vertices == Scaled(old(vertices), k)
      ensures faces == old(faces)
    {
      vertices := Scaled(vertices, k);
    }

    /** A repair pass (`fix_winding`, `fill_holes`): trimesh rewrites the face
        array and leaves the vertices where they are. The pass itself is given
        as `repair`. */
    method Repair(repair: MeshData -> MeshData)
      modifies this
      requires repair(Data()).vertices == vertices
      ensures vertices == old(vertices)
      ensures faces == repair(old(Data())).faces
    {
      faces := repair(Data()).faces;
    }
  }

  /** The contents of a list of meshes, as values. */
  function Contents(ms: seq<Mesh>): (r: seq<MeshData>)
    reads ms
    ensures |r| == |ms|
    ensures forall i :: 0 <= i < |ms| ==> r[i] == ms[i].Data()
  {
    seq(|ms|, i requires 0 <= i < |ms| reads ms => ms[i].Data())
  }

  /** Appending a mesh to a list appends its contents to the list's contents. */
  lemma ContentsAppend(ms: seq<Mesh>, m: Mesh)
    ensures Contents(ms + [m]) == Contents(ms) + [m.Data()]
  {
  }

  /** `trimesh.util.concatenate`: a new mesh holding the vertex buffers one
      after the other and each mesh's faces offset by the number of vertices
      before it. */
  method Concatenate(ms: seq<Mesh>) returns (c: Mesh)
    ensures fresh(c)
    ensures c.Data() == Combine(Contents(ms))
  {
    var vertices: seq<Vertex> := [];
    var faces: seq<Face> := [];
    for i := 0 to |ms|
      invariant MeshData(vertices, faces) == Combine(Contents(ms)[..i])
    {
      assert Contents(ms)[..i + 1][..i] == Contents(ms)[..i];
      faces := faces + Offset(ms[i].faces, |vertices|);
      vertices := vertices + ms[i].vertices;
    }
    assert Contents(ms)[..|ms|] == Contents(ms);
    c := new Mesh(vertices, faces);
  }
}
