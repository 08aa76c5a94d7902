/** The drawing entities the converter reads from a DXF modelspace, the test that
    picks out building meshes, and the extraction of triangles from their face
    lists. */
module Entities {
  import opened Geometry

  /** A modelspace entity: its DXF type name, its layer, and, for a MESH, its
      vertex list and its face list (each face a list of vertex indices). */
  datatype Entity = Entity(kind: string, layer: string, vertices: seq<Vertex>, faces: seq<seq<int>>)

  /** The converter's filter: a MESH entity on the "buildings" layer. */
  predicate IsBuilding(e: Entity)
  {
    e.kind == "MESH" && e.layer == "buildings"
  }

  /** The entities the loop over the modelspace keeps, in iteration order.
      Defined from the end so that it follows the loop one entity at a time. */
  function Select(es: seq<Entity>): (r: seq<Entity>)
    ensures |r| <= |es|
    ensures forall b :: b in r ==> b in es && IsBuilding(b)
  {
    if |es| == 0 then []
    else if IsBuilding(es[|es| - 1]) then Select(es[..|es| - 1]) + [es[|es| - 1]]
    else Select(es[..|es| - 1])
  }

  /** An entity is selected exactly when it occurs in the input and is a
      building; every other entity is skipped. */
  lemma {:induction false} SelectMembers(es: seq<Entity>, b: Entity)
    ensures b in Select(es) <==> b in es && IsBuilding(b)
  {
    if |es| > 0 {
      var init := es[..|es| - 1];
      assert es == init + [es[|es| - 1]];
      SelectMembers(init, b);
    }
  }

  /** Selection distributes over concatenation: the kept entities of a longer
      modelspace are those of its first part followed by those of its second
      part, so relative order is preserved. */
  lemma {:induction false} SelectAppend(p: seq<Entity>, q: seq<Entity>)
    ensures Select(p + q) == Select(p) + Select(q)
  {
    if |q| == 0 {
      assert p + q == p;
    } else {
      var init := q[..|q| - 1];
      assert (p + q)[..|p + q| - 1] == p + init;
      SelectAppend(p, init);
    }
  }

  /** A single entity contributes itself when it is a building and nothing
      otherwise. */
  lemma SelectSingle(e: Entity)
    ensures Select([e]) == if IsBuilding(e) then [e] else []
  {
    assert [e][..0] == [];
  }

  /** Selecting again keeps everything: the kept entities are all buildings. */
  lemma {:induction false} SelectIdempotent(es: seq<Entity>)
    ensures Select(Select(es)) == Select(es)
  {
    if |es| > 0 {
      var init := es[..|es| - 1];
      var e := es[|es| - 1];
      SelectIdempotent(init);
      if IsBuilding(e) {
        SelectAppend(Select(init), [e]);
        SelectSingle(e);
      }
    }
  }

  /** Every building of the modelspace has a counterpart in the selection, at
      the position given by the number of buildings before it. */
  lemma {:induction false} SelectPosition(es: seq<Entity>, i: int)
    requires 0 <= i < |es| && IsBuilding(es[i])
    ensures |Select(es[..i])| < |Select(es)|
    ensures Select(es)[|Select(es[..i])|] == es[i]
  {
    SelectAppend(es[..i], es[i..]);
    assert es == es[..i] + es[i..];
    assert es[i..] == [es[i]] + es[i + 1..];
    SelectAppend([es[i]], es[i + 1..]);
    SelectSingle(es[i]);
  }

  // ---------------------------------------------------------------------------
  // Faces

  /** Every face lists at least three vertex indices (a shorter face makes the
      extraction fail). */
  predicate Polygonal(fs: seq<seq<int>>)
  {
    forall i :: 0 <= i < |fs| ==> |fs[i]| >= 3
  }

  /** The three indices of a triangle, as a list. */
  function Corners(f: Face): (r: seq<int>)
    ensures |r| == 3
  {
    [f.0, f.1, f.2]
  }

  /** The face array built from an entity's face list: one triangle per face, in
      order, made of that face's first three indices. */
  function Triangles(fs: seq<seq<int>>): (r: seq<Face>)
    requires Polygonal(fs)
    ensures |r| == |fs|
  {
    seq(|fs|, i requires 0 <= i < |fs| => (fs[i][0], fs[i][1], fs[i][2]))
  }

  /** Each triangle is its source face cut to its first three indices; any
      further indices are dropped. */
  lemma TrianglesTruncate(fs: seq<seq<int>>)
    requires Polygonal(fs)
    ensures forall i :: 0 <= i < |fs| ==> Corners(Triangles(fs)[i]) == fs[i][..3]
  {
    forall i | 0 <= i < |fs|
      ensures Corners(Triangles(fs)[i]) == fs[i][..3]
    {
      assert fs[i][..3] == [fs[i][0], fs[i][1], fs[i][2]];
    }
  }

  /** A face list that is already made of triangles round-trips exactly. */
  lemma TrianglesRoundTrip(ts: seq<Face>)
    ensures Polygonal(seq(|ts|, i requires 0 <= i < |ts| => Corners(ts[i])))
    ensures Triangles(seq(|ts|, i requires 0 <= i < |ts| => Corners(ts[i]))) == ts
  {
  }

  /** The triangles address `n` vertices exactly when the first three indices
      of every face do; the indices the cut drops play no part. */
  lemma TrianglesInRange(fs: seq<seq<int>>, n: int)
    requires Polygonal(fs)
    ensures FacesInRange(Triangles(fs), n) <==>
            forall i, j :: 0 <= i < |fs| && 0 <= j < |fs[i]| && j < 3 ==> 0 <= fs[i][j] < n
  {
    if FacesInRange(Triangles(fs), n) {
      forall i, j | 0 <= i < |fs| && 0 <= j < |fs[i]| && j < 3
        ensures 0 <= fs[i][j] < n
      {
        assert Triangles(fs)[i] in Triangles(fs);
      }
    }
    if forall i, j :: 0 <= i < |fs| && 0 <= j < |fs[i]| && j < 3 ==> 0 <= fs[i][j] < n {
      forall f | f in Triangles(fs)
        ensures 0 <= f.0 < n && 0 <= f.1 < n && 0 <= f.2 < n
      {
        var i :| 0 <= i < |fs| && Triangles(fs)[i] == f;
        assert 0 <= fs[i][0] < n && 0 <= fs[i][1] < n && 0 <= fs[i][2] < n;
      }
    }
  }
}
