/** `dxf_to_extruded_stl`: the building meshes of a drawing, each lowered onto
    z = 0, combined into one mesh and shrunk uniformly to fit a 200-unit
    envelope. */
module Converter {
  import opened Geometry
  import opened Entities
  import opened Meshes

  /** The largest bounding-box side the exported mesh may have. */
  const MaxDimension: real := 200.0

  // ---------------------------------------------------------------------------
  // Lowering a mesh onto z = 0

  /** A mesh's vertices after the optional downward translation: when the least
      elevation is not 0, every vertex moves by minus that elevation along z. */
  function Normalised(vs: seq<Vertex>): (r: seq<Vertex>)
    requires |vs| > 0
    ensures |r| == |vs|
  {
    if MinOn(vs, Z) != 0.0 then Translated(vs, (0.0, 0.0, -MinOn(vs, Z))) else vs
  }

  /** After normalisation the least elevation is exactly 0. */
  lemma NormalisedGrounded(vs: seq<Vertex>)
    requires |vs| > 0
    ensures MinOn(Normalised(vs), Z) == 0.0
  {
    if MinOn(vs, Z) != 0.0 {
      MinOnTranslated(vs, (0.0, 0.0, -MinOn(vs, Z)), Z);
    }
  }

  /** Normalisation changes only z: each vertex keeps its x and y and drops by
      the least elevation. */
  lemma NormalisedMovesOnlyZ(vs: seq<Vertex>)
    requires |vs| > 0
    ensures forall i :: 0 <= i < |vs| ==>
      Normalised(vs)[i].0 == vs[i].0 && Normalised(vs)[i].1 == vs[i].1 &&
      Normalised(vs)[i].2 == vs[i].2 - MinOn(vs, Z)
  {
  }

  /** A mesh is left as it is exactly when it already sits on z = 0. */
  lemma NormalisedFixedPoints(vs: seq<Vertex>)
    requires |vs| > 0
    ensures Normalised(vs) == vs <==> MinOn(vs, Z) == 0.0
  {
    NormalisedGrounded(vs);
  }

  /** Normalising twice is normalising once. */
  lemma NormalisedIdempotent(vs: seq<Vertex>)
    requires |vs| > 0
    ensures Normalised(Normalised(vs)) == Normalised(vs)
  {
    NormalisedGrounded(vs);
  }

  // ---------------------------------------------------------------------------
  // Fitting the envelope

  /** The combined mesh's vertices after the fit: when the largest side of the
      bounding box exceeds `MaxDimension`, every coordinate is multiplied by
      `MaxDimension / extent`; otherwise nothing changes (no upscaling). */
  function Fitted(vs: seq<Vertex>): (r: seq<Vertex>)
    requires |vs| > 0
    ensures |r| == |vs|
  {
    if Extent(vs) > MaxDimension then Scaled(vs, MaxDimension / Extent(vs)) else vs
  }

  /** A mesh that already fits is untouched; a larger one is shrunk so that its
      largest side is exactly `MaxDimension`. */
  lemma FittedExtent(vs: seq<Vertex>)
    requires |vs| > 0
    ensures Extent(vs) <= MaxDimension ==> Fitted(vs) == vs
    ensures Extent(vs) > MaxDimension ==> Extent(Fitted(vs)) == MaxDimension
    ensures Extent(Fitted(vs)) == Lesser(Extent(vs), MaxDimension)
  {
    if Extent(vs) > MaxDimension {
      Cancel(MaxDimension, Extent(vs));
      ScaledToEnvelope(vs, MaxDimension / Extent(vs));
    }
  }

  /** A positive factor that takes the largest side to `MaxDimension` gives a
      mesh whose largest side is `MaxDimension`. */
  lemma ScaledToEnvelope(vs: seq<Vertex>, k: real)
    requires |vs| > 0 && k > 0.0 && k * Extent(vs) == MaxDimension
    ensures Extent(Scaled(vs, k)) == MaxDimension
  {
    ScaledExtent(vs, k);
  }

  lemma Cancel(a: real, e: real)
    requires e > 0.0
    ensures a / e > 0.0 <==> a > 0.0
    ensures (a / e) * e == a
  {
  }

  /** The fit is a uniform scaling about the origin by a factor in (0, 1]. */
  lemma FittedIsShrink(vs: seq<Vertex>)
    requires |vs| > 0
    ensures exists k :: 0.0 < k <= 1.0 && Fitted(vs) == Scaled(vs, k)
  {
    if Extent(vs) > MaxDimension {
      var k := MaxDimension / Extent(vs);
      assert 0.0 < k <= 1.0 && Fitted(vs) == Scaled(vs, k);
    } else {
      assert Fitted(vs) == Scaled(vs, 1.0);
    }
  }

  /** A mesh that sits on z = 0 still does after the fit. */
  lemma FittedGrounded(vs: seq<Vertex>)
    requires |vs| > 0 && MinOn(vs, Z) == 0.0
    ensures MinOn(Fitted(vs), Z) == 0.0
  {
    if Extent(vs) > MaxDimension {
      MinOnScaled(vs, MaxDimension / Extent(vs), Z);
    }
  }

  // ---------------------------------------------------------------------------
  // Building one mesh per entity

  /** A repair pass (`fix_winding`, `fill_holes`) as trimesh performs it: it may
      reorder or add faces but leaves the vertices in place and keeps every
      face addressing a vertex. */
  ghost predicate Sound(repair: MeshData -> MeshData)
  {
    forall m :: repair(m).vertices == m.vertices && (WellIndexed(m) ==> WellIndexed(repair(m)))
  }

  /** What the converter needs of a building: a vertex to take the least
      elevation of, and at least three indices in every face. */
  predicate Buildable(e: Entity)
  {
    |e.vertices| > 0 && Polygonal(e.faces)
  }

  /** The first three indices of every face of the entity, the ones the
      converter keeps, address its vertices. */
  predicate IndicesInRange(e: Entity)
  {
    forall i, j :: 0 <= i < |e.faces| && 0 <= j < |e.faces[i]| && j < 3 ==> 0 <= e.faces[i][j] < |e.vertices|
  }

  /** The mesh built from one building: its vertices and triangles, lowered onto
      z = 0, then passed through the two repairs. */
  function Build(e: Entity, fixWinding: MeshData -> MeshData, fillHoles: MeshData -> MeshData): (r: MeshData)
    requires Buildable(e) && Sound(fixWinding) && Sound(fillHoles)
    ensures r.vertices == Normalised(e.vertices)
    ensures IndicesInRange(e) ==> WellIndexed(r)
  {
    assert IndicesInRange(e) ==> FacesInRange(Triangles(e.faces), |e.vertices|) by {
      if IndicesInRange(e) {
        TrianglesInRange(e.faces, |e.vertices|);
      }
    }
    fillHoles(fixWinding(MeshData(Normalised(e.vertices), Triangles(e.faces))))
  }

  function BuildAll(es: seq<Entity>, fixWinding: MeshData -> MeshData, fillHoles: MeshData -> MeshData): (r: seq<MeshData>)
    requires forall i :: 0 <= i < |es| ==> Buildable(es[i])
    requires Sound(fixWinding) && Sound(fillHoles)
    ensures |r| == |es|
  {
    seq(|es|, i requires 0 <= i < |es| => Build(es[i], fixWinding, fillHoles))
  }

  /** A drawing the converter handles: it has at least one building, and every
      building is buildable. Other entities may be anything. */
  predicate Convertible(es: seq<Entity>)
  {
    (exists e :: e in es && IsBuilding(e)) &&
    forall e :: e in es && IsBuilding(e) ==> Buildable(e)
  }

  /** The selected entities of a convertible drawing are buildable, and there is
      at least one. */
  lemma SelectionBuildable(es: seq<Entity>)
    requires Convertible(es)
    ensures |Select(es)| > 0
    ensures forall i :: 0 <= i < |Select(es)| ==> Buildable(Select(es)[i])
  {
    var e :| e in es && IsBuilding(e);
    SelectMembers(es, e);
  }

  /** The built meshes each have a vertex and sit on z = 0. */
  lemma BuiltGrounded(es: seq<Entity>, fixWinding: MeshData -> MeshData, fillHoles: MeshData -> MeshData)
    requires forall i :: 0 <= i < |es| ==> Buildable(es[i])
    requires Sound(fixWinding) && Sound(fillHoles)
    ensures Grounded(BuildAll(es, fixWinding, fillHoles))
  {
    forall i | 0 <= i < |es|
      ensures MinOn(BuildAll(es, fixWinding, fillHoles)[i].vertices, Z) == 0.0
    {
      NormalisedGrounded(es[i].vertices);
    }
  }

  /** The combined mesh before the fit: the built meshes of the selected
      buildings, concatenated in drawing order. */
  function Assembled(es: seq<Entity>, fixWinding: MeshData -> MeshData, fillHoles: MeshData -> MeshData): (r: MeshData)
    requires Convertible(es) && Sound(fixWinding) && Sound(fillHoles)
    ensures |r.vertices| > 0 && MinOn(r.vertices, Z) == 0.0
  {
    SelectionBuildable(es);
    BuiltGrounded(Select(es), fixWinding, fillHoles);
    CombineGrounded(BuildAll(Select(es), fixWinding, fillHoles));
    Combine(BuildAll(Select(es), fixWinding, fillHoles))
  }

  /** The mesh the converter exports: the assembled mesh fitted to the envelope.
      No base plate is added. */
  function Exported(es: seq<Entity>, fixWinding: MeshData -> MeshData, fillHoles: MeshData -> MeshData): (r: MeshData)
    requires Convertible(es) && Sound(fixWinding) && Sound(fillHoles)
    ensures r.faces == Assembled(es, fixWinding, fillHoles).faces
  {
    var c := Assembled(es, fixWinding, fillHoles);
    MeshData(Fitted(c.vertices), c.faces)
  }

  // ---------------------------------------------------------------------------
  // Properties of the exported mesh

  /** The exported mesh rests on z = 0. */
  lemma ExportedGrounded(es: seq<Entity>, fixWinding: MeshData -> MeshData, fillHoles: MeshData -> MeshData)
    requires Convertible(es) && Sound(fixWinding) && Sound(fillHoles)
    ensures MinOn(Exported(es, fixWinding, fillHoles).vertices, Z) == 0.0
  {
    FittedGrounded(Assembled(es, fixWinding, fillHoles).vertices);
  }

  /** The exported mesh fits the envelope: its largest side is the assembled
      mesh's, capped at `MaxDimension`, and a mesh that already fits is exported
      unchanged. */
  lemma ExportedFits(es: seq<Entity>, fixWinding: MeshData -> MeshData, fillHoles: MeshData -> MeshData)
    requires Convertible(es) && Sound(fixWinding) && Sound(fillHoles)
    ensures Extent(Exported(es, fixWinding, fillHoles).vertices)
         == Lesser(Extent(Assembled(es, fixWinding, fillHoles).vertices), MaxDimension)
    ensures Extent(Exported(es, fixWinding, fillHoles).vertices) <= MaxDimension
    ensures Extent(Assembled(es, fixWinding, fillHoles).vertices) <= MaxDimension ==>
            Exported(es, fixWinding, fillHoles) == Assembled(es, fixWinding, fillHoles)
  {
    FittedExtent(Assembled(es, fixWinding, fillHoles).vertices);
  }

  /** When every building's faces address its own vertices, so do the exported
      mesh's faces. */
  lemma ExportedWellIndexed(es: seq<Entity>, fixWinding: MeshData -> MeshData, fillHoles: MeshData -> MeshData)
    requires Convertible(es) && Sound(fixWinding) && Sound(fillHoles)
    requires forall e :: e in es && IsBuilding(e) ==> IndicesInRange(e)
    ensures WellIndexed(Exported(es, fixWinding, fillHoles))
  {
    SelectionBuildable(es);
    var built := BuildAll(Select(es), fixWinding, fillHoles);
    forall i | 0 <= i < |built|
      ensures WellIndexed(built[i])
    {
      assert Select(es)[i] in Select(es);
    }
    CombineWellIndexed(built);
  }

  /** Building one more entity's mesh appends it to the built list. */
  lemma BuildAllAppend(ss: seq<Entity>, e: Entity, fixWinding: MeshData -> MeshData, fillHoles: MeshData -> MeshData)
    requires forall i :: 0 <= i < |ss| ==> Buildable(ss[i])
    requires Buildable(e) && Sound(fixWinding) && Sound(fillHoles)
    ensures BuildAll(ss + [e], fixWinding, fillHoles)
         == BuildAll(ss, fixWinding, fillHoles) + [Build(e, fixWinding, fillHoles)]
  {
    assert forall i :: 0 <= i < |ss| ==> (ss + [e])[i] == ss[i];
  }

  /** One more entity adds its mesh to the built meshes when it is a building,
      and nothing otherwise. */
  lemma BuildAllStep(init: seq<Entity>, e: Entity, fixWinding: MeshData -> MeshData, fillHoles: MeshData -> MeshData)
    requires forall b :: b in Select(init) ==> Buildable(b)
    requires IsBuilding(e) ==> Buildable(e)
    requires Sound(fixWinding) && Sound(fillHoles)
    ensures forall b :: b in Select(init + [e]) ==> Buildable(b)
    ensures BuildAll(Select(init + [e]), fixWinding, fillHoles)
         == if IsBuilding(e) then BuildAll(Select(init), fixWinding, fillHoles) + [Build(e, fixWinding, fillHoles)]
            else BuildAll(Select(init), fixWinding, fillHoles)
  {
    assert (init + [e])[..|init|] == init;
    if IsBuilding(e) {
      assert Select(init + [e]) == Select(init) + [e];
      BuildAllAppend(Select(init), e, fixWinding, fillHoles);
    }
  }

  /** The number of vertices of the buildings of a drawing, summed. */
  function BuildingVertexCount(es: seq<Entity>): nat
  {
    if |es| == 0 then 0
    else if IsBuilding(es[|es| - 1]) then BuildingVertexCount(es[..|es| - 1]) + |es[|es| - 1].vertices|
    else BuildingVertexCount(es[..|es| - 1])
  }

  lemma {:induction false} BuiltVertexCount(es: seq<Entity>, fixWinding: MeshData -> MeshData, fillHoles: MeshData -> MeshData)
    requires forall e :: e in es && IsBuilding(e) ==> Buildable(e)
    requires Sound(fixWinding) && Sound(fillHoles)
    ensures VertexCount(BuildAll(Select(es), fixWinding, fillHoles)) == BuildingVertexCount(es)
  {
    if |es| > 0 {
      var init := es[..|es| - 1];
      var e := es[|es| - 1];
      assert es == init + [e];
      BuiltVertexCount(init, fixWinding, fillHoles);
      BuildAllStep(init, e, fixWinding, fillHoles);
      if IsBuilding(e) {
        AllVerticesAppend(BuildAll(Select(init), fixWinding, fillHoles), Build(e, fixWinding, fillHoles));
      }
    }
  }

  /** The exported mesh has exactly the vertices of the buildings and no more:
      there is no base plate and nothing from any other entity. */
  lemma ExportedVertexCount(es: seq<Entity>, fixWinding: MeshData -> MeshData, fillHoles: MeshData -> MeshData)
    requires Convertible(es) && Sound(fixWinding) && Sound(fillHoles)
    ensures |Exported(es, fixWinding, fillHoles).vertices| == BuildingVertexCount(es)
  {
    BuiltVertexCount(es, fixWinding, fillHoles);
    CombineContents(BuildAll(Select(es), fixWinding, fillHoles));
  }

  // ---------------------------------------------------------------------------
  // The converter

  /** The body of the loop for one building: the mesh of its vertices and
      triangles, moved down by its least elevation when that is not 0, then
      repaired. */
  method BuildMesh(entity: Entity, fixWinding: MeshData -> MeshData, fillHoles: MeshData -> MeshData)
    returns (mesh: Mesh)
    requires Buildable(entity) && Sound(fixWinding) && Sound(fillHoles)
    ensures fresh(mesh)
    ensures mesh.Data() == Build(entity, fixWinding, fillHoles)
  {
    var vertices := entity.vertices;
    var elevations := Column(vertices, Z);
    var faces := Triangles(entity.faces);
    mesh := new Mesh(vertices, faces);
    if Lowest(elevations) != 0.0 {
      mesh.ApplyTranslation((0.0, 0.0, -Lowest(elevations)));
    }
    ghost var lowered := mesh.Data();
    assert lowered == MeshData(Normalised(entity.vertices), faces);
    mesh.Repair(fixWinding);
    assert mesh.Data() == fixWinding(lowered);
    mesh.Repair(fillHoles);
  }

  /** The fit of the combined mesh: when its largest bounding-box side exceeds
      `MaxDimension`, it is scaled by `MaxDimension` over that side. */
  method FitToEnvelope(mesh: Mesh)
    requires |mesh.vertices| > 0
    modifies mesh
    ensures mesh.vertices == Fitted(old(mesh.vertices))
    ensures mesh.faces == old(mesh.faces)
  {
    var maxExtent := Extent(mesh.vertices);
    if maxExtent > MaxDimension {
      var scaleFactor := MaxDimension / maxExtent;
      mesh.ApplyScale(scaleFactor);
    }
  }

  /** The loop over the modelspace: a mesh for each building, in drawing order;
      every other entity is skipped. */
  method CollectBuildings(entities: seq<Entity>, fixWinding: MeshData -> MeshData, fillHoles: MeshData -> MeshData)
    returns (meshes: seq<Mesh>)
    requires forall e :: e in entities && IsBuilding(e) ==> Buildable(e)
    requires Sound(fixWinding) && Sound(fillHoles)
    ensures forall e :: e in Select(entities) ==> Buildable(e)
    ensures Contents(meshes) == BuildAll(Select(entities), fixWinding, fillHoles)
  {
    meshes := [];
    for i := 0 to |entities|
      invariant forall e :: e in Select(entities[..i]) ==> Buildable(e)
      invariant Contents(meshes) == BuildAll(Select(entities[..i]), fixWinding, fillHoles)
    {
      var entity := entities[i];
      assert entities[..i + 1] == entities[..i] + [entity];
      assert entity in entities;
      BuildAllStep(entities[..i], entity, fixWinding, fillHoles);
      if IsBuilding(entity) {
        var mesh := BuildMesh(entity, fixWinding, fillHoles);
        ContentsAppend(meshes, mesh);
        meshes := meshes + [mesh];
      }
    }
    assert entities[..|entities|] == entities;
  }

  /** The converter: the loop over the modelspace, the concatenation and the
      fit, with the drawing's entities given in modelspace order and the two
      trimesh repairs given as `fixWinding` and `fillHoles`. Reading the DXF
      file and writing the STL file are not part of this model. */
  method DxfToExtrudedStl(entities: seq<Entity>, fixWinding: MeshData -> MeshData, fillHoles: MeshData -> MeshData)
    returns (combined: Mesh)
    requires Convertible(entities) && Sound(fixWinding) && Sound(fillHoles)
    ensures fresh(combined)
    ensures combined.Data() == Exported(entities, fixWinding, fillHoles)
  {
    var meshes := CollectBuildings(entities, fixWinding, fillHoles);
    combined := Concatenate(meshes);
    assert combined.Data() == Assembled(entities, fixWinding, fillHoles);
    FitToEnvelope(combined);
  }
}
