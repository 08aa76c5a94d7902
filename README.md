# Building meshes to a printable STL: the geometry assembly of `dxf_to_extruded_stl`

`converter.py` turns a CAD drawing of extruded building footprints into one
triangle mesh for 3D printing. This project models, in Dafny, what
`dxf_to_extruded_stl` does between reading the drawing and writing the STL file.
It does the following:

1. It walks the modelspace entities in order. It keeps every `MESH` entity on
   the `buildings` layer and skips every other entity.
2. For each building it builds a mesh. The vertices are copied as they are. Each
   face becomes the triangle of its first three indices.
3. It lowers the mesh so that its least elevation is 0, when that elevation is
   not already 0.
4. It runs the two trimesh repairs (`fix_winding`, `fill_holes`) on the mesh.
5. It concatenates the building meshes into one mesh, in drawing order.
6. It shrinks that mesh uniformly about the origin so that the largest side of
   its bounding box is at most 200 units. It never enlarges it.

The model has four modules:

- `Geometry` (`geometry.dfy`) covers vertices, triangles and trimesh's affine
  maps (`apply_translation`, `apply_scale`). It also covers Python's `min` over
  the elevations, trimesh's `bounds`, and the largest extent `np.max(bounds[1] -
  bounds[0])`. It proves how translation and scaling move these quantities.
- `Entities` (`entities.dfy`) covers drawing entities, the building filter, and
  face extraction.
- `Meshes` (`meshes.dfy`) covers meshes as values (`MeshData`) and
  `trimesh.util.concatenate` as `Combine`. It also has the mutable `Mesh` class.
  Its methods change the vertex buffer and face array in place, as
  `trimesh.Trimesh` does.
- `Converter` (`converter.dfy`) covers the specification functions of the
  pipeline (`Normalised`, `Fitted`, `Build`, `Assembled`, `Exported`) and the
  properties of the exported mesh. It also has the imperative converter:
  `BuildMesh`, `FitToEnvelope`, and `DxfToExtrudedStl` with its loop over the
  modelspace. The converter is proved to produce exactly `Exported`.

Coordinates are real numbers. All the equalities proved hold in exact real
arithmetic, for example "the least elevation is exactly 0" and "the largest side
is exactly 200". The program computes in floating point, where they hold only up
to rounding.

The drawing is the sequence of its modelspace entities, in iteration order.
The two repairs are parameters of type `MeshData -> MeshData`. They are assumed
`Sound`: they keep the vertex buffer unchanged, and they keep every face index
within the buffer.

The converter needs three things of its input. Where one of them fails, the
source raises an exception, so these are preconditions (`Convertible`,
`Buildable`) rather than modelled behaviour:

- at least one building is selected, since `concatenate([])` has no bounds;
- every building has a vertex, since `min([])` raises;
- every face of a building has at least three indices, since `f[2]` would raise.

## Model

| member | source | states |
|---|---|---|
| Geometry.Translated | converter.py:33 | defines `apply_translation`: every vertex moved by the vector, in order. Its effect on the least coordinate is stated by `MinOnTranslated` |
| Geometry.Scaled | converter.py:54 | defines `apply_scale` about the origin: every coordinate multiplied by the factor, in order. Its effect on the corners, the least coordinate and the extent is stated by `CornersScaled`, `MinOnScaled` and `ScaledExtent` |
| Geometry.Lowest | converter.py:32 | defines Python's `min` of a non-empty list. It is specified by `LowestIsLeast` |
| Geometry.Highest | converter.py:50 | defines the greatest value of a non-empty list, as taken per axis by `bounds`. It is specified by `HighestIsGreatest` |
| Geometry.MinOn | converter.py:20 | defines the least coordinate over a mesh's vertices (`min(elevations)` for z). It is specified by `MinOnIsLeast` |
| Geometry.LowestIsLeast | converter.py:32 | `min` of a non-empty list of elevations is one of them and is no greater than any of them |
| Geometry.HighestIsGreatest | converter.py:50 | `max` of a non-empty list is one of its elements and is no smaller than any of them |
| Geometry.MinOnIsLeast | converter.py:20 | the least elevation of a mesh is attained by a vertex and bounds every vertex's z from below (likewise for x and y) |
| Geometry.LowCorner | converter.py:50 | defines the minimum corner of `bounds` as the component-wise minimum of the vertices. `CornersAreColumnExtremes` and `InsideBounds` specify it |
| Geometry.HighCorner | converter.py:50 | defines the maximum corner of `bounds` as the component-wise maximum of the vertices. `CornersAreColumnExtremes` and `InsideBounds` specify it |
| Geometry.Bounds | converter.py:50 | defines `bounds` as the pair of the two corners. `InsideBounds` states that every vertex lies in the box |
| Geometry.CornersAreColumnExtremes | converter.py:50 | each coordinate of the low (high) corner of `bounds` is the least (greatest) value of that coordinate over the vertices |
| Geometry.InsideBounds | converter.py:50 | every vertex lies between the two corners of `bounds` on every axis |
| Geometry.LargestSide | converter.py:51 | defines `np.max(hi - lo)` for two corners: the largest of the three differences |
| Geometry.Extent | converter.py:51 | defines `max_extent` as the largest side of `bounds`. It is specified by `ExtentIsLargestSide` |
| Geometry.ExtentIsLargestSide | converter.py:51 | the largest extent is non-negative, at least every side of the bounding box, and equal to one of them |
| Geometry.MinOnTranslated | converter.py:33 | translating by `d` shifts the least coordinate on each axis by that axis's component of `d` |
| Geometry.CornersScaled | converter.py:50-54 | scaling by `k > 0` about the origin scales both corners of the bounding box by `k` |
| Geometry.MinOnScaled | converter.py:54 | scaling by `k > 0` scales the least coordinate on each axis by `k` |
| Geometry.LargestSideScaled | converter.py:51-54 | scaling both corners by `k > 0` scales the largest side of the box by `k` |
| Geometry.ScaledExtent | converter.py:51-54 | scaling a mesh by `k > 0` scales its largest extent by `k` |
| Geometry.MinOnConcat | converter.py:46 | the least coordinate of two joined vertex buffers is the smaller of the two buffers' least coordinates |
| Entities.IsBuilding | converter.py:17 | defines the filter: the entity's type is `MESH` and its layer is `buildings`. `SelectMembers` states that exactly these entities are kept |
| Entities.Select | converter.py:16-17 | the kept entities are no more than the input, and each is an input entity that is a building |
| Entities.SelectMembers | converter.py:16-44 | an entity is kept if and only if it occurs in the drawing and is a `MESH` on layer `buildings` |
| Entities.SelectAppend | converter.py:16-41 | the selection of a drawing split in two is the selection of the first part followed by that of the second, so order is preserved |
| Entities.SelectSingle | converter.py:17-44 | a single entity contributes itself when it is a building and nothing otherwise |
| Entities.SelectIdempotent | converter.py:17 | selecting from a selection keeps all of it |
| Entities.SelectPosition | converter.py:16-41 | the building at drawing position `i` is kept at the position given by the number of buildings before it |
| Entities.Triangles | converter.py:26 | one triangle per source face, in order |
| Entities.TrianglesTruncate | converter.py:26 | each triangle is its source face cut to its first three indices; extra indices are dropped |
| Entities.TrianglesRoundTrip | converter.py:26 | a face list that is already made of triangles comes back exactly |
| Entities.TrianglesInRange | converter.py:26-29 | the triangles address the entity's vertices if and only if the first three indices of every face do; the dropped indices play no part |
| Meshes.Offset | converter.py:46 | renumbers a face array by a vertex offset and keeps one face per face. `OffsetInRange` and `OffsetCompose` specify it |
| Meshes.OffsetInRange | converter.py:46 | faces of a mesh of `m` vertices, offset by `n`, address exactly positions `n` to `n + m - 1` of the joined buffer |
| Meshes.OffsetCompose | converter.py:46 | an offset of 0 changes nothing, and two offsets add up |
| Meshes.Append | converter.py:46 | joining two meshes adds their vertex counts and their face counts |
| Meshes.AppendEmpty | converter.py:46 | the empty mesh is a unit of concatenation on both sides |
| Meshes.AppendWellIndexed | converter.py:46 | joining two meshes whose faces address their own vertices gives a mesh whose faces address its vertices |
| Meshes.Combine | converter.py:46 | defines `trimesh.util.concatenate` of a list of meshes as their joins in order. It is specified by `CombineContents`, `CombineKeepsFaces` and `CombineWellIndexed` |
| Meshes.CombineContents | converter.py:46 | the combined vertex buffer is the parts' buffers in order, and the vertex and face counts are the sums of the parts' counts |
| Meshes.CombineWellIndexed | converter.py:46 | concatenation keeps every face index in range |
| Meshes.CombineKeepsFaces | converter.py:46 | every face of every part appears in the combined mesh, offset by the vertices before its part, with its corners at the same vertex positions as in the part |
| Meshes.CombineGrounded | converter.py:32-46 | concatenating meshes that each rest on z = 0 gives a non-empty mesh that rests on z = 0 |
| Meshes.Mesh.constructor | converter.py:29 | a new mesh holds the given vertices and faces |
| Meshes.Mesh.ApplyTranslation | converter.py:33 | every vertex moves by the vector, and the faces are unchanged |
| Meshes.Mesh.ApplyScale | converter.py:54 | every coordinate is multiplied by the factor, and the faces are unchanged |
| Meshes.Mesh.Repair | converter.py:37-38 | the repair rewrites the face array and leaves the vertices in place |
| Meshes.ContentsAppend | converter.py:41 | appending a mesh to the list appends its contents to the list's contents |
| Meshes.Concatenate | converter.py:46 | a fresh mesh whose contents are the combination of the given meshes' contents, in order |
| Converter.Normalised | converter.py:32-33 | the vertices after the optional downward translation, as many as before. `NormalisedGrounded`, `NormalisedMovesOnlyZ`, `NormalisedFixedPoints` and `NormalisedIdempotent` specify it |
| Converter.NormalisedGrounded | converter.py:20-33 | after the optional translation the least elevation is exactly 0 |
| Converter.NormalisedMovesOnlyZ | converter.py:33 | normalisation keeps each vertex's x and y and lowers its z by the least elevation |
| Converter.NormalisedFixedPoints | converter.py:32 | a mesh is left unchanged if and only if its least elevation is already 0 |
| Converter.NormalisedIdempotent | converter.py:32-33 | normalising twice is normalising once |
| Converter.Fitted | converter.py:49-54 | the vertices after the optional shrink, as many as before. `FittedExtent`, `FittedIsShrink` and `FittedGrounded` specify it |
| Converter.FittedExtent | converter.py:49-54 | a mesh whose largest extent is at most 200 is unchanged; a larger one ends with a largest extent of exactly 200; either way the result is the smaller of the extent and 200 |
| Converter.ScaledToEnvelope | converter.py:53-54 | a positive factor that takes the largest extent to 200 gives a mesh whose largest extent is 200 |
| Converter.FittedIsShrink | converter.py:52-54 | the fit is a uniform scaling about the origin by a factor in (0, 1]: it never enlarges |
| Converter.FittedGrounded | converter.py:54 | a mesh resting on z = 0 still rests on z = 0 after the fit |
| Converter.Build | converter.py:19-38 | a building's mesh has the normalised vertices, and its faces stay in range when the entity's faces were |
| Converter.BuildAll | converter.py:15-41 | one mesh per selected building, in order. `BuiltGrounded` and `BuiltVertexCount` specify it |
| Converter.BuildAllAppend | converter.py:41 | building one more entity appends its mesh to the list of meshes |
| Converter.BuildAllStep | converter.py:16-44 | one loop iteration: a building appends its mesh to the list, and any other entity leaves the list as it was |
| Converter.SelectionBuildable | converter.py:16-32 | in a drawing the converter accepts, at least one entity is selected and every selected entity can be built |
| Converter.BuiltGrounded | converter.py:32-41 | every building mesh in the list has a vertex and rests on z = 0 |
| Converter.Assembled | converter.py:46 | the combined mesh has a vertex and rests on z = 0 |
| Converter.Exported | converter.py:46-68 | the exported faces are the combined mesh's faces, untouched by the scaling |
| Converter.ExportedGrounded | converter.py:33-54 | the exported mesh rests on z = 0 |
| Converter.ExportedFits | converter.py:49-54 | the exported largest extent is the combined mesh's, capped at 200; a combined mesh that already fits is exported unchanged |
| Converter.ExportedWellIndexed | converter.py:26-54 | when the first three indices of every building face address that building's vertices, every exported face addresses an exported vertex |
| Converter.BuiltVertexCount | converter.py:16-46 | the building meshes hold as many vertices as the buildings of the drawing |
| Converter.ExportedVertexCount | converter.py:46-68 | the exported mesh has exactly as many vertices as the drawing's buildings; no base plate or other entity contributes any |
| Converter.BuildMesh | converter.py:19-38 | the loop body builds a fresh mesh equal to `Build` of the entity |
| Converter.FitToEnvelope | converter.py:49-54 | the combined mesh's vertices become `Fitted` of the old ones, and its faces are unchanged |
| Converter.CollectBuildings | converter.py:15-44 | the loop over the modelspace leaves the list holding exactly `BuildAll` of the selected buildings, in drawing order |
| Converter.DxfToExtrudedStl | converter.py:15-54 | the loop, the concatenation and the fit produce a fresh mesh equal to `Exported` of the drawing |

## Left out

- Reading the DXF file (`ezdxf.readfile`, `modelspace`, converter.py:12-13) is not modelled. The drawing is the sequence of its modelspace entities.
- Writing the STL file (converter.py:68) is not modelled. The result is the mesh that would be exported.
- `trimesh.repair.fix_winding` and `fill_holes` (converter.py:37-38) are not modelled as algorithms. They are parameters, and the model assumes only that they keep the vertices and keep face indices in range. Their failures are not modelled.
- Converter.Build: its faces are those the repairs return. The model proves nothing about them beyond range, since `fill_holes` may add faces.
- The base plate (converter.py:58-62) never reaches the output, because the union at converter.py:65 is commented out. The model leaves the plate out; `ExportedVertexCount` shows the exported mesh has no vertices beyond the buildings'.
- `extrusion_height` (converter.py:23) is computed and never used. Nothing is extruded. The module-level example call with fixed file names (converter.py:71-75) is not modelled.
- Floating-point rounding and the `np.int32` face dtype (converter.py:26) are not modelled. Coordinates are reals and indices unbounded integers.
- `trimesh.Trimesh` is constructed with its default `process=True` (converter.py:29). This merges vertices that coincide and removes vertices that no face uses. It removes degenerate faces only with `validate=True`, which the converter does not pass, so it keeps them. `bounds` (converter.py:50) also measures only the vertices that faces use. The model keeps every vertex and face as given. It therefore describes the program only for buildings in which every vertex is used by some face and no two vertices coincide. The members below hold of the program under that condition only.
- Meshes.Mesh.constructor: holds the vertices as given, where trimesh would merge coinciding vertices and remove unused ones.
- Converter.NormalisedGrounded: the program lowers a mesh by the least elevation over all the entity's vertices (converter.py:20-33). If the lowest vertex is unused, trimesh has removed it, and the mesh does not end at z = 0.
- Converter.ExportedGrounded: holds of the program only when no building has an unused vertex, for the reason given for `NormalisedGrounded`.
- Converter.ExportedFits: `bounds` measures only used vertices, while the model measures all of them. The two extents agree when every vertex is used.
- Converter.BuiltVertexCount: the program's meshes have fewer vertices when some coincide or are unused.
- Converter.ExportedVertexCount: the program's mesh has fewer vertices when some coincide or are unused.
- Converter.DxfToExtrudedStl: produces `Exported` of the drawing with every vertex kept, as the program does when every vertex is used and no two coincide. It also produces `Exported` when one of the first three indices of a building face is at or past the building's vertex count. The program raises an `IndexError` there, because trimesh indexes the vertex array with the face array when it builds the mesh (converter.py:29). A negative index differs as well: numpy wraps it to the same building's vertices, while `Offset` moves it into the vertices of the building before. The program's result is the model's only when every kept index addresses its building's vertices, which is the hypothesis of `ExportedWellIndexed`.
- Inputs the converter does not handle are excluded by preconditions rather than modelled as errors:
  - an empty selection, which leaves the combined mesh without bounds;
  - a building without vertices, where `min` raises;
  - a face with fewer than three indices, where indexing raises.
- A kept face index outside its building's vertex list, where trimesh raises, is not excluded and not modelled as an error; the line for `Converter.DxfToExtrudedStl` says what the model gives instead.
- The code has these properties, and the model follows it:
  - it truncates a face with more than three indices to its first three, and does not reject it;
  - it adds no base plate to the output;
  - it does not centre the mesh horizontally;
  - it does not recompute normals;
  - it always lowers each building to z = 0, and takes no other vertical reference;
  - it does not handle an empty selection;
  - it does not catch a failing repair for each entity.
