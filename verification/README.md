# terrapyconvert projection core in Dafny

A model of the projection pipeline of `terrapyconvert`, which converts
between geographic coordinates and the block coordinates of a
BuildTheEarth-style Minecraft world. The pipeline is assembled once at
import time:

`Airocean` → `ConformalEstimate` → `ModifiedAirocean` → north-up
orientation → `ScaleProjection` by 7318261.522857145.

Each stage is modelled in its own module:

| module | file | what it holds |
|---|---|---|
| `Geometry` | geometry.dfy | Shared vocabulary: points and vectors, `Coords`, the literal constants, Python's `int()` and `max/min` clamp. `Coords` is a point, the `(nan, nan)` out-of-bounds answer, or a raised ZeroDivisionError. |
| `VectorField` | vector_field.dfy | `InvertableVectorField`: locating the small triangle of the grid, barycentric interpolation with reported derivatives, and the fixed-count 2D Newton iteration that inverts it. |
| `Airocean` | airocean.dfy | The icosahedral base projection: the face tables, the centre offsets, the nearest-centroid classifier, the grid classifier, and the flip/split/offset placement. Also the forward map, the inverse map and their seam-rejection rules. The spherical trigonometry is a parameter (`Sphere`). |
| `Conformal` | conformal.dfy | `ConformalEstimate`: filling the 257-row jagged correction grid from the data stream, the Newton-based forward correction, its interpolating inverse, and `meters_per_unit`. |
| `ModifiedAirocean` | modified_airocean.dfy | The Eurasia/Americas boundary, the per-part shift and rotation with the final quarter turn, the inverse with its part inference and consistency check, and the fixed bounds. |
| `Projections` | projections.dfy | The shared projection interface as a base record plus the scale, flip-Y (`UprightOrientation`) and swap-XY (`InvertedOrientation`) decorators. Covers `from_geo`, `to_geo`, `upright`, `bounds` and `meters_per_unit`, with the `GeographicProjection` defaults. |
| `Api` | api.dfy | `_orient_projection`, the import-time pipeline, and `from_geo`, `to_geo`, `from_geo_object` and `to_geo_object`. |

The main results:

- **The discrete round trip through the whole pipeline** (`Api.ModifiedRoundTrip`).
  - Hypotheses:
    - the modified layout's inverse infers the part the forward map used;
    - the corrected face-local point lies inside the face triangle, at least 10⁻⁹ lattice units from its edges.
  - Conclusion: `to_geo(from_geo(lat, lon))` reaches the corrected inverse triangle transform on the face `from_geo` reported. It passes the point in the form `from_geo` left it: flipped for a flipped face, and turned by 60° on the piece of face 14 or 15 that was cut off, then flipped back for the reported face. For example, the cut-off piece of face 14 is reported on face 20, which FLIP_TRIANGLE flips, so the transform sees the turned point negated.
  - It composes these results:
    - the decorators undo themselves (`Projections.RoundTripThroughDecorators`);
    - the layout map is inverted exactly (`ModifiedAirocean.UnmapRemap`);
    - the centre offset is removed exactly (`Airocean.UnplaceInvertsPlace`);
    - the seam check never rejects a forward result (`Airocean.PlaceNeverRejected`);
    - the grid classifier recognises the face of every placed point inside the face triangle (`Airocean.PlacedFaceRecognised`).
- **The conformal correction is inverted exactly**:
  - the interpolant is affine on each small triangle, so one Newton step from anywhere in a root's triangle lands on the root, and the root is a fixed point of the iteration (`VectorField.ApplyNewtonsFindsRoot`);
  - so correcting and then uncorrecting gives the point back (`Conformal.UncorrectCorrect`, `Conformal.CorrectUncorrect`).
- **The grid classifier agrees with the placement**:
  - it maps each of the 22 face centres back to its own face (`Airocean.FindTriangleGridAtCenters`);
  - each face centre is the centroid of that face's grid cell, and FLIP_TRIANGLE flips exactly the faces whose cell points down (`Airocean.CentresAreCentroids`);
  - so every point `from_geo` places from inside a face triangle is classified back to the face it was reported on, including the turned pieces on faces 20 and 21 (`Airocean.PlacedFaceRecognised`).
- **The assembled pipeline is upright** (`Api.Pipeline`). More generally, `_orient_projection` yields a projection whose `upright()` is true exactly when UPRIGHT was asked for (`Api.OrientProjection`).

## Model

| member | source | states |
|---|---|---|
| Geometry.Trunc | terrapyconvert/projection/invertable_vector_field.py:29-30 | Python's `int()` on a float truncates toward zero. For a non-negative argument it is the floor; for a negative one it is the ceiling. |
| Geometry.Clamp | terrapyconvert/projection/invertable_vector_field.py:29-30 | `max(lo, min(t, hi))` lies in [lo, hi]. It is t when t is in range, else the nearer end. |
| VectorField.ClampIndices | terrapyconvert/projection/invertable_vector_field.py:25-30 | The clamped (u1, v1) always names a cell of the triangular grid (u1 ≤ N-1, v1 ≤ N-u1-1). Each equals its truncated coordinate whenever that is already in range. |
| VectorField.CellAt | terrapyconvert/projection/invertable_vector_field.py:24-35 | The chosen cell lies inside the grid. On the last cell of a row, where no upper triangle exists, the lower triangle is always chosen. |
| VectorField.Locate | terrapyconvert/projection/invertable_vector_field.py:18-35 | For any query point, including points far outside the unit triangle, the cell read lies inside the grid. |
| VectorField.CornersAreNodes | terrapyconvert/projection/invertable_vector_field.py:35-53 | Every one of the six grid reads is in range (no IndexError for any query point), and the three corners read are distinct. |
| VectorField.CellAtNode | terrapyconvert/projection/invertable_vector_field.py:24-35 | At the scaled position of grid node (u, v), the sampler picks a cell with (u, v) as one of its corners. This holds even at the edges, where clamping moves it to a neighbouring cell. |
| VectorField.BlendAtLowerCorner | terrapyconvert/projection/invertable_vector_field.py:61-67 | At a lower triangle's corner the barycentric weights are 1 for that corner and 0 for the others, so the blend returns that corner's value. |
| VectorField.EvalAtLowerCorner | terrapyconvert/projection/invertable_vector_field.py:61-68 | Interpolating a lower triangle at a point that scales onto one of its corners returns that corner's two values. |
| VectorField.BarycentricAtCorner | terrapyconvert/projection/invertable_vector_field.py:35-68 | Interpolating a lower grid cell at one of its corners returns the vector stored at that node. |
| VectorField.NodePointScaled | terrapyconvert/projection/invertable_vector_field.py:21-22 | Multiplying a node's unit coordinates by side_length gives the node's grid position back. |
| VectorField.InterpolateAtScaledNode | terrapyconvert/projection/invertable_vector_field.py:18-68 | `get_interpolated_vector` at any point that scales onto node (u, v) returns exactly `(vector_x[u][v], vector_y[u][v])`. |
| VectorField.InterpolateAtNode | terrapyconvert/projection/invertable_vector_field.py:18-68 | The interpolant passes through the data: at every grid node it returns the stored vector. |
| VectorField.BlendAffine | terrapyconvert/projection/invertable_vector_field.py:61-73 | A blend evaluated at unit points is affine, and its slopes are exactly the dfdx/dfdy (dgdx/dgdy) the sampler reports. |
| VectorField.EvalIsAffine | terrapyconvert/projection/invertable_vector_field.py:61-75 | Over one small triangle the interpolated vector is affine in the query point. The four reported derivatives are its partial derivatives. |
| VectorField.BarycentricIsAffine | terrapyconvert/projection/invertable_vector_field.py:18-75 | Within one grid cell the sampled vector is affine. The reported Jacobian depends only on the cell, not on where in it the point lies. |
| VectorField.CramerSolves | terrapyconvert/projection/invertable_vector_field.py:86-91 | With a nonzero determinant, the update `determinant * (dgdy f - dfdy g, -dgdx f + dfdx g)` solves the 2x2 linear system J d = (f, g). |
| VectorField.SolutionUnique | terrapyconvert/projection/invertable_vector_field.py:86-91 | With a nonzero determinant that system has only one solution. |
| VectorField.NewtonUpdate | terrapyconvert/projection/invertable_vector_field.py:81-91 | One update raises exactly when the sampled Jacobian is singular. Otherwise the step it takes solves J · step = (val_x - expected_f, val_y - expected_g). |
| VectorField.UpdateExact | terrapyconvert/projection/invertable_vector_field.py:81-91 | When the target is exactly what the sample's linearisation predicts at (x2, y2), one update from (x1, y1) lands on (x2, y2). |
| VectorField.UpdateLandsOn | terrapyconvert/projection/invertable_vector_field.py:81-91 | If a point's own sample hits the target and is an affine step from the estimate's sample, one update lands on that point. |
| VectorField.UpdateAtRoot | terrapyconvert/projection/invertable_vector_field.py:81-91 | An estimate whose sample already equals the target, with an invertible Jacobian, is left where it is. |
| VectorField.Iterate | terrapyconvert/projection/invertable_vector_field.py:80-93 | With zero or fewer iterations the estimate is returned unchanged. A singular Jacobian at the starting estimate raises. |
| VectorField.IterateFixedPoint | terrapyconvert/projection/invertable_vector_field.py:80-93 | A root with an invertible Jacobian is a fixed point of any number of iterations. |
| VectorField.IterateCompose | terrapyconvert/projection/invertable_vector_field.py:80-93 | Running a + b iterations is running a, then b more from where they ended; a raise in the first a propagates. |
| VectorField.IterateReachesRoot | terrapyconvert/projection/invertable_vector_field.py:80-93 | Once one update lands on a root, every positive iteration count returns that root. |
| VectorField.NewtonExactInCell | terrapyconvert/projection/invertable_vector_field.py:77-91 | From any estimate in the same cell as a point the field maps onto the target, one update lands exactly on that point. |
| VectorField.InterpolateIsAffine | terrapyconvert/projection/invertable_vector_field.py:18-75 | `get_interpolated_vector` at two points of the same small triangle gives samples related by an affine step: the second is the first plus the reported Jacobian times the displacement. |
| VectorField.ApplyNewtons | terrapyconvert/projection/invertable_vector_field.py:77-93 | With no iterations the estimate comes back unchanged. With a singular sampled Jacobian at the estimate it raises. An estimate whose sample already hits the target is returned as is. |
| VectorField.ApplyNewtonsFindsRoot | terrapyconvert/projection/invertable_vector_field.py:77-93 | `apply_newtons_method` started anywhere in a root's cell, with an invertible Jacobian there, returns the root exactly for any positive iteration count. |
| Airocean.IsoShape | terrapyconvert/projection/airocean.py:34-57 | ISO has 22 faces, each made of three distinct vertex ids below 12. Pseudo-faces 20 and 21 reuse the vertices of faces 14 and 15. |
| Airocean.GridTableIsPlacement | terrapyconvert/projection/airocean.py:94-98 | FACE_ON_GRID has 3 × 11 cells. Every one of the 22 faces appears in exactly one cell and every other cell is -1, so the table is a placement of the faces. |
| Airocean.GridTableFacesUnique | terrapyconvert/projection/airocean.py:94-98 | Two grid cells hold the same face only if they are the same cell. |
| Airocean.CenterOffset | terrapyconvert/projection/airocean.py:60-83 | The offset of face f, divided by the grid's units (ARC across, ARC·√3 up), is the raw table entry scaled by 1/2 across and 1/12 up. |
| Airocean.InitializeCenters | terrapyconvert/projection/airocean.py:126-132 | `_initialize_centers` produces 44 numbers, the x and y offset of each of the 22 faces in order. |
| Airocean.ScanFinds | terrapyconvert/projection/airocean.py:216-231 | The centroid loop from face i on returns a real face. If some centroid is nearer than 0.1 it returns the first such face. Otherwise it returns the first face of minimal squared distance. |
| Airocean.FindTriangle | terrapyconvert/projection/airocean.py:214-231 | `_find_triangle` always answers one of the 20 real faces. With a centroid nearer than 0.1 it answers the first such face; otherwise the first nearest centroid. |
| Airocean.GridCell | terrapyconvert/projection/airocean.py:253-267 | The column lookup answers -1 for a column outside 0..10. For a column inside, it answers that column's FACE_ON_GRID entry in the row, which is a face or -1. |
| Airocean.GridFace | terrapyconvert/projection/airocean.py:239-267 | The grid lookup answers a face or -1, and -1 outside the three bands. |
| Airocean.GridAt | terrapyconvert/projection/airocean.py:236-267 | Classifying a normalised point answers a face or -1. |
| Airocean.FindTriangleGrid | terrapyconvert/projection/airocean.py:234-267 | `_find_triangle_grid` answers a face or -1. It answers -1 above 3/4 and below -3/4 of a face height, in lattice units. |
| Airocean.GridFaceAtCenters | terrapyconvert/projection/airocean.py:234-267 | Each of the 22 normalised face centres is classified as its own face. |
| Airocean.TopRowCenters | terrapyconvert/projection/airocean.py:239-267 | The centres of faces 0-4 are classified as their own faces. |
| Airocean.MiddleRowCentersWest | terrapyconvert/projection/airocean.py:239-267 | The centres of faces 5-9 are classified as their own faces. |
| Airocean.MiddleRowCentersEast | terrapyconvert/projection/airocean.py:239-267 | The centres of faces 10-14 are classified as their own faces. |
| Airocean.BottomRowCenters | terrapyconvert/projection/airocean.py:239-267 | The centres of faces 15-21 are classified as their own faces. |
| Airocean.FindTriangleGridAtCenters | terrapyconvert/projection/airocean.py:234-267 | `_find_triangle_grid` at the offset `_initialize_centers` computed for face f answers f, so the inverse classifier agrees with the forward placement at every face centre. |
| Airocean.FlipInvolution | terrapyconvert/projection/airocean.py:353-355 | The FLIP_TRIANGLE flip is either nothing or a half turn, and applying it twice (once in `from_geo`, once in `to_geo` at lines 392-394) is the identity. |
| Airocean.Turn60Norm | terrapyconvert/projection/airocean.py:360-361 | The split's turn scales squared lengths by (1 + ROOT3²)/4, so it is a rotation up to the rounding of √3. |
| Airocean.SplitFace | terrapyconvert/projection/airocean.py:358-362 | The reported face moves by 6 exactly when the point lies on a cut-off piece, and then only 14 → 20 or 15 → 21. |
| Airocean.UnplaceInvertsPlace | terrapyconvert/projection/airocean.py:352-379 | Removing the centre offset of the face `from_geo` reports gives back exactly the flipped and split face-local point. |
| Airocean.TurnedPieceSide | terrapyconvert/projection/airocean.py:359-361 | A turned piece satisfies the `-y·√3 > x` test of the rejection rules exactly when its original x is negative. |
| Airocean.PlaceNeverRejected | terrapyconvert/projection/airocean.py:352-389 | No point `from_geo` places is ever rejected by `to_geo`'s checks for faces 14, 15, 20 and 21. |
| Airocean.ForwardFace | terrapyconvert/projection/airocean.py:324-336 | The face `from_geo` classifies a point into is one of the 20 real faces. |
| Airocean.FromGeo | terrapyconvert/projection/airocean.py:324-368 | `from_geo` answers a point exactly when the triangle transform does not raise. That point is the face-local result placed by flip, split and offset. It is never `(nan, nan)`. |
| Airocean.ToGeo | terrapyconvert/projection/airocean.py:370-415 | `to_geo` answers `(nan, nan)` exactly when the grid has no face at the point or the point, offset removed, lies in a rejected half of faces 14, 15, 20 or 21. |
| Airocean.Rejected | terrapyconvert/projection/airocean.py:382-389 | Only faces 14, 15, 20 and 21 have a rejected half. On faces 14 and 15 the rejected half is exactly the piece `from_geo` cuts off (lines 358-362). |
| Airocean.CellClassified | terrapyconvert/projection/airocean.py:234-267 | A point strictly inside grid cell (row, col) is classified as that cell's FACE_ON_GRID entry. An even column is an upward cell and an odd column a downward one. |
| Airocean.CentresAreCentroids | terrapyconvert/projection/airocean.py:60-98 | The centre of each of the 22 faces is the centroid of the grid cell that FACE_ON_GRID gives it. FLIP_TRIANGLE is set exactly for the faces whose cell points down. |
| Airocean.TriangleInCell | terrapyconvert/projection/airocean.py:234-267 | A point inside the face triangle, moved to a cell's centroid, turned upside down for a downward cell, lies strictly inside that cell. |
| Airocean.FaceTriangleInCell | terrapyconvert/projection/airocean.py:352-366 | A point inside the face triangle, flipped as FLIP_TRIANGLE says and offset to face g's centre, lies strictly inside face g's grid cell. |
| Airocean.UncutPlace | terrapyconvert/projection/airocean.py:352-366 | Off the cut pieces, `from_geo`'s placement in lattice units is the face centre plus the point, negated on a flipped face. |
| Airocean.CutPlace14 | terrapyconvert/projection/airocean.py:352-366 | On the cut piece of face 14, the point is reported on face 20, turned by 60° and offset to face 20's centre. |
| Airocean.CutPlace15 | terrapyconvert/projection/airocean.py:352-366 | On the cut piece of face 15, the point is reported on face 21, turned by 60° and offset to face 21's centre. In lattice units (s, t) that piece has s < 0 and s < t·√3² before the flip. |
| Airocean.TurnedPieceInCell20 | terrapyconvert/projection/airocean.py:358-366 | Any point of the face triangle, turned by 60° and offset to face 20's centre, lies strictly inside face 20's grid cell. In particular the turned cut piece of face 14 does. |
| Airocean.TurnedPieceInCell21 | terrapyconvert/projection/airocean.py:358-366 | The cut piece of face 15, flipped, turned by 60° and offset to face 21's centre, lies strictly inside face 21's grid cell. |
| Airocean.PlacedInCell | terrapyconvert/projection/airocean.py:352-366 | Every point inside a face triangle is placed strictly inside the grid cell of the face `from_geo` reports, whether cut or not. |
| Airocean.PlacedFaceRecognised | terrapyconvert/projection/airocean.py:352-368 | `_find_triangle_grid` at `from_geo`'s placement of a point inside the face triangle answers exactly the face `from_geo` reported, 20 or 21 for the cut pieces. |
| Airocean.Unproject | terrapyconvert/projection/airocean.py:390-415 | After the rejection tests `to_geo` never answers `(nan, nan)`. It raises exactly when the inverse triangle transform of the flipped point raises, and otherwise converts the inverse-rotated vector back to lat/lon. |
| Airocean.ToGeoOfFromGeo | terrapyconvert/projection/airocean.py:324-415 | For a corrected face-local point inside the face triangle, `to_geo` of a `from_geo` result finds the reported face and passes the inverse triangle transform exactly the flipped and split point computed forward. |
| Conformal.ColumnStart | terrapyconvert/projection/core/conformal_estimate.py:35-37 | The walk's counter value at the start of column v is never negative. |
| Conformal.ColumnStartClosed | terrapyconvert/projection/core/conformal_estimate.py:35-37 | Column v of the walk starts at counter value v(2N+3-v)/2. |
| Conformal.NodeCount | terrapyconvert/projection/core/conformal_estimate.py:19-46 | The walk over side 256 visits (N+1)(N+2)/2 = 33153 nodes. |
| Conformal.ColumnStartGrows | terrapyconvert/projection/core/conformal_estimate.py:35-37 | Columns are consecutive: each later column starts after the whole of an earlier one. |
| Conformal.VisitOrder | terrapyconvert/projection/core/conformal_estimate.py:35-46 | The counter numbers the nodes in v-major order. Every node gets a number below the total, and different nodes get different numbers (the walk is a bijection onto 0..33152). |
| Conformal.Initialize | terrapyconvert/projection/core/conformal_estimate.py:16-48 | The grid has the triangular shape the sampler needs, side 256. Node (u, v) holds the scaled data entry with the node's walk number, or the scaled identity (u/256, v/256) past the end of the data. The final counter is 33153. |
| Conformal.Normalize | terrapyconvert/projection/core/conformal_estimate.py:58-63 | A point inside the face triangle is normalised to a point strictly inside the unit triangle, the domain of the correction grid. |
| Conformal.Denormalize | terrapyconvert/projection/core/conformal_estimate.py:68-73 | Denormalising a unit-triangle point and normalising it again gives it back. |
| Conformal.NormalizeRoundTrip | terrapyconvert/projection/core/conformal_estimate.py:58-73 | The normalisation to the unit triangle and the denormalisation after Newton's method undo each other, in both orders. |
| Conformal.Correct | terrapyconvert/projection/core/conformal_estimate.py:50-75 | The corrected triangle point raises exactly when Newton's method raises. Otherwise, normalised, it is Newton's answer for the parent's point as target, started at that point normalised. |
| Conformal.Uncorrect | terrapyconvert/projection/core/conformal_estimate.py:77-91 | The inverse correction hands the parent's inverse the field's interpolated vector at the normalised point. |
| Conformal.UncorrectCorrect | terrapyconvert/projection/core/conformal_estimate.py:50-91 | If the field maps a root in the start point's cell onto the parent's point, the correction answers that root (denormalised), and the inverse correction maps it back to the parent's point. |
| Conformal.CorrectUncorrect | terrapyconvert/projection/core/conformal_estimate.py:50-91 | The other order: correcting an uncorrected point gives the point back when the two lie in the same cell. |
| Conformal.UncorrectAtNode | terrapyconvert/projection/core/conformal_estimate.py:77-91 | At a grid node, the inverse correction answers the stored correction vector. |
| Conformal.ConformalSphere | terrapyconvert/projection/core/conformal_estimate.py:50-91 | The subclass overrides only the two triangle transforms. The classifier, the matrices and the centroids are the parent's. |
| Conformal.ConformalTriangleRoundTrip | terrapyconvert/projection/core/conformal_estimate.py:50-91 | Under the same cell hypotheses, the corrected inverse transform at the corrected forward point calls the parent's inverse on exactly the parent's forward point. |
| Conformal.MetersPerUnit | terrapyconvert/projection/core/conformal_estimate.py:93-95 | `meters_per_unit` is the earth's circumference over 2π, enlarged by the factor 1.1473979730192934 the grid was shrunk by. |
| ModifiedAirocean.BoundaryLines | terrapyconvert/projection/core/modified_airocean.py:30-36 | The derived Arctic and Aleutian lines pass through the reference points they are built from. |
| ModifiedAirocean.BoundarySlopes | terrapyconvert/projection/core/modified_airocean.py:30-36 | The Arctic line falls and the Aleutian line rises towards the east. |
| ModifiedAirocean.IsEurasianPart | terrapyconvert/projection/core/modified_airocean.py:38-57 | East of x = 0 is never Eurasia and west of -ARC/2 always is. Above the Arctic band, Eurasia is exactly x < 0. |
| ModifiedAirocean.EurasiaExtendsWest | terrapyconvert/projection/core/modified_airocean.py:38-57 | The boundary is a graph over y: along any horizontal line, every point west of a Eurasian point is Eurasian. |
| ModifiedAirocean.RotateBackRotate | terrapyconvert/projection/core/modified_airocean.py:71-74 | The rotation `from_geo` applies and the one `to_geo` applies (lines 101-103) undo each other for a (cos, sin) pair on the unit circle. |
| ModifiedAirocean.Remap | terrapyconvert/projection/core/modified_airocean.py:64-82 | The non-Eurasian part is lowered and moved one ARC west, then turned a quarter turn. |
| ModifiedAirocean.InferredEurasiaExtendsEast | terrapyconvert/projection/core/modified_airocean.py:87-92 | The part `to_geo` infers from the layout position is a graph over y: along any horizontal line, every point east of an inferred Eurasian point is inferred Eurasian. |
| ModifiedAirocean.Unmap | terrapyconvert/projection/core/modified_airocean.py:94-108 | For the non-Eurasian part the unmapping moves the point a quarter turn back, one ARC east and up by 3/4 of a face height: (ARC - y, x + 0.75·ARC·√3). |
| ModifiedAirocean.UnmapRemap | terrapyconvert/projection/core/modified_airocean.py:64-108 | For either part, `to_geo`'s unmapping inverts `from_geo`'s mapping exactly, in both orders. |
| ModifiedAirocean.FromGeo | terrapyconvert/projection/core/modified_airocean.py:59-82 | `from_geo` answers a point exactly when the corrected Airocean map does, and never answers `(nan, nan)`. |
| ModifiedAirocean.ToGeo | terrapyconvert/projection/core/modified_airocean.py:84-114 | `to_geo` answers `(nan, nan)` when the unmapped point lies in the other part than the one inferred from the layout position. Otherwise it answers the corrected Airocean inverse of the unmapped point. |
| ModifiedAirocean.ToGeoOfFromGeo | terrapyconvert/projection/core/modified_airocean.py:59-114 | When the inferred part is the one `from_geo` used, the layout layer is transparent: `to_geo` of the forward result is the corrected Airocean inverse of the corrected Airocean forward point. |
| ModifiedAirocean.Bounds | terrapyconvert/projection/core/modified_airocean.py:116-123 | The fixed rectangle is ordered, (3 + 1.5√3)·ARC wide and (√3 + 1.5)·ARC high. |
| Projections.Geographic | terrapyconvert/projection/geographic_projection.py:14-24 | The base class maps are the identity, with 100000 meters per unit and the default bounds. |
| Projections.AiroceanBase | terrapyconvert/projection/airocean.py:324-415 | `Airocean` as a projection: its maps are the Airocean maps, never `(nan, nan)` forward, default bounds and meters per unit. |
| Projections.ConformalBase | terrapyconvert/projection/core/conformal_estimate.py:11-95 | `ConformalEstimate` as a projection: the corrected maps, never `(nan, nan)` forward, its own meters per unit. |
| Projections.ModifiedBase | terrapyconvert/projection/core/modified_airocean.py:10-123 | `ModifiedAirocean` as a projection: its maps, never `(nan, nan)` forward, an ordered fixed bounds override, the conformal meters per unit. |
| Projections.FromGeo | terrapyconvert/projection/scale_projection.py:21-24 | Through any stack of scale, flip-Y and swap-XY decorators, `from_geo` answers a point exactly when the base does, and `(nan, nan)` exactly when the base does. |
| Projections.ZeroScaleRaises | terrapyconvert/projection/scale_projection.py:18-20 | A stack with a zero scale factor anywhere raises ZeroDivisionError in `to_geo`, whatever the point. |
| Projections.ScaleUndone | terrapyconvert/projection/scale_projection.py:17-24 | A scale with non-zero factors is undone by its own `to_geo`: given the scaled forward point, it hands the inner `to_geo` exactly the inner forward point. |
| Projections.RoundTripThroughDecorators | terrapyconvert/projection/transforms/upright_orientation.py:15-22 | Through scale (non-zero factors) and flip-Y decorators, `to_geo` of a forward result hands the base's `to_geo` exactly the base's forward result. |
| Projections.SwapNotUndone | terrapyconvert/projection/inverted_orientation.py:15-22 | Swap-XY's `to_geo` does not unswap. Given its own forward result, it passes the inner `to_geo` the inner result with x and y exchanged. |
| Projections.Not | terrapyconvert/projection/scale_projection.py:27-29 | Negating a flag that may have raised keeps the raise and flips the value. |
| Projections.BaseUpright | terrapyconvert/projection/geographic_projection.py:45-49 | `upright()` raises when either pole raises. For two points it is true exactly when the north pole's y is at most the south pole's. With a NaN answer it is false. |
| Projections.GeographicNotUpright | terrapyconvert/projection/geographic_projection.py:45-49 | The identity projection is not upright. |
| Projections.IsUpright | terrapyconvert/projection/transforms/upright_orientation.py:24-26 | `upright()` of a stack raises exactly when the base's does. Otherwise it is the base's flag, kept when the stack holds an even number of flip-Y decorators and negative y scales and negated when odd. |
| Projections.UprightFlags | terrapyconvert/projection/transforms/upright_orientation.py:24-26 | Two flips or two negative y scales cancel. Swap-XY and a non-negative y scale keep the flag. A negative y scale acts as a flip. |
| Projections.BaseBounds | terrapyconvert/projection/geographic_projection.py:26-43 | The default bounds are the ordered pairs of x at longitude ±180 and y at latitude ±90, as sets equal to the sampled values. They raise exactly when a sample does; an override is answered as is. |
| Projections.BoundsExist | terrapyconvert/projection/scale_projection.py:31-39 | The bounds of a stack are computed exactly when the base's bounds are; no decorator raises on its own. |
| Projections.BoundsOrdered | terrapyconvert/projection/scale_projection.py:31-39 | Flip-Y, swap-XY and non-negative scales keep bounds ordered. |
| Projections.BoundsInvolutions | terrapyconvert/projection/transforms/upright_orientation.py:28-31 | Two flip-Y, or two swap-XY, give the inner bounds back. |
| Projections.MetersPerUnitScaled | terrapyconvert/projection/scale_projection.py:41-45 | With equal factors s > 0, scaling divides meters per unit by s. Flip-Y and swap-XY leave it alone. |
| Projections.MetersPerUnitClosedForm | terrapyconvert/projection/scale_projection.py:41-45 | With every scale's root mean square positive, meters per unit of a stack is the base's divided by the product of those root mean squares. |
| Projections.MetersPerUnitPositive | terrapyconvert/projection/projection_transform.py:22-24 | Meters per unit stays positive through every decorator when the base's is positive and every scale's root mean square is positive. |
| Api.OrientProjection | terrapyconvert/__init__.py:21-33 | `_orient_projection` raises exactly when the base's `upright()` does. Otherwise its result is upright exactly when UPRIGHT was asked for. Its exact result is given for each case: an upright base is returned unchanged for UPRIGHT, flipped for NONE, and flipped then swapped for SWAPPED; a non-upright base is returned unchanged for NONE, flipped for UPRIGHT, and swapped for SWAPPED. |
| Api.OrientUprightIdempotent | terrapyconvert/__init__.py:21-33 | Orienting an already oriented projection UPRIGHT again returns it unchanged. |
| Api.Pipeline | terrapyconvert/__init__.py:36-38 | The import-time pipeline is built exactly when the base's `upright()` does not raise. It is upright, reversible, and has the modified Airocean projection at its base. |
| Api.PipelineShape | terrapyconvert/__init__.py:21-38 | The pipeline is the base, wrapped in flip-Y exactly when it was not upright, then scaled by SCALE on both axes. |
| Api.FromGeo | terrapyconvert/__init__.py:41-53 | `from_geo(lat, lon)` is the base's `from_geo(lon, lat)` times SCALE, y negated if the base was flipped. It answers a point or `(nan, nan)` exactly when the base does. |
| Api.ToGeo | terrapyconvert/__init__.py:71-83 | `to_geo(x, z)` is the base's `to_geo` at (x/SCALE, ±z/SCALE), negated back if the base was flipped. |
| Api.RoundTrip | terrapyconvert/__init__.py:41-83 | For any base, `to_geo(from_geo(lat, lon))` hands the base's `to_geo` exactly the base's forward point. |
| Api.ModifiedRoundTrip | terrapyconvert/__init__.py:36-83 | The end-to-end discrete round trip through the package's interface, under the part hypothesis and for points inside the face triangle: the corrected inverse triangle transform receives the forward point flipped and split as `from_geo` left it, on the face it reported. |
| Api.FromGeoObject | terrapyconvert/__init__.py:56-68 | `from_geo_object` holds exactly the keys x and z, with the values of `from_geo`. |
| Api.ToGeoObject | terrapyconvert/__init__.py:86-98 | `to_geo_object` holds exactly the keys lat and lon, with the values of `to_geo`, NaN when out of bounds. |

## Left out

- Real arithmetic: the model uses exact reals, not IEEE doubles.
  - Constants the source derives by `sqrt`, `asin` and `sin`/`cos` (ROOT3, ARC, π, the -150° turn) are the literal doubles or abstract pairs.
  - Rounding error, `math` domain errors and NaN produced by arithmetic are not modelled.
  - The `(nan, nan)` sentinel is modelled as a value of its own.
- Spherical trigonometry is a parameter (`Airocean.Sphere`), not computed. This covers:
  - the lon/lat to unit-vector conversion;
  - `_initialize_vertices` and `_initialize_matrices` (the centroids and rotation matrices);
  - `_triangle_transform`;
  - `_inverse_triangle_transform_newton`;
  - the atan2/acos conversion back.

  Their possible ZeroDivisionError is the `None` of the two triangle fields.
- Airocean.PlacedFaceRecognised: covers points at least 10⁻⁹ lattice units inside the face triangle's edges, because the double ROOT3 squared is not exactly 3 and the cut pieces' turned edges move by that rounding. Points on or next to an edge are not covered, and neither are the ones the inverse Newton transform would bring from outside the triangle.
- Airocean.Turn60Norm: states the turn is a rotation only up to the factor (1 + ROOT3²)/4, because the double ROOT3 squared is not exactly 3.
- ModifiedAirocean.RotateBackRotate: assumes the (cos, sin) pair of -150° lies exactly on the unit circle, which the rounded doubles do not.
- VectorField.ApplyNewtonsFindsRoot: the root is exact only when the estimate starts in the root's cell. Convergence from another cell, which the source does not check either, is not modelled.
- Conformal.Initialize: the correction data are a parameter. Reading the resource file (`resources/conformal.py`, `data/conformal.py`) is not part of this model.
- Conformal: VECTOR_SCALE_FACTOR is the exact quotient 1 / 1.1473979730192934.
- Projections.MetersPerUnitScaled: the square root is a parameter of `meters_per_unit`; only `sqrt(s·s) = s` is assumed of it.
- Projections.BaseBounds: requires that the base never answers `(nan, nan)` from `from_geo`. All the source's bases satisfy this, and NaN ordering in `bounds` is not modelled.
- Api: the package's base is a parameter of the public functions, and `Api.Modified` names the one line 36 builds. The dict's float type is not modelled.
- `examples.py`, `setup.py`, the package `__init__` re-exports and the test suite's regression values are not part of this model.

## Notes on the source

- `Airocean.to_geo` (and so every inverse above it) answers (latitude, longitude). `GeographicProjection.to_geo` answers its arguments unchanged. The package reads the pair as (lat, lon). The model follows the code.
- `_orient_projection` wraps an upright base in flip-Y whenever the requested orientation is not UPRIGHT. So for NONE and SWAPPED the result is not upright, rather than the base being kept upright. The model follows the code: `Api.OrientProjection` states that the result is upright exactly for UPRIGHT.
