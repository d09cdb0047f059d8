/** Buckminster Fuller's Airocean projection: the sphere is cut along an
    icosahedron, each face is projected onto a flat triangle, and the 20
    triangles (two of them split in half, giving pseudo-faces 20 and 21)
    are laid out on one plane.

    Models terrapyconvert/projection/airocean.py. The discrete part -- the
    face tables, both face classifiers, the flip, the split of faces 14 and
    15 and the centre offsets -- is modelled exactly. The spherical
    trigonometry is kept abstract in a `Sphere` record.
 */
module Airocean {
  import opened Geometry

  /** A real face of the icosahedron (0..19) or a pseudo-face (20, 21). */
  predicate IsFace(f: int)
  {
    0 <= f < 22
  }

  /** ISO: the three vertex ids of each face (lines 34-57). The source keeps
      them flat, three consecutive entries per face. */
  const ISO: seq<(int, int, int)> := [
    (2, 1, 6), (1, 0, 2), (0, 1, 5), (1, 5, 10), (1, 6, 10),
    (7, 2, 6), (2, 3, 7), (3, 0, 2), (0, 3, 4), (4, 0, 5),
    (5, 4, 9), (9, 5, 10), (10, 9, 11), (11, 6, 10), (6, 7, 11),
    (8, 3, 7), (8, 3, 4), (8, 4, 9), (9, 8, 11), (7, 8, 11),
    (11, 6, 7), (3, 7, 8)]

  /** CENTER_MAP_RAW: the centre of each face on the layout, in units of
      half an edge across and a twelfth of sqrt(3) edges up (lines 60-83). */
  const CENTER_MAP_RAW: seq<(int, int)> := [
    (-3, 7), (-2, 5), (-1, 7), (2, 5), (4, 5),
    (-4, 1), (-3, -1), (-2, 1), (-1, -1), (0, 1),
    (1, -1), (2, 1), (3, -1), (4, 1), (5, -1),
    (-3, -5), (-1, -5), (1, -5), (2, -7), (-4, -7),
    (-5, -5), (-2, -7)]

  /** FLIP_TRIANGLE: faces drawn upside down on the layout (lines 86-91). */
  const FLIP_TRIANGLE: seq<int> := [
    1, 0, 1, 0, 0,
    1, 0, 1, 0, 1, 0, 1, 0, 1, 0,
    1, 1, 1, 0, 0,
    1, 0]

  /** FACE_ON_GRID: three rows of eleven lattice cells, each naming the face
      drawn there or -1 (lines 94-98). */
  const FACE_ON_GRID: seq<int> := [
    -1, -1, 0, 1, 2, -1, -1, 3, -1, 4, -1,
    -1, 5, 6, 7, 8, 9, 10, 11, 12, 13, 14,
    20, 19, 15, 21, 16, -1, 17, 18, -1, -1, -1]

  /** The cell of FACE_ON_GRID that holds each face: the inverse of the table. */
  const CELL_OF_FACE: seq<int> := [2, 3, 4, 7, 9, 12, 13, 14, 15, 16, 17, 18, 19, 20, 21, 24, 26, 28, 29, 23, 22, 25]

  /** The vertex set of a face. */
  function Vertices(f: int): set<int>
    requires IsFace(f)
  {
    {ISO[f].0, ISO[f].1, ISO[f].2}
  }

  /** ISO names three distinct vertices out of 12 for every face, and the
      pseudo-faces 20 and 21 are faces 14 and 15 again. */
  lemma IsoShape()
    ensures |ISO| == 22
    ensures forall f | 0 <= f < 22 :: 0 <= ISO[f].0 < 12 && 0 <= ISO[f].1 < 12 && 0 <= ISO[f].2 < 12
    ensures forall f | 0 <= f < 22 :: ISO[f].0 != ISO[f].1 && ISO[f].1 != ISO[f].2 && ISO[f].0 != ISO[f].2
    ensures Vertices(20) == Vertices(14) && Vertices(21) == Vertices(15)
  {
  }

  /** FACE_ON_GRID places every face exactly once: each face sits in the
      cell CELL_OF_FACE names, and every cell holds -1 or a face whose
      recorded cell it is. */
  lemma GridTableIsPlacement()
    ensures |FACE_ON_GRID| == 33
    ensures forall f | 0 <= f < 22 :: 0 <= CELL_OF_FACE[f] < 33 && FACE_ON_GRID[CELL_OF_FACE[f]] == f
    ensures forall c | 0 <= c < 33 :: FACE_ON_GRID[c] == -1 || (IsFace(FACE_ON_GRID[c]) && CELL_OF_FACE[FACE_ON_GRID[c]] == c)
  {
  }

  /** Hence no face is drawn in two cells, and the 11 cells no face claims
      hold -1. */
  lemma GridTableFacesUnique(c1: int, c2: int)
    requires 0 <= c1 < 33 && 0 <= c2 < 33 && FACE_ON_GRID[c1] != -1
    ensures FACE_ON_GRID[c1] == FACE_ON_GRID[c2] <==> c1 == c2
  {
    GridTableIsPlacement();
  }

  /** The layout position of a face's centre (`_initialize_centers`, lines
      126-132): half an ARC per unit across, ARC * sqrt(3) / 12 per unit up. */
  function CenterOffset(f: int): (c: Pt)
    requires IsFace(f)
    ensures Normalized(c) == LatticeCenter(f)
  {
    Pt(CENTER_MAP_RAW[f].0 as real * 0.5 * ARC, CENTER_MAP_RAW[f].1 as real * ARC * ROOT3 / 12.0)
  }

  /** `_initialize_centers` as the loop the source runs: CENTER_MAP is the
      flat list x0, y0, x1, y1, ... of the face centres. */
  method InitializeCenters() returns (cm: seq<real>)
    ensures |cm| == 44
    ensures forall f | 0 <= f < 22 :: cm[2 * f] == CenterOffset(f).x && cm[2 * f + 1] == CenterOffset(f).y
  {
    cm := [];
    var i := 0;
    while i < 22
      invariant 0 <= i <= 22
      invariant |cm| == 2 * i
      invariant forall f | 0 <= f < i :: cm[2 * f] == CenterOffset(f).x && cm[2 * f + 1] == CenterOffset(f).y
    {
      cm := cm + [CENTER_MAP_RAW[i].0 as real * 0.5 * ARC, CENTER_MAP_RAW[i].1 as real * ARC * ROOT3 / 12.0];
      i := i + 1;
    }
  }

  // ---------------------------------------------------------------------
  // Forward classifier: the nearest face centroid.

  /** The squared distance the source compares (lines 220-224). */
  function Dist2(c: Vec3, p: Vec3): real
  {
    (c.x - p.x) * (c.x - p.x) + (c.y - p.y) * (c.y - p.y) + (c.z - p.z) * (c.z - p.z)
  }

  /** `dist_sq < min_dist`, where min_dist starts as float('inf') (None). */
  predicate Closer(d: real, min: Option<real>)
  {
    min.None? || d < min.value
  }

  /** The loop of `_find_triangle` (lines 216-231) from face i on, with the
      current best face and its distance. */
  function Scan(cs: seq<Vec3>, p: Vec3, i: int, face: int, min: Option<real>): int
    requires 20 <= |cs| && 0 <= i <= 20
    decreases 20 - i
  {
    if i == 20 then face
    else if Closer(Dist2(cs[i], p), min) then
      if Dist2(cs[i], p) < 0.1 then i
      else Scan(cs, p, i + 1, i, Some(Dist2(cs[i], p)))
    else Scan(cs, p, i + 1, face, min)
  }

  /** Face r is the first of the 20 real faces whose centroid lies within
      squared distance 0.1 of p. */
  predicate FirstNear(cs: seq<Vec3>, p: Vec3, r: int)
    requires 20 <= |cs|
  {
    && 0 <= r < 20
    && Dist2(cs[r], p) < 0.1
    && forall j | 0 <= j < r :: Dist2(cs[j], p) >= 0.1
  }

  /** Face r is the lowest-numbered real face whose centroid is nearest to p. */
  predicate FirstNearest(cs: seq<Vec3>, p: Vec3, r: int)
    requires 20 <= |cs|
  {
    && 0 <= r < 20
    && (forall j | 0 <= j < 20 :: Dist2(cs[r], p) <= Dist2(cs[j], p))
    && (forall j | 0 <= j < r :: Dist2(cs[r], p) < Dist2(cs[j], p))
  }

  /** What the loop knows after faces 0..i-1: none was within 0.1, and
      (face, min) records the first nearest of them. */
  predicate ScanState(cs: seq<Vec3>, p: Vec3, i: int, face: int, min: Option<real>)
    requires 20 <= |cs| && 0 <= i <= 20
  {
    && (forall j | 0 <= j < i :: Dist2(cs[j], p) >= 0.1)
    && (i == 0 ==> min.None? && face == 0)
    && (i > 0 ==> 0 <= face < i && min == Some(Dist2(cs[face], p)))
    && (i > 0 ==> forall j | 0 <= j < i :: Dist2(cs[face], p) <= Dist2(cs[j], p))
    && (i > 0 ==> forall j | 0 <= j < face :: Dist2(cs[face], p) < Dist2(cs[j], p))
  }

  /** The loop returns the first near face if there is one after i, and the
      first nearest face otherwise. */
  lemma {:induction false} ScanFinds(cs: seq<Vec3>, p: Vec3, i: int, face: int, min: Option<real>)
    requires 20 <= |cs| && 0 <= i <= 20 && ScanState(cs, p, i, face, min)
    ensures 0 <= Scan(cs, p, i, face, min) < 20
    ensures (exists k | i <= k < 20 :: Dist2(cs[k], p) < 0.1) ==> FirstNear(cs, p, Scan(cs, p, i, face, min))
    ensures (forall k | i <= k < 20 :: Dist2(cs[k], p) >= 0.1) ==> FirstNearest(cs, p, Scan(cs, p, i, face, min))
    decreases 20 - i
  {
    if i < 20 {
      var d := Dist2(cs[i], p);
      if Closer(d, min) {
        if d >= 0.1 {
          ScanFinds(cs, p, i + 1, i, Some(d));
        }
      } else {
        ScanFinds(cs, p, i + 1, face, min);
      }
    }
  }

  /** `_find_triangle`: always a real face (never 20 or 21); the first face
      whose centroid is within squared distance 0.1 when there is one, and
      otherwise the lowest-numbered nearest face. */
  function FindTriangle(cs: seq<Vec3>, p: Vec3): (r: int)
    requires 20 <= |cs|
    ensures 0 <= r < 20
    ensures (exists k | 0 <= k < 20 :: Dist2(cs[k], p) < 0.1) ==> FirstNear(cs, p, r)
    ensures (forall k | 0 <= k < 20 :: Dist2(cs[k], p) >= 0.1) ==> FirstNearest(cs, p, r)
  {
    ScanFinds(cs, p, 0, 0, None);
    Scan(cs, p, 0, 0, None)
  }

  // ---------------------------------------------------------------------
  // Inverse classifier: bands and a 45-degree lattice.

  /** The lattice column of a point already moved into the middle band
      (lines 253-262): shift the origin to a vertex, rotate by 45 degrees,
      floor both coordinates, and number the half-squares. */
  function GridColumn(xp: real, yp: real): int
  {
    2 * (xp - (yp + 0.25)).Floor + (if (xp + (yp + 0.25)).Floor == (xp - (yp + 0.25)).Floor then 0 else 1) + 6
  }

  /** The face in `row` of FACE_ON_GRID at the point, or -1 off the table
      (lines 264-267). */
  function GridCell(row: int, xp: real, yp: real): (r: int)
    requires 0 <= row < 3
    ensures r == -1 || IsFace(r)
    ensures GridColumn(xp, yp) < 0 || GridColumn(xp, yp) >= 11 ==> r == -1
    ensures 0 <= GridColumn(xp, yp) < 11 ==> r == FACE_ON_GRID[row * 11 + GridColumn(xp, yp)]
  {
    GridTableIsPlacement();
    if GridColumn(xp, yp) < 0 || GridColumn(xp, yp) >= 11 then -1
    else FACE_ON_GRID[row * 11 + GridColumn(xp, yp)]
  }

  /** The band test on coordinates in units of ARC across and ARC*sqrt(3)
      up (lines 239-251): the middle band, the top band flipped into it, the
      bottom band flipped into it, or -1 above and below the layout. */
  function GridFace(xp: real, yp: real): (r: int)
    ensures r == -1 || IsFace(r)
    ensures yp > 0.75 || yp < -0.75 ==> r == -1
  {
    if yp > -0.25 then
      if yp < 0.25 then GridCell(1, xp, yp)
      else if yp <= 0.75 then GridCell(0, xp, 0.5 - yp)
      else -1
    else if yp >= -0.75 then GridCell(2, xp, -yp - 0.5)
    else -1
  }

  /** A layout point in lattice units: ARC across, ARC * sqrt(3) up
      (lines 236-237). */
  function Normalized(p: Pt): Pt
  {
    Pt(p.x / ARC, p.y / (ARC * ROOT3))
  }

  /** A face centre in lattice units: CENTER_MAP_RAW counts halves across
      and twelfths up. */
  function LatticeCenter(f: int): Pt
    requires IsFace(f)
  {
    Pt(CENTER_MAP_RAW[f].0 as real / 2.0, CENTER_MAP_RAW[f].1 as real / 12.0)
  }

  /** The band test at a point in lattice units. */
  function GridAt(q: Pt): (r: int)
    ensures r == -1 || IsFace(r)
  {
    GridFace(q.x, q.y)
  }

  /** `_find_triangle_grid` (lines 234-267). */
  function FindTriangleGrid(x: real, y: real): (r: int)
    ensures r == -1 || IsFace(r)
    ensures y / (ARC * ROOT3) > 0.75 || y / (ARC * ROOT3) < -0.75 ==> r == -1
  {
    GridAt(Normalized(Pt(x, y)))
  }

  /** The lattice puts every face centre in the cell of its own face. */
  lemma GridFaceAtCenters()
    ensures forall f | 0 <= f < 22 :: GridAt(LatticeCenter(f)) == f
  {
    forall f | 0 <= f < 22
      ensures GridAt(LatticeCenter(f)) == f
    {
      if f < 5 { TopRowCenters(f); }
      else if f < 10 { MiddleRowCentersWest(f); }
      else if f < 15 { MiddleRowCentersEast(f); }
      else { BottomRowCenters(f); }
    }
  }

  /** The five faces of the top band. */
  lemma TopRowCenters(f: int)
    requires 0 <= f < 5
    ensures GridAt(LatticeCenter(f)) == f
  {
  }

  /** The western five faces of the middle band. */
  lemma MiddleRowCentersWest(f: int)
    requires 5 <= f < 10
    ensures GridAt(LatticeCenter(f)) == f
  {
  }

  /** The eastern five faces of the middle band. */
  lemma MiddleRowCentersEast(f: int)
    requires 10 <= f < 15
    ensures GridAt(LatticeCenter(f)) == f
  {
  }

  /** The five faces and two pseudo-faces of the bottom band. */
  lemma BottomRowCenters(f: int)
    requires 15 <= f < 22
    ensures GridAt(LatticeCenter(f)) == f
  {
  }

  /** The inverse classifier recognises every face at the layout position
      of its centre, pseudo-faces included. */
  lemma FindTriangleGridAtCenters(f: int)
    requires IsFace(f)
    ensures FindTriangleGrid(CenterOffset(f).x, CenterOffset(f).y) == f
  {
    GridFaceAtCenters();
  }

  // ---------------------------------------------------------------------
  // Laying a face's triangle coordinates out on the plane, and back.

  /** Faces flagged in FLIP_TRIANGLE are turned by 180 degrees (lines
      353-355, 392-394). */
  function Flip(f: int, p: Pt): Pt
    requires IsFace(f)
  {
    if FLIP_TRIANGLE[f] != 0 then Pt(-p.x, -p.y) else p
  }

  /** Flipping is an involution: `to_geo` undoes what `from_geo` did. */
  lemma FlipInvolution(f: int, p: Pt)
    requires IsFace(f)
    ensures Flip(f, Flip(f, p)) == p
    ensures Flip(f, p) == p || Flip(f, p) == Pt(-p.x, -p.y)
  {
  }

  /** The right half of face 14, and the part of face 15 right of the line
      x = y sqrt(3), are cut off and redrawn elsewhere (line 359). */
  predicate Splits(f: int, p: Pt)
  {
    ((f == 15 && p.x > p.y * ROOT3) || f == 14) && p.x > 0.0
  }

  /** The 60-degree turn applied to a cut-off piece (lines 360-361). */
  function Turn60(p: Pt): Pt
  {
    Pt(0.5 * p.x - 0.5 * ROOT3 * p.y, 0.5 * ROOT3 * p.x + 0.5 * p.y)
  }

  /** The turn scales squared lengths by (1 + ROOT3^2) / 4, which is 1 for
      the exact square root of 3: it is a rotation. */
  lemma Turn60Norm(x: real, y: real)
    ensures Turn60(Pt(x, y)).x * Turn60(Pt(x, y)).x + Turn60(Pt(x, y)).y * Turn60(Pt(x, y)).y
            == (1.0 + ROOT3 * ROOT3) / 4.0 * (x * x + y * y)
  {
    var a, b := 0.5 * x - 0.5 * ROOT3 * y, 0.5 * ROOT3 * x + 0.5 * y;
    assert a * a == 0.25 * x * x - 0.5 * ROOT3 * x * y + 0.25 * (ROOT3 * ROOT3) * (y * y);
    assert b * b == 0.25 * (ROOT3 * ROOT3) * (x * x) + 0.5 * ROOT3 * x * y + 0.25 * y * y;
  }

  /** The face a point ends up on after the split: 14 becomes 20 and 15
      becomes 21 on the cut-off pieces (line 362). */
  function SplitFace(f: int, p: Pt): (g: int)
    requires 0 <= f < 20
    ensures IsFace(g)
    ensures g == f + 6 <==> Splits(f, p)
    ensures g != f ==> (f == 14 && g == 20) || (f == 15 && g == 21)
  {
    if Splits(f, p) then f + 6 else f
  }

  /** The point after the split: turned by 60 degrees on a cut-off piece. */
  function SplitPoint(f: int, p: Pt): Pt
  {
    if Splits(f, p) then Turn60(p) else p
  }

  /** The layout position of face-local coordinates p on real face f (lines
      352-368): flip, split, then add the centre offset of the final face. */
  function Place(f: int, p: Pt): Pt
    requires 0 <= f < 20
  {
    Pt(SplitPoint(f, Flip(f, p)).x + CenterOffset(SplitFace(f, Flip(f, p))).x,
       SplitPoint(f, Flip(f, p)).y + CenterOffset(SplitFace(f, Flip(f, p))).y)
  }

  /** The face `from_geo` finally reports for face-local coordinates p. */
  function PlacedFace(f: int, p: Pt): int
    requires 0 <= f < 20
  {
    SplitFace(f, Flip(f, p))
  }

  /** Removing the centre offset (lines 378-379). */
  function Unplace(f: int, p: Pt): Pt
    requires IsFace(f)
  {
    Pt(p.x - CenterOffset(f).x, p.y - CenterOffset(f).y)
  }

  /** The halves of faces 14, 15, 20 and 21 that belong to the other copy
      (lines 382-389); `to_geo` answers (nan, nan) there. Only those four
      faces have such a half, and on faces 14 and 15 it is exactly the
      piece `from_geo` cuts off. */
  predicate Rejected(f: int, p: Pt)
    ensures Rejected(f, p) ==> f == 14 || f == 15 || f == 20 || f == 21
    ensures f == 14 || f == 15 ==> (Rejected(f, p) <==> Splits(f, p))
  {
    || (f == 14 && p.x > 0.0)
    || (f == 20 && -p.y * ROOT3 > p.x)
    || (f == 15 && p.x > 0.0 && p.x > p.y * ROOT3)
    || (f == 21 && (p.x < 0.0 || -p.y * ROOT3 > p.x))
  }

  /** The offset `to_geo` removes is the one `from_geo` added, for the face
      `from_geo` reports. */
  lemma UnplaceInvertsPlace(f: int, p: Pt)
    requires 0 <= f < 20
    ensures Unplace(PlacedFace(f, p), Place(f, p)) == SplitPoint(f, Flip(f, p))
  {
  }

  /** A cut-off piece turned by 60 degrees has x' < 0 exactly when
      -y' sqrt(3) > x', for any positive constant in place of sqrt(3). */
  lemma TurnedPieceSide(x: real, y: real)
    ensures -Turn60(Pt(x, y)).y * ROOT3 > Turn60(Pt(x, y)).x <==> x * (1.0 + ROOT3 * ROOT3) < 0.0
  {
  }

  /** The forward map never lands in a rejected half: whatever face
      `from_geo` reports, the point it placed there is one `to_geo` accepts. */
  lemma PlaceNeverRejected(f: int, p: Pt)
    requires 0 <= f < 20
    ensures !Rejected(PlacedFace(f, p), SplitPoint(f, Flip(f, p)))
  {
    var q := Flip(f, p);
    if Splits(f, q) {
      TurnedPieceSide(q.x, q.y);
      assert 0.0 < q.x * (1.0 + ROOT3 * ROOT3);
    }
  }

  // ---------------------------------------------------------------------
  // The grid classifier recognises every placed point.

  /** The distance, in lattice units, a point must keep from its face's
      edges for the coverage lemmas below. The double constant ROOT3, whose
      square is not exactly 3, moves the edges of the turned piece of face
      15 against the lattice by less than this. */
  const EDGE_MARGIN: real := 0.000000001

  /** Lattice coordinates (s, t) -- ARC across, ARC * sqrt(3) up -- strictly
      inside the face triangle of the triangle transform, the grid's unit
      triangle after `Conformal.Denormalize`: the triangle with corners
      (-1/2, -1/6), (1/2, -1/6) and (0, 1/3). */
  predicate InTriangle(s: real, t: real)
  {
    && t > -1.0 / 6.0 + EDGE_MARGIN
    && t < s + 1.0 / 3.0 - EDGE_MARGIN
    && t < -s + 1.0 / 3.0 - EDGE_MARGIN
  }

  /** Face-local coordinates inside the face triangle. */
  predicate InsideFace(p: Pt)
  {
    InTriangle(Normalized(p).x, Normalized(p).y)
  }

  /** The face-local point with lattice coordinates (s, t). */
  function Local(s: real, t: real): Pt
  {
    Pt(ARC * s, ARC * ROOT3 * t)
  }

  /** Lattice units undo `Local`. */
  lemma NormalizedLocal(a: real, b: real)
    ensures Normalized(Local(a, b)) == Pt(a, b)
  {
  }

  /** The height of a point above the foot of its band, for the band of
      lattice row `row`: the top band is folded down and the bottom band up
      (lines 239-251), and the middle band shifted up by a quarter. */
  function Folded(row: int, y: real): real
  {
    if row == 0 then 0.75 - y else if row == 1 then y + 0.25 else -y - 0.25
  }

  /** A point strictly inside the lattice triangle in column `col` of row
      `row`: an upright triangle for an even column, an upside-down one for
      an odd column, each with base ARC and height ARC * sqrt(3) / 2. */
  predicate InCell(row: int, col: int, q: Pt)
  {
    var y, i := Folded(row, q.y), ((col - 6) / 2) as real;
    if col % 2 == 0 then 0.0 < y && i < q.x - y && q.x + y < i + 1.0
    else y < 0.5 && q.x - y < i + 1.0 && i + 1.0 < q.x + y
  }

  /** The lattice column of a point inside a cell is that cell's column. */
  lemma ColumnOfCell(col: int, x: real, y: real)
    requires (col % 2 == 0 && 0.0 < y && ((col - 6) / 2) as real < x - y && x + y < ((col - 6) / 2) as real + 1.0)
          || (col % 2 == 1 && y < 0.5 && x - y < ((col - 6) / 2) as real + 1.0 && ((col - 6) / 2) as real + 1.0 < x + y)
    ensures GridColumn(x, y - 0.25) == col
  {
    var i := (col - 6) / 2;
    assert col == 2 * i + 6 + col % 2;
    if col % 2 == 0 {
      assert (x - y).Floor == i && (x + y).Floor == i;
    } else {
      assert (x - y).Floor == i && (x + y).Floor == i + 1;
    }
  }

  /** A point inside a cell lies strictly within its band. */
  lemma CellInBand(col: int, x: real, y: real)
    requires (col % 2 == 0 && 0.0 < y && ((col - 6) / 2) as real < x - y && x + y < ((col - 6) / 2) as real + 1.0)
          || (col % 2 == 1 && y < 0.5 && x - y < ((col - 6) / 2) as real + 1.0 && ((col - 6) / 2) as real + 1.0 < x + y)
    ensures 0.0 < y < 0.5
  {
  }

  /** The band test sends a point of the band of `row` to that row of the
      table, at its folded height. */
  lemma BandOf(row: int, q: Pt)
    requires 0 <= row < 3 && 0.0 < Folded(row, q.y) < 0.5
    ensures GridAt(q) == GridCell(row, q.x, Folded(row, q.y) - 0.25)
  {
  }

  /** Inside every lattice cell, `_find_triangle_grid` answers the cell's
      entry of FACE_ON_GRID. */
  lemma CellClassified(row: int, col: int, q: Pt)
    requires 0 <= row < 3 && 0 <= col < 11 && InCell(row, col, q)
    ensures GridAt(q) == FACE_ON_GRID[row * 11 + col]
  {
    var y := Folded(row, q.y);
    CellInBand(col, q.x, y);
    BandOf(row, q);
    ColumnOfCell(col, q.x, y);
  }

  /** The lattice cell of a face: its row and column in FACE_ON_GRID. */
  function CellRow(g: int): int
    requires IsFace(g)
  {
    CELL_OF_FACE[g] / 11
  }

  function CellColumn(g: int): int
    requires IsFace(g)
  {
    CELL_OF_FACE[g] % 11
  }

  /** Whether the cell's triangle has its apex at the top of the layout:
      upright cells of the middle band and upside-down cells of the folded
      bands. */
  predicate PointsUp(row: int, col: int)
  {
    (row == 1) == (col % 2 == 0)
  }

  /** The centroid of a lattice cell. */
  function CellCentroid(row: int, col: int): Pt
  {
    var i := ((col - 6) / 2) as real;
    var x, h := if col % 2 == 0 then i + 0.5 else i + 1.0, if col % 2 == 0 then 1.0 / 6.0 else 1.0 / 3.0;
    Pt(x, if row == 0 then 0.75 - h else if row == 1 then h - 0.25 else -h - 0.25)
  }

  /** The centre table, the flip table and the grid table describe the same
      layout: each face's centre is the centroid of its cell, and a face is
      flipped exactly when its cell points down. */
  lemma CentresAreCentroids(g: int)
    requires IsFace(g)
    ensures LatticeCenter(g) == CellCentroid(CellRow(g), CellColumn(g))
    ensures FLIP_TRIANGLE[g] != 0 <==> !PointsUp(CellRow(g), CellColumn(g))
  {
    if g < 5 {
      TopRowCentroids(g);
    } else if g < 10 {
      MiddleRowCentroidsWest(g);
    } else if g < 15 {
      MiddleRowCentroidsEast(g);
    } else {
      BottomRowCentroids(g);
    }
  }

  /** Faces 0-4, in the top band. */
  lemma TopRowCentroids(g: int)
    requires 0 <= g < 5
    ensures LatticeCenter(g) == CellCentroid(CellRow(g), CellColumn(g))
    ensures FLIP_TRIANGLE[g] != 0 <==> !PointsUp(CellRow(g), CellColumn(g))
  {
  }

  /** Faces 5-9, in the middle band. */
  lemma MiddleRowCentroidsWest(g: int)
    requires 5 <= g < 10
    ensures LatticeCenter(g) == CellCentroid(CellRow(g), CellColumn(g))
    ensures FLIP_TRIANGLE[g] != 0 <==> !PointsUp(CellRow(g), CellColumn(g))
  {
  }

  /** Faces 10-14, in the middle band. */
  lemma MiddleRowCentroidsEast(g: int)
    requires 10 <= g < 15
    ensures LatticeCenter(g) == CellCentroid(CellRow(g), CellColumn(g))
    ensures FLIP_TRIANGLE[g] != 0 <==> !PointsUp(CellRow(g), CellColumn(g))
  {
  }

  /** Faces 15-21, in the bottom band. */
  lemma BottomRowCentroids(g: int)
    requires 15 <= g < 22
    ensures LatticeCenter(g) == CellCentroid(CellRow(g), CellColumn(g))
    ensures FLIP_TRIANGLE[g] != 0 <==> !PointsUp(CellRow(g), CellColumn(g))
  {
  }

  /** A face triangle centred on a cell's centroid, turned to point the way
      the cell does, lies inside the cell. */
  lemma TriangleInCell(row: int, col: int, s: real, t: real)
    requires 0 <= row < 3 && InTriangle(s, t)
    ensures var c, k := CellCentroid(row, col), if PointsUp(row, col) then 1.0 else -1.0;
            InCell(row, col, Pt(c.x + k * s, c.y + k * t))
  {
  }

  /** The cut-off half of face 14, turned by 60 degrees, lies inside the
      cell of pseudo-face 20. */
  lemma TurnedPieceInCell20(s: real, t: real)
    requires InTriangle(s, t)
    ensures InCell(CellRow(20), CellColumn(20),
                   Pt(LatticeCenter(20).x + 0.5 * s - 0.5 * (ROOT3 * ROOT3) * t, LatticeCenter(20).y + 0.5 * s + 0.5 * t))
  {
  }

  /** The cut-off piece of face 15, flipped and then turned by 60 degrees,
      lies inside the cell of pseudo-face 21. The edge margin absorbs the
      difference between ROOT3 * ROOT3 and 3. */
  lemma TurnedPieceInCell21(s: real, t: real)
    requires InTriangle(s, t) && -s > -t * (ROOT3 * ROOT3) && -s > 0.0
    ensures InCell(CellRow(21), CellColumn(21),
                   Pt(LatticeCenter(21).x - 0.5 * s + 0.5 * (ROOT3 * ROOT3) * t, LatticeCenter(21).y - 0.5 * s - 0.5 * t))
  {
  }

  /** A face's centre offset is its lattice centre in layout units. */
  lemma CenterOffsetLocal(g: int)
    requires IsFace(g)
    ensures CenterOffset(g) == Local(LatticeCenter(g).x, LatticeCenter(g).y)
  {
  }

  /** The flip in lattice units. */
  lemma FlipLocal(f: int, s: real, t: real)
    requires IsFace(f)
    ensures Flip(f, Local(s, t)) == Local(Sign(f) * s, Sign(f) * t)
  {
  }

  /** -1 for a flipped face, 1 otherwise. */
  function Sign(f: int): real
    requires IsFace(f)
  {
    if FLIP_TRIANGLE[f] != 0 then -1.0 else 1.0
  }

  /** An uncut point is placed at its face's lattice centre plus the
      flipped offset. */
  lemma UncutPlace(f: int, s: real, t: real)
    requires 0 <= f < 20 && !Splits(f, Flip(f, Local(s, t)))
    ensures Normalized(Place(f, Local(s, t))) == Pt(LatticeCenter(f).x + Sign(f) * s, LatticeCenter(f).y + Sign(f) * t)
  {
    var k, c := Sign(f), LatticeCenter(f);
    FlipLocal(f, s, t);
    CenterOffsetLocal(f);
    assert Place(f, Local(s, t)) == Local(c.x + k * s, c.y + k * t);
    NormalizedLocal(c.x + k * s, c.y + k * t);
  }

  /** A face triangle around a face's lattice centre, flipped as the face
      is, lies inside the face's cell. */
  lemma FaceTriangleInCell(g: int, s: real, t: real)
    requires IsFace(g) && InTriangle(s, t)
    ensures InCell(CellRow(g), CellColumn(g), Pt(LatticeCenter(g).x + Sign(g) * s, LatticeCenter(g).y + Sign(g) * t))
  {
    CentresAreCentroids(g);
    TriangleInCell(CellRow(g), CellColumn(g), s, t);
  }

  /** A face triangle that is not cut lies in its own cell. */
  lemma UncutInCell(f: int, s: real, t: real)
    requires 0 <= f < 20 && InTriangle(s, t) && !Splits(f, Flip(f, Local(s, t)))
    ensures InCell(CellRow(f), CellColumn(f), Normalized(Place(f, Local(s, t))))
  {
    UncutPlace(f, s, t);
    FaceTriangleInCell(f, s, t);
  }

  /** The 60-degree turn in lattice units. */
  lemma Turn60Local(a: real, b: real)
    ensures Turn60(Local(a, b)) == Local(0.5 * a - 0.5 * (ROOT3 * ROOT3) * b, 0.5 * a + 0.5 * b)
  {
  }

  /** The cut-off half of face 14 is placed on pseudo-face 20, turned. */
  lemma CutPlace14(s: real, t: real)
    requires Splits(14, Flip(14, Local(s, t)))
    ensures PlacedFace(14, Local(s, t)) == 20
    ensures Normalized(Place(14, Local(s, t)))
            == Pt(LatticeCenter(20).x + 0.5 * s - 0.5 * (ROOT3 * ROOT3) * t, LatticeCenter(20).y + 0.5 * s + 0.5 * t)
  {
    var a, b := 0.5 * s - 0.5 * (ROOT3 * ROOT3) * t, 0.5 * s + 0.5 * t;
    var c := LatticeCenter(20);
    FlipLocal(14, s, t);
    Turn60Local(s, t);
    CenterOffsetLocal(20);
    assert Place(14, Local(s, t)) == Local(c.x + a, c.y + b);
    NormalizedLocal(c.x + a, c.y + b);
  }

  /** The cut-off piece of face 15 is placed on pseudo-face 21, flipped and
      turned. */
  lemma CutPlace15(s: real, t: real)
    requires Splits(15, Flip(15, Local(s, t)))
    ensures -s > -t * (ROOT3 * ROOT3) && -s > 0.0
    ensures PlacedFace(15, Local(s, t)) == 21
    ensures Normalized(Place(15, Local(s, t)))
            == Pt(LatticeCenter(21).x - 0.5 * s + 0.5 * (ROOT3 * ROOT3) * t, LatticeCenter(21).y - 0.5 * s - 0.5 * t)
  {
    var a, b := -0.5 * s + 0.5 * (ROOT3 * ROOT3) * t, -0.5 * s - 0.5 * t;
    var c := LatticeCenter(21);
    FlipLocal(15, s, t);
    assert ARC * -s > ARC * ROOT3 * -t * ROOT3;
    Turn60Local(-s, -t);
    CenterOffsetLocal(21);
    assert Place(15, Local(s, t)) == Local(c.x + a, c.y + b);
    NormalizedLocal(c.x + a, c.y + b);
  }

  /** Wherever in its face triangle a point lies, `from_geo` places it
      inside the lattice cell of the face it reports. */
  lemma PlacedInCell(f: int, s: real, t: real)
    requires 0 <= f < 20 && InTriangle(s, t)
    ensures var g := PlacedFace(f, Local(s, t));
            InCell(CellRow(g), CellColumn(g), Normalized(Place(f, Local(s, t))))
  {
    if !Splits(f, Flip(f, Local(s, t))) {
      UncutInCell(f, s, t);
    } else if f == 14 {
      CutPlace14(s, t);
      TurnedPieceInCell20(s, t);
    } else {
      CutPlace15(s, t);
      TurnedPieceInCell21(s, t);
    }
  }

  /** The two classifiers agree: wherever inside its face triangle the
      triangle transform puts a point, `_find_triangle_grid` at the layout
      position `from_geo` computes answers the face `from_geo` reports,
      the pseudo-faces 20 and 21 included for the cut-off pieces. */
  lemma PlacedFaceRecognised(f: int, p: Pt)
    requires 0 <= f < 20 && InsideFace(p)
    ensures FindTriangleGrid(Place(f, p).x, Place(f, p).y) == PlacedFace(f, p)
  {
    var s, t := Normalized(p).x, Normalized(p).y;
    assert p == Local(s, t);
    var g := PlacedFace(f, p);
    PlacedInCell(f, s, t);
    GridTableIsPlacement();
    CellClassified(CellRow(g), CellColumn(g), Normalized(Place(f, p)));
  }

  // ---------------------------------------------------------------------
  // The whole projection, with the spherical trigonometry kept abstract.

  /** The trigonometric part of the projection, which this model does not
      compute: the lon/lat to unit-vector conversion of `from_geo`, the 22
      face centroids and rotation matrices `_initialize_matrices` builds,
      the arctangent `_triangle_transform`, its Newton-on-tangents inverse,
      and the atan2/acos conversion back to latitude and longitude. The two
      triangle transforms divide by quantities that can vanish; `None` is
      the ZeroDivisionError they then raise. */
  datatype Sphere = Sphere(
    cart: (real, real) -> Vec3,
    centroid: seq<Vec3>,
    rotation: seq<Mat3>,
    inverse: seq<Mat3>,
    triangle: Vec3 -> Option<Pt>,
    inverseTriangle: Pt -> Option<Vec3>,
    latitude: Vec3 -> real,
    longitude: Vec3 -> real)
  {
    /** One centroid and one matrix of each kind per face, 22 in all. */
    predicate Valid()
    {
      |centroid| == 22 && |rotation| == 22 && |inverse| == 22
    }
  }

  /** The face `from_geo` classifies a geographic point into. */
  function ForwardFace(sp: Sphere, lon: real, lat: real): (f: int)
    requires sp.Valid()
    ensures 0 <= f < 20
  {
    FindTriangle(sp.centroid, sp.cart(lon, lat))
  }

  /** The face-local coordinates of a geographic point on that face. */
  function FaceLocal(sp: Sphere, lon: real, lat: real): Option<Pt>
    requires sp.Valid()
  {
    sp.triangle(Apply(sp.rotation[ForwardFace(sp, lon, lat)], sp.cart(lon, lat)))
  }

  /** `Airocean.from_geo(lon, lat)` (lines 324-368): a layout point, or the
      error the triangle transform raised. */
  function FromGeo(sp: Sphere, lon: real, lat: real): (r: Coords)
    requires sp.Valid()
    ensures r.Pair? <==> FaceLocal(sp, lon, lat).Some?
    ensures r.Pair? ==> Pt(r.a, r.b) == Place(ForwardFace(sp, lon, lat), FaceLocal(sp, lon, lat).value)
    ensures r != OutOfBounds
  {
    match FaceLocal(sp, lon, lat)
    case None => ZeroDivision
    case Some(p) => Pair(Place(ForwardFace(sp, lon, lat), p).x, Place(ForwardFace(sp, lon, lat), p).y)
  }

  /** The geographic point of a unit vector, in `to_geo`'s (latitude,
      longitude) order. */
  function LatLon(sp: Sphere, w: Vec3): Coords
  {
    Pair(sp.latitude(w), sp.longitude(w))
  }

  /** The steps of `to_geo` after the rejection tests: unflip, invert the
      triangle transform, rotate back with the face's inverse matrix. */
  function Unproject(sp: Sphere, g: int, q: Pt): (r: Coords)
    requires sp.Valid() && IsFace(g)
    ensures r != OutOfBounds
    ensures r.ZeroDivision? <==> sp.inverseTriangle(Flip(g, q)).None?
    ensures r.Pair? ==> r == LatLon(sp, Apply(sp.inverse[g], sp.inverseTriangle(Flip(g, q)).value))
  {
    match sp.inverseTriangle(Flip(g, q))
    case None => ZeroDivision
    case Some(w) => LatLon(sp, Apply(sp.inverse[g], w))
  }

  /** `Airocean.to_geo(x, y)` (lines 370-415): note that it answers
      (latitude, longitude), the reverse of `from_geo`'s argument order. */
  function ToGeo(sp: Sphere, x: real, y: real): (r: Coords)
    requires sp.Valid()
    ensures FindTriangleGrid(x, y) == -1 ==> r == OutOfBounds
    ensures FindTriangleGrid(x, y) != -1 && Rejected(FindTriangleGrid(x, y), Unplace(FindTriangleGrid(x, y), Pt(x, y))) ==> r == OutOfBounds
    ensures r == OutOfBounds ==> FindTriangleGrid(x, y) == -1 || Rejected(FindTriangleGrid(x, y), Unplace(FindTriangleGrid(x, y), Pt(x, y)))
  {
    if FindTriangleGrid(x, y) == -1 then OutOfBounds
    else if Rejected(FindTriangleGrid(x, y), Unplace(FindTriangleGrid(x, y), Pt(x, y))) then OutOfBounds
    else Unproject(sp, FindTriangleGrid(x, y), Unplace(FindTriangleGrid(x, y), Pt(x, y)))
  }

  /** The discrete half of the round trip: whenever the triangle transform
      puts a point inside its face triangle, `to_geo` recognises the face
      `from_geo` placed it on, accepts the point and hands the inverse
      triangle transform the face-local coordinates `from_geo` computed,
      after the split, flipped as the final face's entry in FLIP_TRIANGLE
      says. */
  lemma ToGeoOfFromGeo(sp: Sphere, lon: real, lat: real)
    requires sp.Valid()
    requires FromGeo(sp, lon, lat).Pair? && InsideFace(FaceLocal(sp, lon, lat).value)
    ensures var f := ForwardFace(sp, lon, lat);
            var p := FaceLocal(sp, lon, lat).value;
            ToGeo(sp, FromGeo(sp, lon, lat).a, FromGeo(sp, lon, lat).b)
            == Unproject(sp, PlacedFace(f, p), SplitPoint(f, Flip(f, p)))
  {
    var f := ForwardFace(sp, lon, lat);
    var p := FaceLocal(sp, lon, lat).value;
    PlacedFaceRecognised(f, p);
    UnplaceInvertsPlace(f, p);
    PlaceNeverRejected(f, p);
  }
}
