/** The world layout of the modified Airocean projection: the corrected
    Airocean map is cut along a piecewise-linear line through the Bering
    strait, the Eurasian part is shifted and turned by -150 degrees, the
    American part is shifted the other way, and the result is turned a
    quarter turn so that north points up.

    Models terrapyconvert/projection/core/modified_airocean.py.
 */
module ModifiedAirocean {
  import opened Geometry
  import VectorField
  import Airocean
  import Conformal

  // ---------------------------------------------------------------------
  // The boundary between Eurasia and the Americas (lines 17-36).

  const BERING_X: real := -0.3420420960118339
  const BERING_Y: real := -0.322211064085279
  const ARCTIC_Y: real := -0.2
  const ALEUTIAN_Y: real := -0.5000446805492526
  const ALEUTIAN_XL: real := -0.5149231279757507
  const ALEUTIAN_XR: real := -0.45

  /** The slope and intercept of the line across the Arctic ocean. */
  const ARCTIC_M: real := (ARCTIC_Y - ROOT3 * ARC / 4.0) / (BERING_X - (-0.5 * ARC))
  const ARCTIC_B: real := ARCTIC_Y - ARCTIC_M * BERING_X

  /** The slope and intercept of the line along the Aleutian islands. */
  const ALEUTIAN_M: real := (BERING_Y - ALEUTIAN_Y) / (BERING_X - ALEUTIAN_XR)
  const ALEUTIAN_B: real := BERING_Y - ALEUTIAN_M * BERING_X

  /** The two derived lines pass through the reference points they were
      built from: the Arctic line joins (BERING_X, ARCTIC_Y) to the corner
      (-ARC/2, sqrt(3) ARC/4), and the Aleutian line joins
      (BERING_X, BERING_Y) to (ALEUTIAN_XR, ALEUTIAN_Y). */
  lemma BoundaryLines()
    ensures ARCTIC_M * BERING_X + ARCTIC_B == ARCTIC_Y
    ensures ARCTIC_M * (-0.5 * ARC) + ARCTIC_B == ROOT3 * ARC / 4.0
    ensures ALEUTIAN_M * BERING_X + ALEUTIAN_B == BERING_Y
    ensures ALEUTIAN_M * ALEUTIAN_XR + ALEUTIAN_B == ALEUTIAN_Y
  {
  }

  /** The Arctic line falls and the Aleutian line rises towards the east. */
  lemma BoundarySlopes()
    ensures ARCTIC_M < 0.0 && ALEUTIAN_M > 0.0
  {
  }

  /** `_is_eurasian_part` (lines 38-57): which side of the boundary a point
      of the Airocean layout lies on. */
  function IsEurasianPart(x: real, y: real): (r: bool)
    ensures x > 0.0 ==> !r
    ensures x < -0.5 * ARC ==> r
    ensures -0.5 * ARC <= x <= 0.0 && y > ROOT3 * ARC / 4.0 ==> (r <==> x < 0.0)
  {
    if x > 0.0 then false
    else if x < -0.5 * ARC then true
    else if y > ROOT3 * ARC / 4.0 then x < 0.0
    else if y < ALEUTIAN_Y then y < (ALEUTIAN_Y + ALEUTIAN_XL) - x
    else if y > BERING_Y then
      if y < ARCTIC_Y then x < BERING_X
      else y < ARCTIC_M * x + ARCTIC_B
    else y > ALEUTIAN_M * x + ALEUTIAN_B
  }

  /** The boundary is a graph over y: along any horizontal line, every
      point west of a Eurasian point is Eurasian too. */
  lemma EurasiaExtendsWest(x1: real, x2: real, y: real)
    requires x1 <= x2 && IsEurasianPart(x2, y)
    ensures IsEurasianPart(x1, y)
  {
    BoundarySlopes();
    if -0.5 * ARC <= x1 && y <= ROOT3 * ARC / 4.0 && ALEUTIAN_Y <= y {
      if y > BERING_Y && y >= ARCTIC_Y {
        assert -ARCTIC_M * (x2 - x1) >= 0.0;
        assert ARCTIC_M * x2 <= ARCTIC_M * x1;
      } else if y <= BERING_Y {
        assert ALEUTIAN_M * (x2 - x1) >= 0.0;
        assert ALEUTIAN_M * x1 <= ALEUTIAN_M * x2;
      }
    }
  }

  // ---------------------------------------------------------------------
  // The layout map and its inverse.

  /** The rotation of a point by the turn (cos, sin). */
  function Rotate(t: Turn, p: Pt): Pt
  {
    Pt(t.cos * p.x - t.sin * p.y, t.sin * p.x + t.cos * p.y)
  }

  /** The rotation back, as `to_geo` writes it (lines 101-103). */
  function RotateBack(t: Turn, p: Pt): Pt
  {
    Pt(t.cos * p.x + t.sin * p.y, t.cos * p.y - t.sin * p.x)
  }

  /** For a turn on the unit circle the two rotations undo each other. */
  lemma RotateBackRotate(t: Turn, p: Pt)
    requires t.Valid()
    ensures RotateBack(t, Rotate(t, p)) == p
    ensures Rotate(t, RotateBack(t, p)) == p
  {
    var c, s := t.cos, t.sin;
    assert c * (c * p.x - s * p.y) + s * (s * p.x + c * p.y) == (c * c + s * s) * p.x;
    assert c * (s * p.x + c * p.y) - s * (c * p.x - s * p.y) == (c * c + s * s) * p.y;
    assert c * (c * p.x + s * p.y) - s * (c * p.y - s * p.x) == (c * c + s * s) * p.x;
    assert s * (c * p.x + s * p.y) + c * (c * p.y - s * p.x) == (c * c + s * s) * p.y;
  }

  /** Lines 66-80: drop by 3/4 of a face height, shift Eurasia east and
      turn it by THETA, shift the Americas west, then turn everything a
      quarter turn clockwise, (x, y) to (y, -x). */
  function Remap(easia: bool, t: Turn, p: Pt): (q: Pt)
    ensures !easia ==> q == Pt(p.y - 0.75 * ARC * ROOT3, -(p.x - ARC))
  {
    var lowered := Pt(p.x, p.y - 0.75 * ARC * ROOT3);
    var placed := if easia then Rotate(t, Pt(lowered.x + ARC, lowered.y)) else Pt(lowered.x - ARC, lowered.y);
    Pt(placed.y, -placed.x)
  }

  /** Lines 94-108: the quarter turn back, then per part the rotation back
      and shift, then the lift by 3/4 of a face height. */
  function Unmap(easia: bool, t: Turn, q: Pt): (p: Pt)
    ensures !easia ==> p == Pt(ARC - q.y, q.x + 0.75 * ARC * ROOT3)
  {
    var turned := Pt(-q.y, q.x);
    var placed := if easia then var b := RotateBack(t, turned); Pt(b.x - ARC, b.y) else Pt(turned.x + ARC, turned.y);
    Pt(placed.x, placed.y + 0.75 * ARC * ROOT3)
  }

  /** For either part, `to_geo`'s unmapping inverts `from_geo`'s mapping
      exactly, in both orders. */
  lemma UnmapRemap(easia: bool, t: Turn, p: Pt)
    requires t.Valid()
    ensures Unmap(easia, t, Remap(easia, t, p)) == p
    ensures Remap(easia, t, Unmap(easia, t, p)) == p
  {
    RotateBackRotate(t, Pt(p.x + ARC, p.y - 0.75 * ARC * ROOT3));
    RotateBackRotate(t, Pt(-p.y, p.x));
  }

  /** Lines 87-92: the part `to_geo` assumes a layout point came from,
      read off the final layout. */
  function InferEurasian(x: real, y: real): bool
  {
    if y < 0.0 then x > 0.0
    else if y > ARC / 2.0 then x > -ROOT3 * ARC / 2.0
    else y * -ROOT3 < x
  }

  /** The inferred split is a graph over y as well: along any horizontal
      line of the final layout, every point east of one inferred Eurasian is
      inferred Eurasian too. */
  lemma InferredEurasiaExtendsEast(x1: real, x2: real, y: real)
    requires x1 <= x2 && InferEurasian(x1, y)
    ensures InferEurasian(x2, y)
  {
  }

  // ---------------------------------------------------------------------
  // The projection.

  /** `ModifiedAirocean.from_geo` (lines 59-82): the corrected Airocean
      point, remapped according to its part. */
  function FromGeo(sp: Airocean.Sphere, f: VectorField.Field, t: Turn, lon: real, lat: real): (r: Coords)
    requires sp.Valid() && f.Triangular()
    ensures r.Pair? <==> Airocean.FromGeo(Conformal.ConformalSphere(sp, f), lon, lat).Pair?
    ensures r != OutOfBounds
  {
    var c := Airocean.FromGeo(Conformal.ConformalSphere(sp, f), lon, lat);
    if c.Pair? then
      var q := Remap(IsEurasianPart(c.a, c.b), t, Pt(c.a, c.b));
      Pair(q.x, q.y)
    else c
  }

  /** The Airocean point `to_geo` recovers from a layout point. */
  function Recover(t: Turn, x: real, y: real): Pt
  {
    Unmap(InferEurasian(x, y), t, Pt(x, y))
  }

  /** `ModifiedAirocean.to_geo` (lines 84-114): unmap according to the
      inferred part; answer (nan, nan) when the recovered point does not
      lie in that part, and otherwise hand it to the corrected Airocean
      inverse. */
  function ToGeo(sp: Airocean.Sphere, f: VectorField.Field, t: Turn, x: real, y: real): (r: Coords)
    requires sp.Valid() && f.Triangular()
    ensures InferEurasian(x, y) != IsEurasianPart(Recover(t, x, y).x, Recover(t, x, y).y) ==> r == OutOfBounds
    ensures InferEurasian(x, y) == IsEurasianPart(Recover(t, x, y).x, Recover(t, x, y).y) ==>
              r == Airocean.ToGeo(Conformal.ConformalSphere(sp, f), Recover(t, x, y).x, Recover(t, x, y).y)
  {
    var p := Recover(t, x, y);
    if InferEurasian(x, y) != IsEurasianPart(p.x, p.y) then OutOfBounds
    else Airocean.ToGeo(Conformal.ConformalSphere(sp, f), p.x, p.y)
  }

  /** The layout layer is transparent to the round trip: whenever `to_geo`
      infers the part `from_geo` used, it passes the corrected Airocean
      inverse exactly the point the corrected Airocean forward map made,
      and the seam check lets it through. */
  lemma ToGeoOfFromGeo(sp: Airocean.Sphere, f: VectorField.Field, t: Turn, lon: real, lat: real)
    requires sp.Valid() && f.Triangular() && t.Valid()
    requires FromGeo(sp, f, t, lon, lat).Pair?
    requires var c := Airocean.FromGeo(Conformal.ConformalSphere(sp, f), lon, lat);
             InferEurasian(FromGeo(sp, f, t, lon, lat).a, FromGeo(sp, f, t, lon, lat).b) == IsEurasianPart(c.a, c.b)
    ensures var c := Airocean.FromGeo(Conformal.ConformalSphere(sp, f), lon, lat);
            ToGeo(sp, f, t, FromGeo(sp, f, t, lon, lat).a, FromGeo(sp, f, t, lon, lat).b)
            == Airocean.ToGeo(Conformal.ConformalSphere(sp, f), c.a, c.b)
  {
    var c := Airocean.FromGeo(Conformal.ConformalSphere(sp, f), lon, lat);
    UnmapRemap(IsEurasianPart(c.a, c.b), t, Pt(c.a, c.b));
  }

  /** `ModifiedAirocean.bounds` (lines 116-123): a fixed rectangle, as
      [min_x, min_y, max_x, max_y]. */
  function Bounds(): (b: seq<real>)
    ensures |b| == 4 && b[0] < b[2] && b[1] < b[3]
    ensures b[2] - b[0] == (3.0 + 1.5 * ROOT3) * ARC && b[3] - b[1] == (ROOT3 + 1.5) * ARC
  {
    [-1.5 * ARC * ROOT3, -1.5 * ARC, 3.0 * ARC, ROOT3 * ARC]
  }
}
