/** The package's public interface: the projection pipeline built once at
    import time (the modified Airocean projection, oriented north-up, then
    scaled to Minecraft blocks), and the four conversion functions over it.

    Models terrapyconvert/__init__.py and
    terrapyconvert/projection/orientation.py.
 */
module Api {
  import opened Geometry
  import VectorField
  import Airocean
  import Conformal
  import ModifiedAirocean
  import Projections

  /** `Orientation`: NONE is `Unoriented` here, so as not to clash with
      the absent value of `Option`. */
  datatype Orientation = Unoriented | Upright | Swapped

  /** `_orient_projection` (lines 21-33). An upright base asked to be
      upright is returned as it is; any other upright base is first
      flipped. Then SWAPPED wraps a swap-XY and UPRIGHT a flip-Y around
      the result. `None` is a raise from the base's `upright()`. */
  function OrientProjection(base: Projections.Projection, o: Orientation): (r: Option<Projections.Projection>)
    ensures r.Some? <==> Projections.IsUpright(base).Some?
    ensures r.Some? ==> Projections.IsUpright(r.value) == Some(o == Upright)
    ensures r.Some? ==> r.value.Root() == base.Root() && r.value.Depth() <= base.Depth() + 2
    ensures Projections.IsUpright(base) == Some(true) && o == Upright ==> r == Some(base)
    ensures r.Some? && o == Swapped ==> r.value.Inverted?
    ensures r.Some? && o != Swapped && Projections.Reversible(base) ==> Projections.Reversible(r.value)
    ensures Projections.IsUpright(base) == Some(true) && o == Unoriented ==> r == Some(Projections.Upright(base))
    ensures Projections.IsUpright(base) == Some(true) && o == Swapped ==> r == Some(Projections.Inverted(Projections.Upright(base)))
    ensures Projections.IsUpright(base) == Some(false) && o == Unoriented ==> r == Some(base)
    ensures Projections.IsUpright(base) == Some(false) && o == Upright ==> r == Some(Projections.Upright(base))
    ensures Projections.IsUpright(base) == Some(false) && o == Swapped ==> r == Some(Projections.Inverted(base))
  {
    var u := Projections.IsUpright(base);
    if u.None? then None
    else if u.value && o == Upright then Some(base)
    else
      var b := if u.value then Projections.Upright(base) else base;
      if o == Swapped then Some(Projections.Inverted(b))
      else if o == Upright then Some(Projections.Upright(b))
      else Some(b)
  }

  /** Orienting twice the same way changes nothing the second time: the
      first call already produced a projection whose `upright()` is what
      the orientation asks for, so an UPRIGHT request returns it as is. */
  lemma OrientUprightIdempotent(base: Projections.Projection)
    requires OrientProjection(base, Upright).Some?
    ensures OrientProjection(OrientProjection(base, Upright).value, Upright) == OrientProjection(base, Upright)
  {
  }

  /** The blocks per projection unit of `ScaleProjection` in line 38, the
      same on both axes. */
  const SCALE: real := 7318261.522857145

  /** The base projection line 36 builds. The pipeline and the public
      functions below are stated for any base record; this is the one the
      package uses. */
  function Modified(sp: Airocean.Sphere, f: VectorField.Field, t: Turn): Projections.Base
    requires sp.Valid() && f.Triangular()
  {
    Projections.ModifiedBase(sp, f, t)
  }

  /** Lines 37-38: the base oriented north-up, then scaled to blocks; or
      `None` if building it raises (the `upright()` test calls `from_geo`
      at both poles). */
  function Pipeline(b: Projections.Base): (p: Option<Projections.Projection>)
    ensures p.Some? <==> Projections.BaseUpright(b).Some?
    ensures p.Some? ==> Projections.IsUpright(p.value) == Some(true)
    ensures p.Some? ==> p.value.Root() == b
    ensures p.Some? ==> Projections.Reversible(p.value)
  {
    var o := OrientProjection(Projections.Leaf(b), Upright);
    if o.Some? then Some(Projections.Scale(o.value, SCALE, SCALE)) else None
  }

  /** Whether the base passed `upright()`, so that the orientation step
      left it unflipped. */
  function Upward(b: Projections.Base): bool
    requires Pipeline(b).Some?
  {
    Projections.BaseUpright(b).value
  }

  /** A y value, negated unless `up`. */
  function Signed(up: bool, v: real): real
  {
    if up then v else -v
  }

  /** The pipeline is the base, flipped if it was not upright, then
      scaled. */
  lemma PipelineShape(b: Projections.Base)
    requires Pipeline(b).Some?
    ensures Pipeline(b).value == Projections.Scale(if Upward(b) then Projections.Leaf(b) else Projections.Upright(Projections.Leaf(b)), SCALE, SCALE)
  {
  }

  /** `from_geo(lat, lon)` (lines 41-53): note the argument order, the
      reverse of the projections' `from_geo(lon, lat)`. The base's point,
      its y negated if the base was flipped, times SCALE. */
  function FromGeo(b: Projections.Base, lat: real, lon: real): (r: Coords)
    requires Pipeline(b).Some?
    ensures r.Pair? <==> b.fromGeo(lon, lat).Pair?
    ensures r == OutOfBounds <==> b.fromGeo(lon, lat) == OutOfBounds
    ensures var c := b.fromGeo(lon, lat);
            c.Pair? ==> r == Pair(c.a * SCALE, Signed(Upward(b), c.b) * SCALE)
  {
    PipelineShape(b);
    if Upward(b) then
      assert Projections.FromGeo(Projections.Leaf(b), lon, lat) == b.fromGeo(lon, lat);
      Projections.FromGeo(Pipeline(b).value, lon, lat)
    else
      assert Projections.FromGeo(Projections.Upright(Projections.Leaf(b)), lon, lat)
             == if b.fromGeo(lon, lat).Pair? then Pair(b.fromGeo(lon, lat).a, -b.fromGeo(lon, lat).b) else b.fromGeo(lon, lat);
      Projections.FromGeo(Pipeline(b).value, lon, lat)
  }

  /** `to_geo(x, z)` (lines 71-83): the block coordinates divided by
      SCALE, y negated back if the orientation flipped it, and handed to
      the base's inverse; the answer is in the base's (latitude, longitude)
      order. */
  function ToGeo(b: Projections.Base, x: real, z: real): (r: Coords)
    requires Pipeline(b).Some?
    ensures r == b.toGeo(x / SCALE, Signed(Upward(b), z / SCALE))
  {
    PipelineShape(b);
    if Upward(b) then
      assert Projections.ToGeo(Projections.Leaf(b), x / SCALE, z / SCALE) == b.toGeo(x / SCALE, z / SCALE);
      Projections.ToGeo(Pipeline(b).value, x, z)
    else
      assert Projections.ToGeo(Projections.Upright(Projections.Leaf(b)), x / SCALE, z / SCALE) == b.toGeo(x / SCALE, -(z / SCALE));
      Projections.ToGeo(Pipeline(b).value, x, z)
  }

  /** The public pair is transparent: `to_geo` of `from_geo(lat, lon)`
      hands the base's inverse exactly the base's forward point. */
  lemma RoundTrip(b: Projections.Base, lat: real, lon: real)
    requires Pipeline(b).Some? && FromGeo(b, lat, lon).Pair?
    ensures ToGeo(b, FromGeo(b, lat, lon).a, FromGeo(b, lat, lon).b)
            == b.toGeo(b.fromGeo(lon, lat).a, b.fromGeo(lon, lat).b)
  {
    Projections.RoundTripThroughDecorators(Pipeline(b).value, lon, lat);
  }

  /** The whole discrete round trip through the package's interface: when
      the modified layout infers the part `from_geo` used and the corrected
      triangle transform puts the point inside its face triangle, `to_geo`
      of `from_geo(lat, lon)` hands the corrected triangle inverse, on the
      face the point was placed on, the face-local point the forward map
      computed, split and flipped as that face says. */
  lemma ModifiedRoundTrip(sp: Airocean.Sphere, f: VectorField.Field, t: Turn, lat: real, lon: real)
    requires sp.Valid() && f.Triangular() && t.Valid() && Pipeline(Modified(sp, f, t)).Some?
    requires FromGeo(Modified(sp, f, t), lat, lon).Pair?
    requires var m := ModifiedAirocean.FromGeo(sp, f, t, lon, lat);
             var c := Airocean.FromGeo(Conformal.ConformalSphere(sp, f), lon, lat);
             ModifiedAirocean.InferEurasian(m.a, m.b) == ModifiedAirocean.IsEurasianPart(c.a, c.b)
    requires Airocean.InsideFace(Airocean.FaceLocal(Conformal.ConformalSphere(sp, f), lon, lat).value)
    ensures var b := Modified(sp, f, t);
            var cs := Conformal.ConformalSphere(sp, f);
            var g := Airocean.ForwardFace(cs, lon, lat);
            var p := Airocean.FaceLocal(cs, lon, lat).value;
            ToGeo(b, FromGeo(b, lat, lon).a, FromGeo(b, lat, lon).b)
            == Airocean.Unproject(cs, Airocean.PlacedFace(g, p), Airocean.SplitPoint(g, Airocean.Flip(g, p)))
  {
    RoundTrip(Modified(sp, f, t), lat, lon);
    ModifiedAirocean.ToGeoOfFromGeo(sp, f, t, lon, lat);
    Airocean.ToGeoOfFromGeo(Conformal.ConformalSphere(sp, f), lon, lat);
  }

  /** A float of a returned dict: a number, or the NaN of an out-of-bounds
      answer. */
  datatype Num = Finite(value: real) | NaN

  /** The dict entries of one result: `None` when the call raised. */
  function Entries(c: Coords, k1: string, k2: string): (m: Option<map<string, Num>>)
    requires k1 != k2
    ensures m.Some? <==> !c.ZeroDivision?
    ensures m.Some? ==> m.value.Keys == {k1, k2}
    ensures c.Pair? ==> m == Some(map[k1 := Finite(c.a), k2 := Finite(c.b)])
    ensures c.OutOfBounds? ==> m == Some(map[k1 := NaN, k2 := NaN])
  {
    match c
    case Pair(a, b) => Some(map[k1 := Finite(a), k2 := Finite(b)])
    case OutOfBounds => Some(map[k1 := NaN, k2 := NaN])
    case ZeroDivision => None
  }

  /** `from_geo_object(lat, lon)` (lines 56-68): `from_geo` as
      {"x": x, "z": z}, NaN for both when out of bounds. */
  function FromGeoObject(b: Projections.Base, lat: real, lon: real): (m: Option<map<string, Num>>)
    requires Pipeline(b).Some?
    ensures m.Some? <==> !FromGeo(b, lat, lon).ZeroDivision?
    ensures m.Some? ==> m.value.Keys == {"x", "z"}
    ensures FromGeo(b, lat, lon).Pair? ==>
              m.value["x"] == Finite(FromGeo(b, lat, lon).a) && m.value["z"] == Finite(FromGeo(b, lat, lon).b)
    ensures FromGeo(b, lat, lon).OutOfBounds? ==> m.value["x"] == NaN && m.value["z"] == NaN
  {
    Entries(FromGeo(b, lat, lon), "x", "z")
  }

  /** `to_geo_object(x, z)` (lines 86-98): `to_geo` as
      {"lat": lat, "lon": lon}, NaN for both when out of bounds. */
  function ToGeoObject(b: Projections.Base, x: real, z: real): (m: Option<map<string, Num>>)
    requires Pipeline(b).Some?
    ensures m.Some? <==> !ToGeo(b, x, z).ZeroDivision?
    ensures m.Some? ==> m.value.Keys == {"lat", "lon"}
    ensures ToGeo(b, x, z).Pair? ==>
              m.value["lat"] == Finite(ToGeo(b, x, z).a) && m.value["lon"] == Finite(ToGeo(b, x, z).b)
    ensures ToGeo(b, x, z).OutOfBounds? ==> m.value["lat"] == NaN && m.value["lon"] == NaN
  {
    Entries(ToGeo(b, x, z), "lat", "lon")
  }
}
