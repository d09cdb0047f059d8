/** The projection objects and their decorators: a base projection
    (the identity `GeographicProjection` or one of the icosahedral
    projections), and the scale, flip-Y and swap-XY wrappers that each hold
    one inner projection and delegate to it.

    Models terrapyconvert/projection/geographic_projection.py,
    projection_transform.py, scale_projection.py,
    transforms/upright_orientation.py and inverted_orientation.py.
 */
module Projections {
  import opened Geometry
  import VectorField
  import Airocean
  import Conformal
  import ModifiedAirocean

  /** `bounds()` as [min_x, min_y, max_x, max_y]. */
  datatype Box = Box(minX: real, minY: real, maxX: real, maxY: real)
  {
    predicate Ordered()
    {
      minX <= maxX && minY <= maxY
    }
  }

  /** A class that implements `GeographicProjection` itself: its two maps,
      the rectangle it returns if it overrides `bounds`, and its
      `meters_per_unit`. `upright` and the default `bounds` are computed
      from `fromGeo`, as the base class does. */
  datatype Base = Base(fromGeo: (real, real) -> Coords,
                       toGeo: (real, real) -> Coords,
                       fixedBounds: Option<Box>,
                       metersPerUnit: real)
  {
    /** No base class answers (nan, nan) from `from_geo`; it returns a
        point or raises. */
    ghost predicate Valid()
    {
      forall lon: real, lat: real :: fromGeo(lon, lat) != OutOfBounds
    }
  }

  /** `GeographicProjection` itself (geographic_projection.py lines
      14-24): identity maps and 100000 meters per unit. */
  function Geographic(): (b: Base)
    ensures b.Valid()
    ensures forall lon: real, lat: real :: b.fromGeo(lon, lat) == Pair(lon, lat) && b.toGeo(lon, lat) == Pair(lon, lat)
    ensures b.fixedBounds.None? && b.metersPerUnit == 100000.0
  {
    Base((lon: real, lat: real) => Pair(lon, lat), (x: real, y: real) => Pair(x, y), None, 100000.0)
  }

  /** `Airocean`, which keeps the default `bounds` and `meters_per_unit`. */
  function AiroceanBase(sp: Airocean.Sphere): (b: Base)
    requires sp.Valid()
    ensures b.Valid()
    ensures forall lon: real, lat: real :: b.fromGeo(lon, lat) == Airocean.FromGeo(sp, lon, lat)
    ensures forall x: real, y: real :: b.toGeo(x, y) == Airocean.ToGeo(sp, x, y)
    ensures b.fixedBounds.None? && b.metersPerUnit == 100000.0
  {
    Base((lon: real, lat: real) => Airocean.FromGeo(sp, lon, lat), (x: real, y: real) => Airocean.ToGeo(sp, x, y), None, 100000.0)
  }

  /** `ConformalEstimate`: the corrected sphere, and its own
      `meters_per_unit`. */
  function ConformalBase(sp: Airocean.Sphere, f: VectorField.Field): (b: Base)
    requires sp.Valid() && f.Triangular()
    ensures b.Valid()
    ensures forall lon: real, lat: real :: b.fromGeo(lon, lat) == Airocean.FromGeo(Conformal.ConformalSphere(sp, f), lon, lat)
    ensures forall x: real, y: real :: b.toGeo(x, y) == Airocean.ToGeo(Conformal.ConformalSphere(sp, f), x, y)
    ensures b.fixedBounds.None? && b.metersPerUnit == Conformal.MetersPerUnit()
  {
    Base((lon: real, lat: real) => Airocean.FromGeo(Conformal.ConformalSphere(sp, f), lon, lat),
         (x: real, y: real) => Airocean.ToGeo(Conformal.ConformalSphere(sp, f), x, y),
         None, Conformal.MetersPerUnit())
  }

  /** `ModifiedAirocean`, which also overrides `bounds` with its fixed
      rectangle. */
  function ModifiedBase(sp: Airocean.Sphere, f: VectorField.Field, t: Turn): (b: Base)
    requires sp.Valid() && f.Triangular()
    ensures b.Valid()
    ensures forall lon: real, lat: real :: b.fromGeo(lon, lat) == ModifiedAirocean.FromGeo(sp, f, t, lon, lat)
    ensures forall x: real, y: real :: b.toGeo(x, y) == ModifiedAirocean.ToGeo(sp, f, t, x, y)
    ensures b.fixedBounds.Some? && b.fixedBounds.value.Ordered()
    ensures b.metersPerUnit == Conformal.MetersPerUnit()
  {
    var m := ModifiedAirocean.Bounds();
    Base((lon: real, lat: real) => ModifiedAirocean.FromGeo(sp, f, t, lon, lat),
         (x: real, y: real) => ModifiedAirocean.ToGeo(sp, f, t, x, y),
         Some(Box(m[0], m[1], m[2], m[3])), Conformal.MetersPerUnit())
  }

  /** A projection: a base, or one decorator around exactly one inner
      projection (`ProjectionTransform.__init__`, projection_transform.py
      lines 11-12, keeps it in `input`). */
  datatype Projection =
    | Leaf(base: Base)
    | Scale(input: Projection, sx: real, sy: real)
    | Upright(input: Projection)
    | Inverted(input: Projection)
  {
    /** The base at the bottom of the decorator stack. */
    function Root(): Base
    {
      match this
      case Leaf(b) => b
      case Scale(i, _, _) => i.Root()
      case Upright(i) => i.Root()
      case Inverted(i) => i.Root()
    }

    /** The number of decorators around the base. */
    function Depth(): nat
    {
      match this
      case Leaf(_) => 0
      case Scale(i, _, _) => i.Depth() + 1
      case Upright(i) => i.Depth() + 1
      case Inverted(i) => i.Depth() + 1
    }
  }

  // ---------------------------------------------------------------------
  // The forward and inverse maps.

  /** `from_geo(lon, lat)`: scale multiplies componentwise
      (scale_projection.py lines 21-24), flip-Y negates y
      (upright_orientation.py lines 19-22), swap-XY swaps
      (inverted_orientation.py lines 19-22). A (nan, nan) result stays
      (nan, nan) and an error propagates. */
  function FromGeo(p: Projection, lon: real, lat: real): (r: Coords)
    ensures r.Pair? <==> p.Root().fromGeo(lon, lat).Pair?
    ensures r == OutOfBounds <==> p.Root().fromGeo(lon, lat) == OutOfBounds
  {
    match p
    case Leaf(b) => b.fromGeo(lon, lat)
    case Scale(i, sx, sy) =>
      var c := FromGeo(i, lon, lat);
      if c.Pair? then Pair(c.a * sx, c.b * sy) else c
    case Upright(i) =>
      var c := FromGeo(i, lon, lat);
      if c.Pair? then Pair(c.a, -c.b) else c
    case Inverted(i) =>
      var c := FromGeo(i, lon, lat);
      if c.Pair? then Pair(c.b, c.a) else c
  }

  /** `to_geo(x, y)`: scale divides first and raises on a zero factor
      (scale_projection.py lines 17-19), flip-Y negates y
      (upright_orientation.py lines 15-17), and swap-XY passes the point
      through unswapped (inverted_orientation.py lines 15-17). Every
      decorator's `to_geo` runs before the base's, so a zero factor anywhere
      in the stack raises. */
  function ToGeo(p: Projection, x: real, y: real): Coords
  {
    match p
    case Leaf(b) => b.toGeo(x, y)
    case Scale(i, sx, sy) => if sx == 0.0 || sy == 0.0 then ZeroDivision else ToGeo(i, x / sx, y / sy)
    case Upright(i) => ToGeo(i, x, -y)
    case Inverted(i) => ToGeo(i, x, y)
  }

  /** Some scale in the stack has a zero factor. */
  predicate HasZeroScale(p: Projection)
  {
    match p
    case Leaf(_) => false
    case Scale(i, sx, sy) => sx == 0.0 || sy == 0.0 || HasZeroScale(i)
    case Upright(i) => HasZeroScale(i)
    case Inverted(i) => HasZeroScale(i)
  }

  /** A zero scale factor anywhere in the stack makes `to_geo` raise
      ZeroDivisionError, whatever the point: the decorators above it pass
      the raise through. */
  lemma {:induction false} ZeroScaleRaises(p: Projection, x: real, y: real)
    requires HasZeroScale(p)
    ensures ToGeo(p, x, y) == ZeroDivision
  {
    match p
    case Leaf(_) =>
    case Scale(i, sx, sy) =>
      if sx != 0.0 && sy != 0.0 {
        ZeroScaleRaises(i, x / sx, y / sy);
      }
    case Upright(i) => ZeroScaleRaises(i, x, -y);
    case Inverted(i) => ZeroScaleRaises(i, x, y);
  }

  /** The stack has no swap-XY decorator and no zero scale factor. */
  predicate Reversible(p: Projection)
  {
    match p
    case Leaf(_) => true
    case Scale(i, sx, sy) => sx != 0.0 && sy != 0.0 && Reversible(i)
    case Upright(i) => Reversible(i)
    case Inverted(_) => false
  }

  /** Dividing a product by one of its non-zero factors gives the other. */
  lemma MulDiv(a: real, s: real)
    requires s != 0.0
    ensures a * s / s == a
  {
  }

  /** One scale decorator with non-zero factors is undone by its own
      `to_geo`: given the scaled forward point, it hands the inner
      `to_geo` the inner forward point. */
  lemma ScaleUndone(i: Projection, sx: real, sy: real, lon: real, lat: real)
    requires sx != 0.0 && sy != 0.0 && FromGeo(i, lon, lat).Pair?
    ensures var r := FromGeo(Scale(i, sx, sy), lon, lat);
            ToGeo(Scale(i, sx, sy), r.a, r.b) == ToGeo(i, FromGeo(i, lon, lat).a, FromGeo(i, lon, lat).b)
  {
    var c, r := FromGeo(i, lon, lat), FromGeo(Scale(i, sx, sy), lon, lat);
    assert r == Pair(c.a * sx, c.b * sy);
    ScaleInverseAt(i, sx, sy, r.a, r.b, c.a, c.b);
  }

  /** A scale's `to_geo` with non-zero factors, at a point (x, y) scaled
      from (a, b), hands the inner `to_geo` the unscaled point. */
  lemma ScaleInverseAt(i: Projection, sx: real, sy: real, x: real, y: real, a: real, b: real)
    requires sx != 0.0 && sy != 0.0 && x == a * sx && y == b * sy
    ensures ToGeo(Scale(i, sx, sy), x, y) == ToGeo(i, a, b)
  {
    MulDiv(a, sx);
    MulDiv(b, sy);
    assert x / sx == a && y / sy == b;
  }

  /** Scale and flip-Y are undone by their own `to_geo`: through any stack
      of them with non-zero factors, `to_geo` of a forward result hands the
      base's `to_geo` exactly the base's forward result. */
  lemma {:induction false} RoundTripThroughDecorators(p: Projection, lon: real, lat: real)
    requires Reversible(p) && FromGeo(p, lon, lat).Pair?
    ensures ToGeo(p, FromGeo(p, lon, lat).a, FromGeo(p, lon, lat).b)
            == p.Root().toGeo(p.Root().fromGeo(lon, lat).a, p.Root().fromGeo(lon, lat).b)
  {
    match p
    case Leaf(_) =>
    case Scale(i, sx, sy) =>
      RoundTripThroughDecorators(i, lon, lat);
      ScaleUndone(i, sx, sy, lon, lat);
    case Upright(i) =>
      RoundTripThroughDecorators(i, lon, lat);
  }

  /** Swap-XY is asymmetric: its `to_geo`, given its own forward result,
      hands the inner `to_geo` the inner forward result with x and y
      exchanged. */
  lemma SwapNotUndone(i: Projection, lon: real, lat: real)
    requires FromGeo(i, lon, lat).Pair?
    ensures var c := FromGeo(i, lon, lat);
            ToGeo(Inverted(i), FromGeo(Inverted(i), lon, lat).a, FromGeo(Inverted(i), lon, lat).b) == ToGeo(i, c.b, c.a)
  {
  }

  // ---------------------------------------------------------------------
  // upright()

  /** Python's `not` lifted over a call that may raise. */
  function Not(u: Option<bool>): (r: Option<bool>)
    ensures r.Some? <==> u.Some?
    ensures r.Some? ==> r.value != u.value
  {
    if u.Some? then Some(!u.value) else None
  }

  /** `GeographicProjection.upright` (geographic_projection.py lines
      45-49): the north pole's image lies no higher than the south pole's.
      A raise in either call propagates; a NaN compares false. */
  function BaseUpright(b: Base): (r: Option<bool>)
    ensures r.None? <==> b.fromGeo(0.0, 90.0).ZeroDivision? || b.fromGeo(0.0, -90.0).ZeroDivision?
    ensures r.Some? && b.fromGeo(0.0, 90.0).Pair? && b.fromGeo(0.0, -90.0).Pair? ==>
              (r.value <==> b.fromGeo(0.0, 90.0).b <= b.fromGeo(0.0, -90.0).b)
    ensures r.Some? && (b.fromGeo(0.0, 90.0) == OutOfBounds || b.fromGeo(0.0, -90.0) == OutOfBounds) ==> !r.value
  {
    var north := b.fromGeo(0.0, 90.0);
    var south := b.fromGeo(0.0, -90.0);
    if north.ZeroDivision? || south.ZeroDivision? then None
    else if north.Pair? && south.Pair? then Some(north.b <= south.b)
    else Some(false)
  }

  /** `upright()`: scale negates the inner flag exactly when its y factor
      is negative (scale_projection.py lines 27-29), flip-Y always negates
      it (upright_orientation.py lines 24-26), and swap-XY inherits the
      delegating default (projection_transform.py lines 14-16). So the
      stack raises exactly when the base's test does, and otherwise it is
      the base's flag, negated once per flip in the stack. */
  function IsUpright(p: Projection): (r: Option<bool>)
    ensures r.None? <==> BaseUpright(p.Root()).None?
    ensures r.Some? ==> (r.value <==> (BaseUpright(p.Root()).value <==> Flips(p) % 2 == 0))
  {
    match p
    case Leaf(b) => BaseUpright(b)
    case Scale(i, _, sy) => if sy < 0.0 then Not(IsUpright(i)) else IsUpright(i)
    case Upright(i) => Not(IsUpright(i))
    case Inverted(i) => IsUpright(i)
  }

  /** The number of decorators that turn the map upside down: flip-Y, and
      a scale with a negative y factor. */
  function Flips(p: Projection): nat
  {
    match p
    case Leaf(_) => 0
    case Scale(i, _, sy) => Flips(i) + (if sy < 0.0 then 1 else 0)
    case Upright(i) => Flips(i) + 1
    case Inverted(i) => Flips(i)
  }

  /** The identity projection is not upright: its north pole (0, 90) lies
      above its south pole (0, -90). */
  lemma GeographicNotUpright()
    ensures IsUpright(Leaf(Geographic())) == Some(false)
  {
  }

  /** Two flips, or two negative y scales, cancel; swap-XY and a
      non-negative y scale leave the flag alone; a negative y scale acts as
      a flip. */
  lemma UprightFlags(i: Projection, sx: real, sy: real, sx2: real, sy2: real)
    ensures IsUpright(Upright(Upright(i))) == IsUpright(i)
    ensures IsUpright(Inverted(i)) == IsUpright(i)
    ensures sy < 0.0 && sy2 < 0.0 ==> IsUpright(Scale(Scale(i, sx, sy), sx2, sy2)) == IsUpright(i)
    ensures sy >= 0.0 ==> IsUpright(Scale(i, sx, sy)) == IsUpright(i)
    ensures sy < 0.0 ==> IsUpright(Scale(i, sx, sy)) == IsUpright(Upright(i))
  {
  }

  // ---------------------------------------------------------------------
  // bounds()

  /** The default `GeographicProjection.bounds` (geographic_projection.py
      lines 26-43): the x of the images of (-180, 0) and (180, 0), the y of
      the images of (0, -90) and (0, 90), each pair put in order. A raise in
      any of the four calls propagates (None). A base that overrides
      `bounds` answers its own rectangle. */
  function BaseBounds(b: Base): (r: Option<Box>)
    requires b.Valid()
    ensures b.fixedBounds.Some? ==> r == b.fixedBounds
    ensures b.fixedBounds.None? && r.Some? ==>
              && b.fromGeo(-180.0, 0.0).Pair? && b.fromGeo(180.0, 0.0).Pair?
              && b.fromGeo(0.0, -90.0).Pair? && b.fromGeo(0.0, 90.0).Pair?
              && r.value.Ordered()
              && {r.value.minX, r.value.maxX} == {b.fromGeo(-180.0, 0.0).a, b.fromGeo(180.0, 0.0).a}
              && {r.value.minY, r.value.maxY} == {b.fromGeo(0.0, -90.0).b, b.fromGeo(0.0, 90.0).b}
    ensures b.fixedBounds.None? ==>
              (r.None? <==> b.fromGeo(-180.0, 0.0).ZeroDivision? || b.fromGeo(0.0, -90.0).ZeroDivision?
                            || b.fromGeo(180.0, 0.0).ZeroDivision? || b.fromGeo(0.0, 90.0).ZeroDivision?)
  {
    if b.fixedBounds.Some? then b.fixedBounds
    else
      var w, s, e, n := b.fromGeo(-180.0, 0.0), b.fromGeo(0.0, -90.0), b.fromGeo(180.0, 0.0), b.fromGeo(0.0, 90.0);
      if w.Pair? && s.Pair? && e.Pair? && n.Pair? then
        Some(Box(if w.a > e.a then e.a else w.a, if s.b > n.b then n.b else s.b,
                 if w.a > e.a then w.a else e.a, if s.b > n.b then s.b else n.b))
      else None
  }

  /** `bounds()`: scale multiplies componentwise without reordering
      (scale_projection.py lines 31-39), flip-Y gives
      [b0, -b3, b2, -b1] (upright_orientation.py lines 28-31), swap-XY gives
      [b1, b0, b3, b2] (inverted_orientation.py lines 24-27). */
  function Bounds(p: Projection): Option<Box>
    requires p.Root().Valid()
  {
    match p
    case Leaf(b) => BaseBounds(b)
    case Scale(i, sx, sy) =>
      var r := Bounds(i);
      if r.Some? then Some(Box(r.value.minX * sx, r.value.minY * sy, r.value.maxX * sx, r.value.maxY * sy)) else None
    case Upright(i) =>
      var r := Bounds(i);
      if r.Some? then Some(Box(r.value.minX, -r.value.maxY, r.value.maxX, -r.value.minY)) else None
    case Inverted(i) =>
      var r := Bounds(i);
      if r.Some? then Some(Box(r.value.minY, r.value.minX, r.value.maxY, r.value.maxX)) else None
  }

  /** No decorator's `bounds` can raise: the stack's bounds exist exactly
      when the base's do. */
  lemma {:induction false} BoundsExist(p: Projection)
    requires p.Root().Valid()
    ensures Bounds(p).Some? <==> BaseBounds(p.Root()).Some?
  {
    match p
    case Leaf(_) =>
    case Scale(i, _, _) => BoundsExist(i);
    case Upright(i) => BoundsExist(i);
    case Inverted(i) => BoundsExist(i);
  }

  /** The stack has only non-negative scale factors. */
  predicate NonNegativeScales(p: Projection)
  {
    match p
    case Leaf(_) => true
    case Scale(i, sx, sy) => sx >= 0.0 && sy >= 0.0 && NonNegativeScales(i)
    case Upright(i) => NonNegativeScales(i)
    case Inverted(i) => NonNegativeScales(i)
  }

  /** Scaling by a non-negative factor keeps two values in order. */
  lemma ScaleKeepsOrder(lo: real, hi: real, s: real)
    requires lo <= hi && s >= 0.0
    ensures lo * s <= hi * s
  {
    assert (hi - lo) * s >= 0.0;
  }

  /** Bounds come out ordered from every base whose override (if any) is
      ordered, and flip-Y, swap-XY and non-negative scaling keep them
      ordered. */
  lemma {:induction false} BoundsOrdered(p: Projection)
    requires p.Root().Valid() && NonNegativeScales(p) && Bounds(p).Some?
    requires p.Root().fixedBounds.Some? ==> p.Root().fixedBounds.value.Ordered()
    ensures Bounds(p).value.Ordered()
  {
    match p
    case Leaf(b) =>
      BaseBoundsOrdered(b);
    case Scale(i, sx, sy) =>
      BoundsOfDecorated(p, i);
      BoundsOrdered(i);
      ScaleBoundsOrdered(i, sx, sy);
    case Upright(i) =>
      BoundsOfDecorated(p, i);
      BoundsOrdered(i);
      var b := Bounds(i).value;
      assert Bounds(p) == Some(Box(b.minX, -b.maxY, b.maxX, -b.minY));
    case Inverted(i) =>
      BoundsOfDecorated(p, i);
      BoundsOrdered(i);
      var b := Bounds(i).value;
      assert Bounds(p) == Some(Box(b.minY, b.minX, b.maxY, b.maxX));
  }

  /** A non-negative scale turns ordered input bounds into ordered bounds. */
  lemma ScaleBoundsOrdered(i: Projection, sx: real, sy: real)
    requires i.Root().Valid() && Bounds(i).Some? && Bounds(i).value.Ordered() && sx >= 0.0 && sy >= 0.0
    ensures Bounds(Scale(i, sx, sy)).Some? && Bounds(Scale(i, sx, sy)).value.Ordered()
  {
    ScaledBoxOrdered(Bounds(i).value, sx, sy);
  }

  /** A decorator's bounds exist only if its input's do. */
  lemma BoundsOfDecorated(p: Projection, i: Projection)
    requires p.Root().Valid() && !p.Leaf? && Bounds(p).Some?
    requires i == p.input
    ensures i.Root().Valid() && Bounds(i).Some?
  {
  }

  /** A base's own bounds are ordered when its override (if any) is. */
  lemma BaseBoundsOrdered(b: Base)
    requires b.Valid() && BaseBounds(b).Some?
    requires b.fixedBounds.Some? ==> b.fixedBounds.value.Ordered()
    ensures BaseBounds(b).value.Ordered()
  {
  }

  /** Scaling an ordered box by non-negative factors keeps it ordered. */
  lemma ScaledBoxOrdered(b: Box, sx: real, sy: real)
    requires b.Ordered() && sx >= 0.0 && sy >= 0.0
    ensures Box(b.minX * sx, b.minY * sy, b.maxX * sx, b.maxY * sy).Ordered()
  {
    ScaleKeepsOrder(b.minX, b.maxX, sx);
    ScaleKeepsOrder(b.minY, b.maxY, sy);
  }

  /** Flip-Y twice and swap-XY twice give the inner bounds back. */
  lemma BoundsInvolutions(i: Projection)
    requires i.Root().Valid()
    ensures Bounds(Upright(Upright(i))) == Bounds(i)
    ensures Bounds(Inverted(Inverted(i))) == Bounds(i)
  {
  }

  // ---------------------------------------------------------------------
  // meters_per_unit()

  /** The `scale_factor` of `ScaleProjection.meters_per_unit`: the root
      mean square of the two factors, by the given square root. */
  function ScaleFactor(sx: real, sy: real, sqrt: real -> real): real
  {
    sqrt((sx * sx + sy * sy) / 2.0)
  }

  /** `meters_per_unit()`: scale divides by the root mean square of its two
      factors, computed by the given square root, and raises when that is 0
      (scale_projection.py lines 41-45); flip-Y and swap-XY delegate
      (projection_transform.py lines 22-24). */
  function MetersPerUnit(p: Projection, sqrt: real -> real): Option<real>
  {
    match p
    case Leaf(b) => Some(b.metersPerUnit)
    case Scale(i, sx, sy) =>
      var m := MetersPerUnit(i, sqrt);
      var k := ScaleFactor(sx, sy, sqrt);
      if m.None? then None else if k == 0.0 then None else Some(m.value / k)
    case Upright(i) => MetersPerUnit(i, sqrt)
    case Inverted(i) => MetersPerUnit(i, sqrt)
  }

  /** The product of the root mean squares of all scales in the stack. */
  function RmsProduct(p: Projection, sqrt: real -> real): real
  {
    match p
    case Leaf(_) => 1.0
    case Scale(i, sx, sy) => RmsProduct(i, sqrt) * ScaleFactor(sx, sy, sqrt)
    case Upright(i) => RmsProduct(i, sqrt)
    case Inverted(i) => RmsProduct(i, sqrt)
  }

  /** Dividing by two positive numbers in turn is dividing by their
      product. */
  lemma DivideTwice(m: real, a: real, b: real)
    ensures a > 0.0 && b > 0.0 ==> a * b > 0.0 && m / a / b == m / (a * b)
  {
    if a > 0.0 && b > 0.0 {
      assert m / a / b * (a * b) == m;
    }
  }

  /** When every root mean square is positive, meters per unit is the
      base's value divided by their product. */
  lemma {:induction false} MetersPerUnitClosedForm(p: Projection, sqrt: real -> real)
    requires PositiveRms(p, sqrt)
    ensures RmsProduct(p, sqrt) > 0.0
    ensures MetersPerUnit(p, sqrt) == Some(p.Root().metersPerUnit / RmsProduct(p, sqrt))
  {
    match p
    case Leaf(_) =>
    case Scale(i, sx, sy) =>
      MetersPerUnitClosedForm(i, sqrt);
      var m, a, k := p.Root().metersPerUnit, RmsProduct(i, sqrt), ScaleFactor(sx, sy, sqrt);
      DivideTwice(m, a, k);
      assert RmsProduct(p, sqrt) == a * k;
      assert MetersPerUnit(i, sqrt) == Some(m / a);
      assert MetersPerUnit(p, sqrt) == Some(m / a / k);
    case Upright(i) => MetersPerUnitClosedForm(i, sqrt);
    case Inverted(i) => MetersPerUnitClosedForm(i, sqrt);
  }

  /** With equal factors s > 0 the root mean square is s itself, so the
      scale divides the inner value by s; the two orientation decorators
      leave the value alone. */
  lemma MetersPerUnitScaled(i: Projection, s: real, sqrt: real -> real)
    requires s > 0.0 && sqrt(s * s) == s
    ensures MetersPerUnit(Scale(i, s, s), sqrt).Some? <==> MetersPerUnit(i, sqrt).Some?
    ensures MetersPerUnit(Scale(i, s, s), sqrt).Some? ==>
              MetersPerUnit(Scale(i, s, s), sqrt).value * s == MetersPerUnit(i, sqrt).value
    ensures MetersPerUnit(Upright(i), sqrt) == MetersPerUnit(i, sqrt) == MetersPerUnit(Inverted(i), sqrt)
  {
    var q := s * s;
    assert (q + q) / 2.0 == q;
    assert ScaleFactor(s, s, sqrt) == sqrt(q) == s;
    var m := MetersPerUnit(i, sqrt);
    if m.Some? {
      assert MetersPerUnit(Scale(i, s, s), sqrt) == Some(m.value / s);
      assert m.value / s * s == m.value;
    }
  }

  /** Every scale in the stack has a positive root mean square. */
  predicate PositiveRms(p: Projection, sqrt: real -> real)
  {
    match p
    case Leaf(_) => true
    case Scale(i, sx, sy) => ScaleFactor(sx, sy, sqrt) > 0.0 && PositiveRms(i, sqrt)
    case Upright(i) => PositiveRms(i, sqrt)
    case Inverted(i) => PositiveRms(i, sqrt)
  }

  /** A stack over a base with a positive meters-per-unit value has a
      positive value too when every root mean square is positive. */
  lemma {:induction false} MetersPerUnitPositive(p: Projection, sqrt: real -> real)
    requires p.Root().metersPerUnit > 0.0 && PositiveRms(p, sqrt)
    ensures MetersPerUnit(p, sqrt).Some? && MetersPerUnit(p, sqrt).value > 0.0
  {
    match p
    case Leaf(_) =>
    case Scale(i, sx, sy) =>
      MetersPerUnitPositive(i, sqrt);
      var m := MetersPerUnit(i, sqrt).value;
      var k := ScaleFactor(sx, sy, sqrt);
      assert m / k * k == m;
      assert MetersPerUnit(p, sqrt) == Some(m / k);
    case Upright(i) => MetersPerUnitPositive(i, sqrt);
    case Inverted(i) => MetersPerUnitPositive(i, sqrt);
  }
}
