/** The conformal correction layered over the Airocean triangle transform:
    a 257-row triangular grid of correction vectors filled from a data
    table, inverted by Newton's method on the way out and sampled directly
    on the way back.

    Models terrapyconvert/projection/core/conformal_estimate.py.
 */
module Conformal {
  import opened Geometry
  import opened VectorField
  import Airocean

  /** VECTOR_SCALE_FACTOR = 1 / 1.1473979730192934, as an exact quotient. */
  const VECTOR_SCALE_FACTOR: real := 1.0 / 1.1473979730192934

  /** The side length of the correction grid. */
  const SIDE_LENGTH: int := 256

  /** The number of Newton steps of the forward correction. */
  const NEWTON_STEPS: int := 5

  // ---------------------------------------------------------------------
  // The v-major walk over the nodes of a grid of side n.

  /** The number of nodes the walk passes before column v: the columns
      w < v hold n + 1 - w nodes each. */
  function ColumnStart(n: nat, v: nat): (r: int)
    requires v <= n + 1
    ensures r >= 0
  {
    if v == 0 then 0 else ColumnStart(n, v - 1) + (n + 2 - v)
  }

  /** The value of the fill loop's `counter` when it reaches node (u, v). */
  function Visit(n: nat, u: nat, v: nat): int
    requires u + v <= n
  {
    ColumnStart(n, v) + u
  }

  /** The closed form of ColumnStart: the triangular count of the nodes
      of the first v columns. */
  lemma {:induction false} ColumnStartClosed(n: nat, v: nat)
    requires v <= n + 1
    ensures 2 * ColumnStart(n, v) == v * (2 * n + 3 - v)
  {
    if v > 0 {
      ColumnStartClosed(n, v - 1);
      assert 2 * ColumnStart(n, v) == (v - 1) * (2 * n + 3 - (v - 1)) + 2 * (n + 2 - v);
    }
  }

  /** The walk of a grid of side 256 visits 257 * 258 / 2 = 33153 nodes,
      the value `counter` ends at. */
  lemma NodeCount()
    ensures ColumnStart(SIDE_LENGTH, SIDE_LENGTH + 1) == 33153
  {
    ColumnStartClosed(SIDE_LENGTH, SIDE_LENGTH + 1);
  }

  /** Later columns start after every node of an earlier column. */
  lemma {:induction false} ColumnStartGrows(n: nat, v1: nat, v2: nat)
    requires v1 < v2 <= n + 1
    ensures ColumnStart(n, v1) + (n + 1 - v1) <= ColumnStart(n, v2)
    decreases v2
  {
    if v1 + 1 < v2 {
      ColumnStartGrows(n, v1, v2 - 1);
    }
  }

  /** The walk is a numbering of the nodes: it visits them in v-major
      order, every node gets a counter value below the total, and no two
      nodes share one. */
  lemma VisitOrder(n: nat, u1: nat, v1: nat, u2: nat, v2: nat)
    requires u1 + v1 <= n && u2 + v2 <= n
    ensures 0 <= Visit(n, u1, v1) < ColumnStart(n, n + 1)
    ensures v1 < v2 || (v1 == v2 && u1 < u2) ==> Visit(n, u1, v1) < Visit(n, u2, v2)
    ensures Visit(n, u1, v1) == Visit(n, u2, v2) <==> u1 == u2 && v1 == v2
  {
    ColumnStartGrows(n, v1, n + 1);
    if v1 < v2 {
      ColumnStartGrows(n, v1, v2);
    } else if v2 < v1 {
      ColumnStartGrows(n, v2, v1);
    }
  }

  /** What the fill loop writes at node (u, v) of a grid of side n: the
      scaled data entry numbered by the walk, or past the end of the data
      the scaled identity (u / n, v / n). */
  function Entry(data: seq<(real, real)>, n: nat, u: nat, v: nat): (real, real)
    requires n > 0 && u + v <= n
  {
    if Visit(n, u, v) < |data| then
      (data[Visit(n, u, v)].0 * VECTOR_SCALE_FACTOR, data[Visit(n, u, v)].1 * VECTOR_SCALE_FACTOR)
    else
      (u as real / n as real * VECTOR_SCALE_FACTOR, v as real / n as real * VECTOR_SCALE_FACTOR)
  }

  /** Row u of a grid of side n holds n + 1 - u cells, for both components. */
  predicate Jagged(xs: seq<seq<real>>, ys: seq<seq<real>>, n: nat, rows: nat)
  {
    && |xs| == rows && |ys| == rows
    && (forall u | 0 <= u < rows :: |xs[u]| == n + 1 - u)
    && (forall u | 0 <= u < rows :: |ys[u]| == n + 1 - u)
  }

  /** `ConformalEstimate.__init__` (lines 19-48): allocate the jagged grid
      of side 256, then walk it column by column, writing data entry k to
      the k-th node visited. Also returns the final `counter`. */
  method Initialize(data: seq<(real, real)>) returns (f: Field, counter: int)
    ensures f.Triangular() && f.SideLength() == SIDE_LENGTH
    ensures counter == 33153
    ensures forall u: nat, v: nat | u + v <= SIDE_LENGTH ::
              f.xs[u][v] == Entry(data, SIDE_LENGTH, u, v).0 && f.ys[u][v] == Entry(data, SIDE_LENGTH, u, v).1
  {
    var n: nat := SIDE_LENGTH;
    var xs: seq<seq<real>> := [];
    var ys: seq<seq<real>> := [];
    var u := 0;
    while u < n + 1
      invariant 0 <= u <= n + 1
      invariant Jagged(xs, ys, n, u)
    {
      xs := xs + [seq(n + 1 - u, _ => 0.0)];
      ys := ys + [seq(n + 1 - u, _ => 0.0)];
      u := u + 1;
    }
    counter := 0;
    var v := 0;
    while v < n + 1
      invariant 0 <= v <= n + 1
      invariant Jagged(xs, ys, n, n + 1)
      invariant counter == ColumnStart(n, v)
      invariant forall a: nat, b: nat | b < v && a + b <= n ::
                  xs[a][b] == Entry(data, n, a, b).0 && ys[a][b] == Entry(data, n, a, b).1
    {
      u := 0;
      while u < n + 1 - v
        invariant 0 <= u <= n + 1 - v
        invariant Jagged(xs, ys, n, n + 1)
        invariant counter == ColumnStart(n, v) + u
        invariant forall a: nat, b: nat | b < v && a + b <= n ::
                    xs[a][b] == Entry(data, n, a, b).0 && ys[a][b] == Entry(data, n, a, b).1
        invariant forall a: nat | a < u :: xs[a][v] == Entry(data, n, a, v).0 && ys[a][v] == Entry(data, n, a, v).1
      {
        var x, y;
        if counter < |data| {
          x, y := data[counter].0 * VECTOR_SCALE_FACTOR, data[counter].1 * VECTOR_SCALE_FACTOR;
        } else {
          x, y := u as real / n as real * VECTOR_SCALE_FACTOR, v as real / n as real * VECTOR_SCALE_FACTOR;
        }
        xs := xs[u := xs[u][v := x]];
        ys := ys[u := ys[u][v := y]];
        counter := counter + 1;
        u := u + 1;
      }
      v := v + 1;
    }
    NodeCount();
    f := Field(xs, ys);
  }

  // ---------------------------------------------------------------------
  // The correction around the triangle transform.

  /** Strictly inside the grid's unit triangle, whose corners are (0, 0),
      (1, 0) and (1/2, sqrt(3)/2). */
  predicate InUnitTriangle(p: Pt)
  {
    0.0 < p.y && p.y < ROOT3 * p.x && p.y < ROOT3 * (1.0 - p.x)
  }

  /** Lines 58-63: from face-local coordinates to the unit triangle of the
      grid, whose centre is (0.5, sqrt(3)/6). A point inside the face
      triangle lands inside the unit triangle. */
  function Normalize(c: Pt): (r: Pt)
    ensures Airocean.InsideFace(c) ==> InUnitTriangle(r)
  {
    Pt(c.x / ARC + 0.5, c.y / ARC + ROOT3 / 6.0)
  }

  /** Lines 68-73: back from the unit triangle to face-local coordinates,
      undoing the normalisation. */
  function Denormalize(p: Pt): (r: Pt)
    ensures Normalize(r) == p
  {
    Pt((p.x - 0.5) * ARC, (p.y - ROOT3 / 6.0) * ARC)
  }

  /** Normalisation and its inverse undo each other exactly over the reals. */
  lemma NormalizeRoundTrip(c: Pt)
    ensures Denormalize(Normalize(c)) == c
    ensures Normalize(Denormalize(c)) == c
  {
  }

  /** `_triangle_transform` after the parent's (lines 50-75): find by five
      Newton steps the grid point whose vector is the parent's output,
      starting from that output normalised. The estimate is in grid units
      but the target stays in face-local units, as in the source. */
  function Correct(f: Field, c: Pt): (r: Option<Pt>)
    requires f.Triangular()
    ensures r.None? <==> ApplyNewtons(f, c.x, c.y, Normalize(c), NEWTON_STEPS).None?
    ensures r.Some? ==> Normalize(r.value) == ApplyNewtons(f, c.x, c.y, Normalize(c), NEWTON_STEPS).value
  {
    match ApplyNewtons(f, c.x, c.y, Normalize(c), NEWTON_STEPS)
    case None => None
    case Some(p) =>
      NormalizeRoundTrip(p);
      Some(Denormalize(p))
  }

  /** `_inverse_triangle_transform` before the parent's (lines 77-91): the
      grid's vector at the normalised point, with no Newton solve. */
  function Uncorrect(f: Field, c: Pt): (r: Pt)
    requires f.Triangular()
    ensures r.x == Interpolate(f, Normalize(c).x, Normalize(c).y).valX
    ensures r.y == Interpolate(f, Normalize(c).x, Normalize(c).y).valY
  {
    var s := Interpolate(f, Normalize(c).x, Normalize(c).y);
    Pt(s.valX, s.valY)
  }

  /** Forward then back: when the grid maps some point `root` exactly onto
      the parent's output c, with an invertible Jacobian, and the starting
      estimate lies in the same small triangle, the correction returns that
      point and the inverse correction gives c back. */
  lemma UncorrectCorrect(f: Field, c: Pt, root: Pt)
    requires f.Triangular()
    requires Hits(Interpolate(f, root.x, root.y), c.x, c.y)
    requires Locate(f, Normalize(c).x, Normalize(c).y) == Locate(f, root.x, root.y)
    requires Det(Interpolate(f, Normalize(c).x, Normalize(c).y)) != 0.0
    ensures Correct(f, c) == Some(Denormalize(root))
    ensures Uncorrect(f, Correct(f, c).value) == c
  {
    ApplyNewtonsFindsRoot(f, c.x, c.y, Normalize(c), root, NEWTON_STEPS);
    NormalizeRoundTrip(root);
  }

  /** Back then forward: the inverse correction of a point, corrected
      again, is the point itself whenever the Jacobian there is invertible
      and the Newton start lies in the point's small triangle. */
  lemma CorrectUncorrect(f: Field, c: Pt)
    requires f.Triangular()
    requires Det(Interpolate(f, Normalize(c).x, Normalize(c).y)) != 0.0
    requires Locate(f, Normalize(Uncorrect(f, c)).x, Normalize(Uncorrect(f, c)).y) == Locate(f, Normalize(c).x, Normalize(c).y)
    requires Det(Interpolate(f, Normalize(Uncorrect(f, c)).x, Normalize(Uncorrect(f, c)).y)) != 0.0
    ensures Correct(f, Uncorrect(f, c)) == Some(c)
  {
    var d := Uncorrect(f, c);
    ApplyNewtonsFindsRoot(f, d.x, d.y, Normalize(d), Normalize(c), NEWTON_STEPS);
    NormalizeRoundTrip(c);
  }

  /** The inverse correction at a grid node: the node's stored vector. */
  lemma UncorrectAtNode(f: Field, u: int, v: int)
    requires f.Triangular() && f.IsNode(u, v)
    ensures Uncorrect(f, Denormalize(NodePoint(f, u, v))) == Pt(f.xs[u][v], f.ys[u][v])
  {
    NormalizeRoundTrip(NodePoint(f, u, v));
    InterpolateAtNode(f, u, v);
  }

  // ---------------------------------------------------------------------
  // The corrected projection.

  /** A `ConformalEstimate`: the Airocean sphere with both triangle
      transforms overridden by the corrected ones. */
  function ConformalSphere(sp: Airocean.Sphere, f: Field): (cs: Airocean.Sphere)
    requires f.Triangular()
    ensures cs.Valid() == sp.Valid()
    ensures cs.cart == sp.cart && cs.centroid == sp.centroid && cs.rotation == sp.rotation && cs.inverse == sp.inverse
  {
    sp.(triangle := (w: Vec3) => match sp.triangle(w)
                                 case None => None
                                 case Some(c) => Correct(f, c),
        inverseTriangle := (p: Pt) => sp.inverseTriangle(Uncorrect(f, p)))
  }

  /** The correction is transparent to the round trip: whenever the
      forward correction of the parent's output lands on a point the grid
      maps back onto that output, the corrected inverse hands the parent's
      inverse exactly the parent's forward output. */
  lemma ConformalTriangleRoundTrip(sp: Airocean.Sphere, f: Field, w: Vec3, c: Pt, root: Pt)
    requires f.Triangular()
    requires sp.triangle(w) == Some(c)
    requires Hits(Interpolate(f, root.x, root.y), c.x, c.y)
    requires Locate(f, Normalize(c).x, Normalize(c).y) == Locate(f, root.x, root.y)
    requires Det(Interpolate(f, Normalize(c).x, Normalize(c).y)) != 0.0
    ensures ConformalSphere(sp, f).triangle(w) == Some(Denormalize(root))
    ensures ConformalSphere(sp, f).inverseTriangle(Denormalize(root)) == sp.inverseTriangle(c)
  {
    UncorrectCorrect(f, c, root);
  }

  /** `ConformalEstimate.meters_per_unit` (lines 93-95): the earth's
      circumference over 2 pi, divided by VECTOR_SCALE_FACTOR, i.e. grown
      by the factor 1.1473979730192934 the grid was shrunk by. */
  function MetersPerUnit(): (m: real)
    ensures m == 40075017.0 / (2.0 * PI) * 1.1473979730192934
  {
    (40075017.0 / (2.0 * PI)) / VECTOR_SCALE_FACTOR
  }
}
