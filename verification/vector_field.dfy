/** The invertible vector field of the conformal correction: a triangular grid
    of 2D vectors, sampled by barycentric interpolation over the grid's small
    triangles, and inverted by a two-variable Newton iteration.

    Models terrapyconvert/projection/invertable_vector_field.py.
 */
module VectorField {
  import opened Geometry

  /** The two component grids; row u of each is meant to hold N+1-u cells. */
  datatype Field = Field(xs: seq<seq<real>>, ys: seq<seq<real>>)
  {
    /** `side_length`: the number of rows minus one. */
    function SideLength(): int
    {
      |xs| - 1
    }

    /** The jagged shape the sampler relies on: row u of both grids holds
        N+1-u cells, and there are at least two rows (with a single row the
        source's first read `vector_x[0][1]` raises IndexError). */
    predicate Triangular()
    {
      && |xs| >= 2
      && |ys| == |xs|
      && (forall u | 0 <= u < |xs| :: |xs[u]| == |xs| - u)
      && (forall u | 0 <= u < |ys| :: |ys[u]| == |xs| - u)
    }

    /** (u, v) is a node of the grid: both indices are in range. */
    predicate IsNode(u: int, v: int)
    {
      0 <= u && 0 <= v && u + v <= SideLength()
    }
  }

  /** A small triangle of the grid: the clamped indices (u1, v1) and whether
      the lower triangle (corners (u1,v1), (u1,v1+1), (u1+1,v1)) or the upper
      one (corners (u1,v1+1), (u1+1,v1), (u1+1,v1+1)) was chosen. */
  datatype Cell = Cell(u: int, v: int, lower: bool)

  /** The cell lies inside a grid of side n: every corner it reads is a node. */
  predicate CellInGrid(n: int, c: Cell)
  {
    && 0 <= c.u <= n - 1
    && 0 <= c.v <= n - c.u - 1
    && (!c.lower ==> c.v <= n - c.u - 2)
  }

  /** Corner i (0, 1 or 2) of a cell, in the order the source reads them. */
  function Corner(c: Cell, i: int): (int, int)
  {
    if c.lower then (if i == 0 then (c.u, c.v) else if i == 1 then (c.u, c.v + 1) else (c.u + 1, c.v))
    else (if i == 0 then (c.u, c.v + 1) else if i == 1 then (c.u + 1, c.v) else (c.u + 1, c.v + 1))
  }

  /** Every corner of a cell inside the grid is a node of the grid, and the
      three corners are distinct. */
  lemma CornersAreNodes(f: Field, c: Cell)
    requires f.Triangular() && CellInGrid(f.SideLength(), c)
    ensures forall i | 0 <= i < 3 :: f.IsNode(Corner(c, i).0, Corner(c, i).1)
    ensures Corner(c, 0) != Corner(c, 1) && Corner(c, 1) != Corner(c, 2) && Corner(c, 0) != Corner(c, 2)
  {
  }

  /** Clamping of the truncated triangle coordinates (lines 29-30). */
  function ClampIndices(n: int, u: real, v: real): (c: (int, int))
    requires n >= 1
    ensures 0 <= c.0 <= n - 1
    ensures 0 <= c.1 <= n - c.0 - 1
    ensures 0 <= Trunc(u) <= n - 1 ==> c.0 == Trunc(u)
    ensures 0 <= Trunc(v) <= n - c.0 - 1 ==> c.1 == Trunc(v)
  {
    (Clamp(Trunc(u), 0, n - 1), Clamp(Trunc(v), 0, n - Clamp(Trunc(u), 0, n - 1) - 1))
  }

  /** The row coordinate of the scaled point (line 25): rows are sqrt(3)/2 high. */
  function TriV(sy: real): real
  {
    2.0 * sy / ROOT3
  }

  /** The along-the-row coordinate of the scaled point (line 26). */
  function TriU(sx: real, sy: real): real
  {
    sx - TriV(sy) * 0.5
  }

  /** The lower triangle is chosen when the point lies below the diagonal of
      the clamped cell (u1, v1), or when that cell touches the hypotenuse,
      where no upper triangle exists (line 35). */
  function PickTriangle(n: int, sx: real, sy: real, uv: (int, int)): Cell
  {
    Cell(uv.0, uv.1, sy < -ROOT3 * (sx - uv.0 as real - uv.1 as real - 1.0) || uv.1 == n - uv.0 - 1)
  }

  /** The cell the sampler reads for the scaled point (sx, sy) of a grid of
      side n (lines 24-35): change to triangle units, truncate and clamp,
      then pick the lower or upper triangle. */
  function CellAt(n: int, sx: real, sy: real): (c: Cell)
    requires n >= 1
    ensures CellInGrid(n, c)
    ensures c.v == n - c.u - 1 ==> c.lower
  {
    PickTriangle(n, sx, sy, ClampIndices(n, TriU(sx, sy), TriV(sy)))
  }

  /** `x *= self.side_length` (lines 21-22): unit triangle coordinates to grid units. */
  function Scale(f: Field, x: real): real
  {
    x * (f.SideLength() as real)
  }

  /** The cell the sampler reads for the query point (x, y) given in unit
      triangle coordinates. */
  function Locate(f: Field, x: real, y: real): (c: Cell)
    requires f.Triangular()
    ensures CellInGrid(f.SideLength(), c)
    ensures c.v == f.SideLength() - c.u - 1 ==> c.lower
  {
    CellAt(f.SideLength(), Scale(f, x), Scale(f, y))
  }

  /** What `get_interpolated_vector` returns: the interpolated vector and the
      four partial derivatives of its components. */
  datatype Sample = Sample(valX: real, valY: real, dfdx: real, dfdy: real, dgdx: real, dgdy: real)

  /** The barycentric weight w1 of the scaled point (sx, sy) in a triangle
      whose third corner is (x3, y3) (line 62). */
  function Weight1(sx: real, sy: real, x3: real, y3: real): real
  {
    -(sy - y3) / ROOT3 - (sx - x3)
  }

  /** The barycentric weight w2 (line 63). */
  function Weight2(sx: real, sy: real, x3: real, y3: real): real
  {
    2.0 * (sy - y3) / ROOT3
  }

  /** The barycentric weight w3 = 1 - w1 - w2 (line 64). */
  function Weight3(sx: real, sy: real, x3: real, y3: real): real
  {
    1.0 - Weight1(sx, sy, x3, y3) - Weight2(sx, sy, x3, y3)
  }

  /** The weighted sum of three corner values (lines 67-68). */
  function Blend(p1: real, p2: real, p3: real, sx: real, sy: real, x3: real, y3: real): real
  {
    p1 * Weight1(sx, sy, x3, y3) + p2 * Weight2(sx, sy, x3, y3) + p3 * Weight3(sx, sy, x3, y3)
  }

  /** The reported derivative along x of a blend (lines 70, 72). */
  function SlopeX(p1: real, p3: real, n: real): real
  {
    (p3 - p1) * n
  }

  /** The reported derivative along y of a blend (lines 71, 73). */
  function SlopeY(p1: real, p2: real, p3: real, n: real, flip: real): real
  {
    n * flip * (2.0 * p2 - p1 - p3) / ROOT3
  }

  /** What the sampler knows about one small triangle: the grid side n, the
      orientation flip (+1 for a lower triangle, -1 for an upper one), the
      corner values (a1, a2, a3) of the x grid and (b1, b2, b3) of the y grid,
      and the scaled position (x3, y3) of the corner the weights are
      measured from. */
  datatype Tri = Tri(n: real, flip: real,
                     a1: real, a2: real, a3: real,
                     b1: real, b2: real, b3: real,
                     x3: real, y3: real)

  /** Interpolation over a triangle at the unit point (x, y) (lines 20-22,
      56, 61-75): scale by n, negate the vertical coordinate when flip is -1,
      blend both grids, and report the derivatives. */
  function Eval(t: Tri, x: real, y: real): Sample
  {
    Sample(Blend(t.a1, t.a2, t.a3, x * t.n, t.flip * (y * t.n), t.x3, t.y3),
           Blend(t.b1, t.b2, t.b3, x * t.n, t.flip * (y * t.n), t.x3, t.y3),
           SlopeX(t.a1, t.a3, t.n), SlopeY(t.a1, t.a2, t.a3, t.n, t.flip),
           SlopeX(t.b1, t.b3, t.n), SlopeY(t.b1, t.b2, t.b3, t.n, t.flip))
  }

  /** +1 for a lower triangle, -1 for an upper one (lines 33, 55). */
  function Flip(c: Cell): real
  {
    if c.lower then 1.0 else -1.0
  }

  /** The scaled position of the corner the weights are measured from: the
      third corner read, with its vertical coordinate negated for an upper
      triangle (lines 44-45, 58-59). */
  function ThirdCorner(c: Cell): (real, real)
  {
    if c.lower then ((c.u as real + 1.0) + 0.5 * c.v as real, 0.5 * ROOT3 * c.v as real)
    else ((c.u as real + 1.0) + 0.5 * (c.v as real + 1.0), -(0.5 * ROOT3 * (c.v as real + 1.0)))
  }

  /** Corner i of the cell, read from the x grid. */
  function CornerX(f: Field, c: Cell, i: int): real
    requires f.Triangular() && CellInGrid(f.SideLength(), c) && 0 <= i < 3
  {
    f.xs[Corner(c, i).0][Corner(c, i).1]
  }

  /** Corner i of the cell, read from the y grid. */
  function CornerY(f: Field, c: Cell, i: int): real
    requires f.Triangular() && CellInGrid(f.SideLength(), c) && 0 <= i < 3
  {
    f.ys[Corner(c, i).0][Corner(c, i).1]
  }

  /** The triangle data the source gathers for a cell (lines 35-59). */
  function CellTri(f: Field, c: Cell): Tri
    requires f.Triangular() && CellInGrid(f.SideLength(), c)
  {
    Tri(f.SideLength() as real, Flip(c),
        CornerX(f, c, 0), CornerX(f, c, 1), CornerX(f, c, 2),
        CornerY(f, c, 0), CornerY(f, c, 1), CornerY(f, c, 2),
        ThirdCorner(c).0, ThirdCorner(c).1)
  }

  /** Barycentric interpolation of the field over a given cell at the unit
      point (x, y). */
  function Barycentric(f: Field, c: Cell, x: real, y: real): Sample
    requires f.Triangular() && CellInGrid(f.SideLength(), c)
  {
    Eval(CellTri(f, c), x, y)
  }

  /** `get_interpolated_vector`: locate the cell, then interpolate over it. */
  function Interpolate(f: Field, x: real, y: real): Sample
    requires f.Triangular()
  {
    Barycentric(f, Locate(f, x, y), x, y)
  }

  // ---------------------------------------------------------------------
  // The interpolant passes through the grid nodes.

  /** The scaled position of grid node (u, v): u + v/2 across, v rows of
      height sqrt(3)/2 up. */
  function ScaledNode(u: int, v: int): (real, real)
  {
    (u as real + 0.5 * v as real, 0.5 * ROOT3 * v as real)
  }

  /** The position, in unit triangle coordinates, of grid node (u, v). */
  function NodePoint(f: Field, u: int, v: int): Pt
    requires f.Triangular()
  {
    Pt(ScaledNode(u, v).0 / (f.SideLength() as real), ScaledNode(u, v).1 / (f.SideLength() as real))
  }

  /** Blending a lower cell's three corner values exactly at (the scaled
      position of) its corner i returns that corner's value: the weights
      there are 1 for the corner and 0 for the other two. */
  lemma BlendAtLowerCorner(p1: real, p2: real, p3: real, c: Cell, i: int)
    requires c.lower && 0 <= i < 3
    ensures Blend(p1, p2, p3, ScaledNode(Corner(c, i).0, Corner(c, i).1).0, ScaledNode(Corner(c, i).0, Corner(c, i).1).1,
                  ThirdCorner(c).0, ThirdCorner(c).1)
            == if i == 0 then p1 else if i == 1 then p2 else p3
  {
    var q := ScaledNode(Corner(c, i).0, Corner(c, i).1);
    var t := ThirdCorner(c);
    if i == 0 {
      assert q.1 - t.1 == 0.0 && q.0 - t.0 == -1.0;
    } else if i == 1 {
      assert q.1 - t.1 == 0.5 * ROOT3 && q.0 - t.0 == -0.5;
      assert Weight2(q.0, q.1, t.0, t.1) == 1.0;
      assert Weight1(q.0, q.1, t.0, t.1) == 0.0;
    } else {
      assert q.1 - t.1 == 0.0 && q.0 - t.0 == 0.0;
    }
  }

  /** The lower triangle the sampler reads at node (u, v): the cell whose
      first corner the node is when it lies inside the grid, the one below it
      on the hypotenuse, and the last cell of the bottom row at the far
      corner (u = N). */
  function NodeCell(n: int, u: int, v: int): Cell
  {
    if u + v <= n - 1 then Cell(u, v, true)
    else if u <= n - 1 then Cell(u, v - 1, true)
    else Cell(n - 1, 0, true)
  }

  /** The corner of `NodeCell` that the node occupies. */
  function NodeCorner(n: int, u: int, v: int): int
  {
    if u + v <= n - 1 then 0 else if u <= n - 1 then 1 else 2
  }

  /** At the scaled position of grid node (u, v) the sampler picks
      `NodeCell`, and the node is its corner `NodeCorner`: truncation is
      exact on a node, the diagonal test holds strictly inside the grid, and
      the clamping moves nodes on the hypotenuse and at the far corner into
      the last cell of their row. */
  lemma CellAtNode(n: int, u: int, v: int, sx: real, sy: real)
    requires n >= 1 && 0 <= u && 0 <= v && u + v <= n
    requires sx == ScaledNode(u, v).0 && sy == ScaledNode(u, v).1
    ensures CellAt(n, sx, sy) == NodeCell(n, u, v)
    ensures Corner(NodeCell(n, u, v), NodeCorner(n, u, v)) == (u, v)
  {
    assert TriV(sy) == v as real;
    assert TriU(sx, sy) == u as real;
    assert Trunc(v as real) == v;
    assert Trunc(u as real) == u;
    if u + v <= n - 1 {
      assert sx - u as real - v as real - 1.0 == -0.5 * v as real - 1.0;
    }
  }

  /** Evaluating a lower triangle at a point that scales onto its corner i
      returns that corner's values. */
  lemma EvalAtLowerCorner(t: Tri, c: Cell, i: int, x: real, y: real)
    requires c.lower && 0 <= i < 3 && t.flip == 1.0
    requires t.x3 == ThirdCorner(c).0 && t.y3 == ThirdCorner(c).1
    requires x * t.n == ScaledNode(Corner(c, i).0, Corner(c, i).1).0
    requires y * t.n == ScaledNode(Corner(c, i).0, Corner(c, i).1).1
    ensures Eval(t, x, y).valX == if i == 0 then t.a1 else if i == 1 then t.a2 else t.a3
    ensures Eval(t, x, y).valY == if i == 0 then t.b1 else if i == 1 then t.b2 else t.b3
  {
    assert t.flip * (y * t.n) == y * t.n;
    BlendAtLowerCorner(t.a1, t.a2, t.a3, c, i);
    BlendAtLowerCorner(t.b1, t.b2, t.b3, c, i);
  }

  /** Interpolating over a lower cell at a point that scales onto its
      corner i returns that corner's stored vector. */
  lemma BarycentricAtCorner(f: Field, c: Cell, i: int, x: real, y: real)
    requires f.Triangular() && CellInGrid(f.SideLength(), c) && c.lower && 0 <= i < 3
    requires Scale(f, x) == ScaledNode(Corner(c, i).0, Corner(c, i).1).0
    requires Scale(f, y) == ScaledNode(Corner(c, i).0, Corner(c, i).1).1
    ensures Barycentric(f, c, x, y).valX == CornerX(f, c, i)
    ensures Barycentric(f, c, x, y).valY == CornerY(f, c, i)
  {
    EvalAtLowerCorner(CellTri(f, c), c, i, x, y);
  }

  /** Scaling a node's unit coordinates by N gives back its scaled position. */
  lemma NodePointScaled(f: Field, u: int, v: int)
    requires f.Triangular()
    ensures Scale(f, NodePoint(f, u, v).x) == ScaledNode(u, v).0
    ensures Scale(f, NodePoint(f, u, v).y) == ScaledNode(u, v).1
  {
  }

  /** Sampling at a point that scales onto node (u, v) returns the stored
      vector there. */
  lemma InterpolateAtScaledNode(f: Field, u: int, v: int, x: real, y: real)
    requires f.Triangular() && f.IsNode(u, v)
    requires Scale(f, x) == ScaledNode(u, v).0 && Scale(f, y) == ScaledNode(u, v).1
    ensures Interpolate(f, x, y).valX == f.xs[u][v]
    ensures Interpolate(f, x, y).valY == f.ys[u][v]
  {
    var n := f.SideLength();
    CellAtNode(n, u, v, Scale(f, x), Scale(f, y));
    var c := NodeCell(n, u, v);
    assert Locate(f, x, y) == c;
    BarycentricAtCorner(f, c, NodeCorner(n, u, v), x, y);
  }

  /** The interpolant passes through the grid: sampling exactly at node
      (u, v) returns the stored vector (vector_x[u][v], vector_y[u][v]), at
      every node including the hypotenuse and the far corner, where the
      clamping moves the sampler to a neighbouring cell. */
  lemma InterpolateAtNode(f: Field, u: int, v: int)
    requires f.Triangular() && f.IsNode(u, v)
    ensures Interpolate(f, NodePoint(f, u, v).x, NodePoint(f, u, v).y).valX == f.xs[u][v]
    ensures Interpolate(f, NodePoint(f, u, v).x, NodePoint(f, u, v).y).valY == f.ys[u][v]
  {
    NodePointScaled(f, u, v);
    InterpolateAtScaledNode(f, u, v, NodePoint(f, u, v).x, NodePoint(f, u, v).y);
  }

  // ---------------------------------------------------------------------
  // Within one cell the interpolant is affine, with the reported derivatives.

  /** A weighted sum of three corner values when the weights move by
      (-d - e, 2d, -d + e). */
  lemma DotShift(p1: real, p2: real, p3: real, w10: real, w11: real, w12: real,
                 w20: real, w21: real, w22: real, d: real, e: real)
    requires w20 == w10 - d - e && w21 == w11 + 2.0 * d && w22 == w12 - d + e
    ensures p1 * w20 + p2 * w21 + p3 * w22
            == p1 * w10 + p2 * w11 + p3 * w12 + (p3 - p1) * e + (2.0 * p2 - p1 - p3) * d
  {
  }

  /** A blend is affine in the scaled point. */
  lemma BlendShift(p1: real, p2: real, p3: real, sx1: real, sy1: real, sx2: real, sy2: real, x3: real, y3: real)
    ensures Blend(p1, p2, p3, sx2, sy2, x3, y3)
            == Blend(p1, p2, p3, sx1, sy1, x3, y3) + (p3 - p1) * (sx2 - sx1) + (2.0 * p2 - p1 - p3) * ((sy2 - sy1) / ROOT3)
  {
    DotShift(p1, p2, p3,
             Weight1(sx1, sy1, x3, y3), Weight2(sx1, sy1, x3, y3), Weight3(sx1, sy1, x3, y3),
             Weight1(sx2, sy2, x3, y3), Weight2(sx2, sy2, x3, y3), Weight3(sx2, sy2, x3, y3),
             (sy2 - sy1) / ROOT3, sx2 - sx1);
  }

  /** The change of variables from grid units back to unit coordinates, as
      plain real algebra: a step (a, k) in the scaled point is a step with
      the derivatives (a n, n flip k / sqrt 3) in the unscaled one. */
  lemma RescaleStep(v1: real, v2: real, a: real, k: real, n: real, flip: real,
                    x1: real, y1: real, x2: real, y2: real,
                    sx1: real, sy1: real, sx2: real, sy2: real, d1: real, d2: real)
    requires sx1 == x1 * n && sx2 == x2 * n && sy1 == flip * (y1 * n) && sy2 == flip * (y2 * n)
    requires v2 == v1 + a * (sx2 - sx1) + k * ((sy2 - sy1) / ROOT3)
    requires d1 == a * n && d2 == n * flip * k / ROOT3
    ensures v2 == v1 + d1 * (x2 - x1) + d2 * (y2 - y1)
  {
    assert sy2 - sy1 == (n * flip) * (y2 - y1);
    assert sx2 - sx1 == n * (x2 - x1);
    assert k * (((n * flip) * (y2 - y1)) / ROOT3) == ((n * flip * k) / ROOT3) * (y2 - y1);
  }

  /** A blend at unit points is affine with the slopes the sampler reports. */
  lemma BlendAffine(p1: real, p2: real, p3: real, x3: real, y3: real, n: real, flip: real,
                    x1: real, y1: real, x2: real, y2: real)
    ensures Blend(p1, p2, p3, x2 * n, flip * (y2 * n), x3, y3)
            == Blend(p1, p2, p3, x1 * n, flip * (y1 * n), x3, y3)
               + SlopeX(p1, p3, n) * (x2 - x1) + SlopeY(p1, p2, p3, n, flip) * (y2 - y1)
  {
    BlendShift(p1, p2, p3, x1 * n, flip * (y1 * n), x2 * n, flip * (y2 * n), x3, y3);
    RescaleStep(Blend(p1, p2, p3, x1 * n, flip * (y1 * n), x3, y3), Blend(p1, p2, p3, x2 * n, flip * (y2 * n), x3, y3),
                p3 - p1, 2.0 * p2 - p1 - p3, n, flip, x1, y1, x2, y2,
                x1 * n, flip * (y1 * n), x2 * n, flip * (y2 * n), SlopeX(p1, p3, n), SlopeY(p1, p2, p3, n, flip));
  }

  /** s2 is exactly what s1's linearisation predicts after a step (dx, dy),
      and both report the same derivatives. */
  predicate AffineStep(s1: Sample, s2: Sample, dx: real, dy: real)
  {
    && s2.dfdx == s1.dfdx && s2.dfdy == s1.dfdy
    && s2.dgdx == s1.dgdx && s2.dgdy == s1.dgdy
    && s2.valX == s1.valX + s1.dfdx * dx + s1.dfdy * dy
    && s2.valY == s1.valY + s1.dgdx * dx + s1.dgdy * dy
  }

  /** Over one triangle the interpolated vector is affine in the query
      point, and the reported derivatives are its partial derivatives. */
  lemma EvalIsAffine(t: Tri, x1: real, y1: real, x2: real, y2: real)
    ensures AffineStep(Eval(t, x1, y1), Eval(t, x2, y2), x2 - x1, y2 - y1)
  {
    BlendAffine(t.a1, t.a2, t.a3, t.x3, t.y3, t.n, t.flip, x1, y1, x2, y2);
    BlendAffine(t.b1, t.b2, t.b3, t.x3, t.y3, t.n, t.flip, x1, y1, x2, y2);
  }

  /** Within one grid cell the interpolated vector is an affine function of
      the query point, and the four derivatives the sampler reports are its
      exact partial derivatives: they depend on the cell's corner values and
      N only, not on where in the cell the query point lies. */
  lemma BarycentricIsAffine(f: Field, c: Cell, x1: real, y1: real, x2: real, y2: real)
    requires f.Triangular() && CellInGrid(f.SideLength(), c)
    ensures AffineStep(Barycentric(f, c, x1, y1), Barycentric(f, c, x2, y2), x2 - x1, y2 - y1)
  {
    EvalIsAffine(CellTri(f, c), x1, y1, x2, y2);
  }

  /** `get_interpolated_vector` is affine between any two points it
      locates in the same cell, with the derivatives it reports as the
      slopes, and it reports the same derivatives at both. */
  lemma InterpolateIsAffine(f: Field, x1: real, y1: real, x2: real, y2: real)
    requires f.Triangular() && Locate(f, x1, y1) == Locate(f, x2, y2)
    ensures AffineStep(Interpolate(f, x1, y1), Interpolate(f, x2, y2), x2 - x1, y2 - y1)
  {
    BarycentricIsAffine(f, Locate(f, x1, y1), x1, y1, x2, y2);
  }

  // ---------------------------------------------------------------------
  // Newton's method.

  /** The Jacobian determinant of a sample. */
  function Det(s: Sample): real
  {
    s.dfdx * s.dgdy - s.dfdy * s.dgdx
  }

  /** Cramer's rule for a 2x2 system with a nonzero determinant. */
  lemma CramerSolves(a: real, b: real, c: real, d: real, p: real, q: real)
    requires a * d - b * c != 0.0
    ensures var inv := 1.0 / (a * d - b * c);
            && a * (inv * (d * p - b * q)) + b * (inv * (-c * p + a * q)) == p
            && c * (inv * (d * p - b * q)) + d * (inv * (-c * p + a * q)) == q
  {
    var det := a * d - b * c;
    var inv := 1.0 / det;
    assert inv * det == 1.0;
    calc {
      a * (inv * (d * p - b * q)) + b * (inv * (-c * p + a * q));
      inv * (a * d * p - a * b * q - b * c * p + a * b * q);
      inv * (det * p);
      p;
    }
    calc {
      c * (inv * (d * p - b * q)) + d * (inv * (-c * p + a * q));
      inv * (c * d * p - b * c * q - c * d * p + a * d * q);
      inv * (det * q);
      q;
    }
  }

  /** A 2x2 system with a nonzero determinant has at most one solution. */
  lemma SolutionUnique(a: real, b: real, c: real, d: real, dx1: real, dy1: real, dx2: real, dy2: real)
    requires a * d - b * c != 0.0
    requires a * dx1 + b * dy1 == a * dx2 + b * dy2
    requires c * dx1 + d * dy1 == c * dx2 + d * dy2
    ensures dx1 == dx2 && dy1 == dy2
  {
    var ex, ey := dx1 - dx2, dy1 - dy2;
    assert a * ex + b * ey == 0.0;
    assert c * ex + d * ey == 0.0;
    assert (a * d - b * c) * ex == d * (a * ex + b * ey) - b * (c * ex + d * ey);
    assert (a * d - b * c) * ey == a * (c * ex + d * ey) - c * (a * ex + b * ey);
  }

  /** The Newton update computed from one sample (lines 81-91): None when the
      Jacobian determinant is zero, where the source's `1.0 / 0.0` raises
      ZeroDivisionError. When it succeeds, the step d = est - r solves the
      linear system J d = (f, g) for the sampled Jacobian J and the residual
      (f, g) = (valX - ef, valY - eg). */
  function NewtonUpdate(s: Sample, ef: real, eg: real, est: Pt): (r: Option<Pt>)
    ensures r.None? <==> Det(s) == 0.0
    ensures r.Some? ==>
            && s.dfdx * (est.x - r.value.x) + s.dfdy * (est.y - r.value.y) == s.valX - ef
            && s.dgdx * (est.x - r.value.x) + s.dgdy * (est.y - r.value.y) == s.valY - eg
  {
    if Det(s) == 0.0 then None
    else
      var inv := 1.0 / Det(s);
      var dx := inv * (s.dgdy * (s.valX - ef) - s.dfdy * (s.valY - eg));
      var dy := inv * (-s.dgdx * (s.valX - ef) + s.dfdx * (s.valY - eg));
      CramerSolves(s.dfdx, s.dfdy, s.dgdx, s.dgdy, s.valX - ef, s.valY - eg);
      var r := Pt(est.x - dx, est.y - dy);
      assert est.x - r.x == dx && est.y - r.y == dy;
      Some(r)
  }

  /** Newton is exact on an affine map: when the target (ef, eg) is what the
      sample's linearisation predicts at (x2, y2), and the Jacobian is
      invertible, one update from (x1, y1) lands on (x2, y2). */
  lemma UpdateExact(s: Sample, ef: real, eg: real, x1: real, y1: real, x2: real, y2: real)
    requires Det(s) != 0.0
    requires ef == s.valX + s.dfdx * (x2 - x1) + s.dfdy * (y2 - y1)
    requires eg == s.valY + s.dgdx * (x2 - x1) + s.dgdy * (y2 - y1)
    ensures NewtonUpdate(s, ef, eg, Pt(x1, y1)) == Some(Pt(x2, y2))
  {
    var r := NewtonUpdate(s, ef, eg, Pt(x1, y1)).value;
    SolutionUnique(s.dfdx, s.dfdy, s.dgdx, s.dgdy, x1 - r.x, y1 - r.y, x1 - x2, y1 - y2);
  }

  /** The same, when the point (x2, y2) is known through its own sample s2. */
  lemma UpdateLandsOn(s1: Sample, s2: Sample, ef: real, eg: real, x1: real, y1: real, x2: real, y2: real)
    requires Det(s1) != 0.0 && AffineStep(s1, s2, x2 - x1, y2 - y1)
    requires s2.valX == ef && s2.valY == eg
    ensures NewtonUpdate(s1, ef, eg, Pt(x1, y1)) == Some(Pt(x2, y2))
  {
    UpdateExact(s1, ef, eg, x1, y1, x2, y2);
  }

  /** A root stays put: at an estimate whose sample already equals the
      target, with an invertible Jacobian, the update returns the estimate. */
  lemma UpdateAtRoot(s: Sample, ef: real, eg: real, est: Pt)
    requires Det(s) != 0.0 && s.valX == ef && s.valY == eg
    ensures NewtonUpdate(s, ef, eg, est) == Some(est)
  {
    UpdateExact(s, ef, eg, est.x, est.y, est.x, est.y);
  }

  /** The loop of `apply_newtons_method` (lines 80-93) against a sampler:
      exactly `iterations` updates, with no convergence test; a zero
      determinant on any step raises (None). */
  function Iterate(sample: Pt -> Sample, ef: real, eg: real, est: Pt, iterations: int): (r: Option<Pt>)
    ensures iterations <= 0 ==> r == Some(est)
    ensures iterations > 0 && Det(sample(est)) == 0.0 ==> r.None?
    decreases iterations
  {
    if iterations <= 0 then Some(est)
    else
      match NewtonUpdate(sample(est), ef, eg, est)
      case None => None
      case Some(next) => Iterate(sample, ef, eg, next, iterations - 1)
  }

  /** The sample hits the target (ef, eg) exactly, with an invertible Jacobian. */
  predicate Hits(s: Sample, ef: real, eg: real)
  {
    s.valX == ef && s.valY == eg && Det(s) != 0.0
  }

  /** A root the sampler maps exactly onto the target, with an invertible
      Jacobian, is a fixed point of the whole iteration. */
  lemma {:induction false} IterateFixedPoint(sample: Pt -> Sample, ef: real, eg: real, est: Pt, iterations: int)
    requires Hits(sample(est), ef, eg)
    ensures Iterate(sample, ef, eg, est, iterations) == Some(est)
    decreases iterations
  {
    if iterations > 0 {
      UpdateAtRoot(sample(est), ef, eg, est);
      IterateFixedPoint(sample, ef, eg, est, iterations - 1);
    }
  }

  /** Running a + b iterations is running a, then b more from where they ended. */
  lemma {:induction false} IterateCompose(sample: Pt -> Sample, ef: real, eg: real, est: Pt, a: nat, b: nat)
    ensures Iterate(sample, ef, eg, est, a + b)
            == match Iterate(sample, ef, eg, est, a)
               case None => None
               case Some(mid) => Iterate(sample, ef, eg, mid, b)
    decreases a
  {
    if a > 0 {
      match NewtonUpdate(sample(est), ef, eg, est)
      case None =>
      case Some(next) =>
        IterateCompose(sample, ef, eg, next, a - 1, b);
    }
  }

  /** Once an update lands on a root, every further iteration stays there:
      any positive number of iterations returns the root. */
  lemma IterateReachesRoot(sample: Pt -> Sample, ef: real, eg: real, est: Pt, root: Pt, iterations: nat)
    requires iterations >= 1
    requires NewtonUpdate(sample(est), ef, eg, est) == Some(root)
    requires Hits(sample(root), ef, eg)
    ensures Iterate(sample, ef, eg, est, iterations) == Some(root)
  {
    IterateCompose(sample, ef, eg, est, 1, iterations - 1);
    IterateFixedPoint(sample, ef, eg, root, iterations - 1);
  }

  /** The field's sampler, `get_interpolated_vector` as a function of the point. */
  function Sampler(f: Field): Pt -> Sample
    requires f.Triangular()
  {
    (p: Pt) => Interpolate(f, p.x, p.y)
  }

  /** `apply_newtons_method`: the iteration driven by the field's own
      sampler. No iterations return the estimate, a singular Jacobian at the
      estimate raises, and an estimate the field already maps onto the
      target is returned as it is. */
  function ApplyNewtons(f: Field, ef: real, eg: real, est: Pt, iterations: int): (r: Option<Pt>)
    requires f.Triangular()
    ensures iterations <= 0 ==> r == Some(est)
    ensures iterations > 0 && Det(Interpolate(f, est.x, est.y)) == 0.0 ==> r.None?
    ensures Hits(Interpolate(f, est.x, est.y), ef, eg) ==> r == Some(est)
  {
    assert Sampler(f)(est) == Interpolate(f, est.x, est.y);
    if Hits(Interpolate(f, est.x, est.y), ef, eg) then
      IterateFixedPoint(Sampler(f), ef, eg, est, iterations);
      Iterate(Sampler(f), ef, eg, est, iterations)
    else
      Iterate(Sampler(f), ef, eg, est, iterations)
  }

  /** One Newton update from any estimate in the same cell as a point the
      field maps onto the target lands exactly on that point, because the
      interpolant is affine over the cell. */
  lemma NewtonExactInCell(f: Field, ef: real, eg: real, x1: real, y1: real, x2: real, y2: real)
    requires f.Triangular()
    requires Locate(f, x1, y1) == Locate(f, x2, y2)
    requires Det(Interpolate(f, x1, y1)) != 0.0
    requires Interpolate(f, x2, y2).valX == ef && Interpolate(f, x2, y2).valY == eg
    ensures NewtonUpdate(Interpolate(f, x1, y1), ef, eg, Pt(x1, y1)) == Some(Pt(x2, y2))
  {
    BarycentricIsAffine(f, Locate(f, x1, y1), x1, y1, x2, y2);
    UpdateLandsOn(Interpolate(f, x1, y1), Interpolate(f, x2, y2), ef, eg, x1, y1, x2, y2);
  }

  /** The inverse the conformal correction relies on: started anywhere in
      the cell of a root, any positive number of iterations returns that
      root exactly. */
  lemma ApplyNewtonsFindsRoot(f: Field, ef: real, eg: real, est: Pt, root: Pt, iterations: nat)
    requires f.Triangular() && iterations >= 1
    requires Hits(Interpolate(f, root.x, root.y), ef, eg)
    requires Locate(f, est.x, est.y) == Locate(f, root.x, root.y)
    requires Det(Interpolate(f, est.x, est.y)) != 0.0
    ensures ApplyNewtons(f, ef, eg, est, iterations) == Some(root)
  {
    NewtonExactInCell(f, ef, eg, est.x, est.y, root.x, root.y);
    assert Sampler(f)(est) == Interpolate(f, est.x, est.y);
    assert Sampler(f)(root) == Interpolate(f, root.x, root.y);
    IterateReachesRoot(Sampler(f), ef, eg, est, root, iterations);
  }
}
