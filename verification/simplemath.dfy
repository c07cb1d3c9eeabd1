/**
  The small vector helpers of the viewer: the orthographic projection matrix
  and the affine UV projector used to map track-matte vertices into the UV
  space of the layer they mask. Everything is over exact `real` arithmetic.
 */
module SimpleMath {

  datatype Vec2 = Vec2(x: real, y: real)

  datatype Vec3 = Vec3(x: real, y: real, z: real) {
    /** The first two components, which is all the UV projector reads of a position. */
    function XY(): Vec2 {
      Vec2(x, y)
    }
  }

  /** A column-major 4x4 matrix, stored as the 16 floats of the C array. */
  type Mat4 = m: seq<real> | |m| == 16 witness seq(16, _ => 0.0)

  /** `__minus_v2`: component-wise difference `a - b`. */
  function Minus(a: Vec2, b: Vec2): Vec2 {
    Vec2(a.x - b.x, a.y - b.y)
  }

  /** `__mul_v2_f`: scales both components by `f`. */
  function Scale(v: Vec2, f: real): Vec2 {
    Vec2(v.x * f, v.y * f)
  }

  /** `__dot_v3`: the dot product of two 3-vectors. */
  function Dot3(a: Vec3, b: Vec3): real {
    a.x * b.x + a.y * b.y + a.z * b.z
  }

  /** The z component of the cross product of two plane vectors. */
  function Cross(u: Vec2, v: Vec2): real {
    u.x * v.y - u.y * v.x
  }

  /** The determinant the projector divides by: the doubled signed area of the triangle. */
  function Det(a: Vec2, b: Vec2, c: Vec2): real {
    Cross(Minus(b, a), Minus(c, a))
  }

  // ---------------------------------------------------------------------------
  // Orthographic projection
  // ---------------------------------------------------------------------------

  /**
    `MakeOrtho2DMat`: the projection that maps the box
    [left, right] x [bottom, top] x [-zNear, -zFar] onto the unit cube.
    The source divides by the three extents without a guard.
   */
  function MakeOrtho2DMat(left: real, right: real, top: real, bottom: real, zNear: real, zFar: real): (m: Mat4)
    requires right != left && top != bottom && zFar != zNear
    ensures m[0] * left + m[12] == -1.0 && m[0] * right + m[12] == 1.0
    ensures m[5] * top + m[13] == 1.0 && m[5] * bottom + m[13] == -1.0
    ensures m[10] * -zNear + m[14] == -1.0 && m[10] * -zFar + m[14] == 1.0
    ensures m[15] == 1.0
    ensures forall i :: 0 <= i < 16 && !OrthoEntry(i) ==> m[i] == 0.0
  {
    var m0 := 2.0 / (right - left);
    var m5 := 2.0 / (top - bottom);
    var m10 := -2.0 / (zFar - zNear);
    var m12 := -(right + left) / (right - left);
    var m13 := -(top + bottom) / (top - bottom);
    var m14 := -(zFar + zNear) / (zFar - zNear);
    EdgesToUnit(left, right);
    EdgesToUnit(bottom, top);
    EdgesToUnit(-zNear, -zFar);
    [m0, 0.0, 0.0, 0.0,
     0.0, m5, 0.0, 0.0,
     0.0, 0.0, m10, 0.0,
     m12, m13, m14, 1.0]
  }

  /** The indices `MakeOrtho2DMat` assigns a value other than zero to, or may. */
  predicate OrthoEntry(i: int) {
    i == 0 || i == 5 || i == 10 || i == 12 || i == 13 || i == 14 || i == 15
  }

  /** The scale `2/(hi-lo)` and offset `-(hi+lo)/(hi-lo)` send `lo` to -1 and `hi` to +1. */
  lemma EdgesToUnit(lo: real, hi: real)
    requires hi != lo
    ensures (2.0 / (hi - lo)) * lo + -(hi + lo) / (hi - lo) == -1.0
    ensures (2.0 / (hi - lo)) * hi + -(hi + lo) / (hi - lo) == 1.0
  {
    var d := hi - lo;
    assert (2.0 / d) * lo == (2.0 * lo) / d;
    assert (2.0 / d) * hi == (2.0 * hi) / d;
    assert -(hi + lo) / d == (-(hi + lo)) / d;
    assert (2.0 * lo) / d + (-(hi + lo)) / d == (lo - hi) / d;
    assert (2.0 * hi) / d + (-(hi + lo)) / d == (hi - lo) / d;
  }

  // ---------------------------------------------------------------------------
  // Affine UV projector
  // ---------------------------------------------------------------------------

  /**
    `CalcPointUV`: the UV at `p` of the affine map that sends the triangle
    `a`, `b`, `c` to `auv`, `buv`, `cuv`. Computed step for step as the
    source does; the single division is by the triangle's determinant, which
    the source does not guard and the model therefore requires non-zero.
    The result is the reference affine map at the point's affine
    coordinates, whatever the point; so it is exact at the corners
    (`ProjectorAtCorners`) and affine everywhere, including outside the
    triangle (`ProjectorIsAffine`).
   */
  function CalcPointUV(a: Vec2, b: Vec2, c: Vec2, auv: Vec2, buv: Vec2, cuv: Vec2, p: Vec2): (uv: Vec2)
    requires Det(a, b, c) != 0.0
    ensures var st := Coordinates(a, b, c, p);
            uv == AffineUV(auv, buv, cuv, st.x, st.y)
  {
    var coeffs := ProjectorCoefficients(a, b, c, p);
    var st := Coordinates(a, b, c, p);
    AffineCoordinates(a, b, c, p);
    AlphaIsS(a, b, c, st.x, st.y);
    BetaIsT(a, b, c, st.x, st.y);
    assert coeffs == st;
    var duvAB := Minus(buv, auv);
    var duvAC := Minus(cuv, auv);
    var abv := Vec3(1.0, coeffs.x, coeffs.y);
    Vec2(Dot3(Vec3(auv.x, duvAB.x, duvAC.x), abv), Dot3(Vec3(auv.y, duvAB.y, duvAC.y), abv))
  }

  /**
    The two coefficients `a` and `b` of `CalcPointUV` (returned as x and y):
    the edges scaled by the inverse determinant, dotted with `[1, p.x, p.y]`.
   */
  function ProjectorCoefficients(a: Vec2, b: Vec2, c: Vec2, p: Vec2): Vec2
    requires Det(a, b, c) != 0.0
  {
    var dAB0 := Minus(b, a);
    var dAC0 := Minus(c, a);
    var invV := 1.0 / (dAB0.x * dAC0.y - dAB0.y * dAC0.x);
    var dAB := Scale(dAB0, invV);
    var dAC := Scale(dAC0, invV);
    var dac := Vec2(dAC.x * a.y - dAC.y * a.x, dAB.y * a.x - dAB.x * a.y);
    var pv := Vec3(1.0, p.x, p.y);
    var av := Vec3(dac.x, dAC.y, -dAC.x);
    var bv := Vec3(dac.y, -dAB.y, dAB.x);
    Vec2(Dot3(av, pv), Dot3(bv, pv))
  }

  /** The reference affine map: `auv + s*(buv-auv) + t*(cuv-auv)`. */
  function AffineUV(auv: Vec2, buv: Vec2, cuv: Vec2, s: real, t: real): Vec2 {
    Vec2(auv.x + (buv.x - auv.x) * s + (cuv.x - auv.x) * t,
         auv.y + (buv.y - auv.y) * s + (cuv.y - auv.y) * t)
  }

  /** The point `a + s*(b-a) + t*(c-a)` of the plane spanned by the triangle. */
  function AffinePoint(a: Vec2, b: Vec2, c: Vec2, s: real, t: real): Vec2 {
    Vec2(a.x + (b.x - a.x) * s + (c.x - a.x) * t,
         a.y + (b.y - a.y) * s + (c.y - a.y) * t)
  }

  /**
    The affine coordinates `(s, t)` of `p` with respect to the triangle,
    as the x and y of the result: `s = (p-a)x(c-a)/d`, `t = (b-a)x(p-a)/d`.
   */
  function Coordinates(a: Vec2, b: Vec2, c: Vec2, p: Vec2): Vec2
    requires Det(a, b, c) != 0.0
  {
    var d := Det(a, b, c);
    Vec2(Cross(Minus(p, a), Minus(c, a)) / d, Cross(Minus(b, a), Minus(p, a)) / d)
  }

  /**
    The first coefficient the projector computes (its `a`) is the `s` of
    `p = a + s*(b-a) + t*(c-a)`, whatever `t` is.
   */
  lemma AlphaIsS(a: Vec2, b: Vec2, c: Vec2, s: real, t: real)
    requires Det(a, b, c) != 0.0
    ensures ProjectorCoefficients(a, b, c, AffinePoint(a, b, c, s, t)).x == s
  {
    var d := Det(a, b, c);
    var invV := 1.0 / d;
    var ab := Minus(b, a);
    var ac := Minus(c, a);
    var p := AffinePoint(a, b, c, s, t);
    assert p.x - a.x == s * ab.x + t * ac.x;
    assert p.y - a.y == s * ab.y + t * ac.y;
    calc {
      (ac.x * invV * a.y - ac.y * invV * a.x) * 1.0 + ac.y * invV * p.x + -(ac.x * invV) * p.y;
      invV * (ac.y * (p.x - a.x) - ac.x * (p.y - a.y));
      invV * (ac.y * (s * ab.x + t * ac.x) - ac.x * (s * ab.y + t * ac.y));
      { assert ac.y * (s * ab.x + t * ac.x) - ac.x * (s * ab.y + t * ac.y) == s * (ab.x * ac.y - ab.y * ac.x); }
      invV * (s * d);
      s * (invV * d);
      { assert invV * d == 1.0; }
      s;
    }
  }

  /** The second coefficient (the source's `b`) is the `t` of the same decomposition. */
  lemma BetaIsT(a: Vec2, b: Vec2, c: Vec2, s: real, t: real)
    requires Det(a, b, c) != 0.0
    ensures ProjectorCoefficients(a, b, c, AffinePoint(a, b, c, s, t)).y == t
  {
    var d := Det(a, b, c);
    var invV := 1.0 / d;
    var ab := Minus(b, a);
    var ac := Minus(c, a);
    var p := AffinePoint(a, b, c, s, t);
    assert p.x - a.x == s * ab.x + t * ac.x;
    assert p.y - a.y == s * ab.y + t * ac.y;
    calc {
      (ab.y * invV * a.x - ab.x * invV * a.y) * 1.0 + -(ab.y * invV) * p.x + ab.x * invV * p.y;
      invV * (ab.x * (p.y - a.y) - ab.y * (p.x - a.x));
      invV * (ab.x * (s * ab.y + t * ac.y) - ab.y * (s * ab.x + t * ac.x));
      { assert ab.x * (s * ab.y + t * ac.y) - ab.y * (s * ab.x + t * ac.x) == t * (ab.x * ac.y - ab.y * ac.x); }
      invV * (t * d);
      t * (invV * d);
      { assert invV * d == 1.0; }
      t;
    }
  }

  /**
    The projector is the affine map of the triangle, unclamped: at the point
    with affine coordinates `(s, t)` it returns the UV with the same
    coordinates, for any `s` and `t`, inside the triangle or not.
   */
  lemma ProjectorIsAffine(a: Vec2, b: Vec2, c: Vec2, auv: Vec2, buv: Vec2, cuv: Vec2, s: real, t: real)
    requires Det(a, b, c) != 0.0
    ensures CalcPointUV(a, b, c, auv, buv, cuv, AffinePoint(a, b, c, s, t)) == AffineUV(auv, buv, cuv, s, t)
  {
    AlphaIsS(a, b, c, s, t);
    BetaIsT(a, b, c, s, t);
  }

  /** Every point of the plane has affine coordinates with respect to a non-degenerate triangle. */
  lemma AffineCoordinates(a: Vec2, b: Vec2, c: Vec2, p: Vec2)
    requires Det(a, b, c) != 0.0
    ensures var st := Coordinates(a, b, c, p);
            AffinePoint(a, b, c, st.x, st.y) == p
  {
    var d := Det(a, b, c);
    var ab := Minus(b, a);
    var ac := Minus(c, a);
    var q := Minus(p, a);
    var s := Cross(q, ac) / d;
    var t := Cross(ab, q) / d;
    assert s * d == Cross(q, ac);
    assert t * d == Cross(ab, q);
    assert (s * ab.x + t * ac.x) * d == q.x * d by {
      calc {
        (s * ab.x + t * ac.x) * d;
        (s * d) * ab.x + (t * d) * ac.x;
        (q.x * ac.y - q.y * ac.x) * ab.x + (ab.x * q.y - ab.y * q.x) * ac.x;
        q.x * (ab.x * ac.y - ab.y * ac.x);
        q.x * d;
      }
    }
    assert (s * ab.y + t * ac.y) * d == q.y * d by {
      calc {
        (s * ab.y + t * ac.y) * d;
        (s * d) * ab.y + (t * d) * ac.y;
        (q.x * ac.y - q.y * ac.x) * ab.y + (ab.x * q.y - ab.y * q.x) * ac.y;
        q.y * (ab.x * ac.y - ab.y * ac.x);
        q.y * d;
      }
    }
    CancelNonZero(s * ab.x + t * ac.x, q.x, d);
    CancelNonZero(s * ab.y + t * ac.y, q.y, d);
  }

  lemma CancelNonZero(x: real, y: real, d: real)
    requires d != 0.0 && x * d == y * d
    ensures x == y
  {
    assert (x - y) * d == 0.0;
  }

  /** At the three corners the projector returns the corners' own UVs exactly. */
  lemma ProjectorAtCorners(a: Vec2, b: Vec2, c: Vec2, auv: Vec2, buv: Vec2, cuv: Vec2)
    requires Det(a, b, c) != 0.0
    ensures CalcPointUV(a, b, c, auv, buv, cuv, a) == auv
    ensures CalcPointUV(a, b, c, auv, buv, cuv, b) == buv
    ensures CalcPointUV(a, b, c, auv, buv, cuv, c) == cuv
  {
    CornerCoordinates(a, b, c);
    CornerCoordinates(auv, buv, cuv);
    ProjectorAtCoordinates(a, b, c, auv, buv, cuv, 0.0, 0.0, a, auv);
    ProjectorAtCoordinates(a, b, c, auv, buv, cuv, 1.0, 0.0, b, buv);
    ProjectorAtCoordinates(a, b, c, auv, buv, cuv, 0.0, 1.0, c, cuv);
  }

  /** The corners of a triangle have affine coordinates (0,0), (1,0) and (0,1). */
  lemma CornerCoordinates(a: Vec2, b: Vec2, c: Vec2)
    ensures AffinePoint(a, b, c, 0.0, 0.0) == a
    ensures AffinePoint(a, b, c, 1.0, 0.0) == b
    ensures AffinePoint(a, b, c, 0.0, 1.0) == c
  {
  }

  /** `ProjectorIsAffine` at a point and UV already known to have coordinates `(s, t)`. */
  lemma ProjectorAtCoordinates(a: Vec2, b: Vec2, c: Vec2, auv: Vec2, buv: Vec2, cuv: Vec2,
                               s: real, t: real, p: Vec2, uv: Vec2)
    requires Det(a, b, c) != 0.0
    requires AffinePoint(a, b, c, s, t) == p && AffineUV(auv, buv, cuv, s, t) == uv
    ensures CalcPointUV(a, b, c, auv, buv, cuv, p) == uv
  {
    ProjectorIsAffine(a, b, c, auv, buv, cuv, s, t);
  }

  /**
    A worked example: triangle (0,0), (10,0), (0,10) with
    UVs (0,0), (1,0), (0,1) maps the point (5,5) to the UV (0.5, 0.5).
   */
  lemma ProjectorExample(a: Vec2, b: Vec2, c: Vec2, auv: Vec2, buv: Vec2, cuv: Vec2, p: Vec2)
    requires a == Vec2(0.0, 0.0) && b == Vec2(10.0, 0.0) && c == Vec2(0.0, 10.0)
    requires auv == Vec2(0.0, 0.0) && buv == Vec2(1.0, 0.0) && cuv == Vec2(0.0, 1.0)
    requires p == Vec2(5.0, 5.0)
    ensures Det(a, b, c) != 0.0 && CalcPointUV(a, b, c, auv, buv, cuv, p) == Vec2(0.5, 0.5)
  {
    assert Minus(b, a) == Vec2(10.0, 0.0);
    assert Minus(c, a) == Vec2(0.0, 10.0);
    assert Cross(Vec2(10.0, 0.0), Vec2(0.0, 10.0)) == 100.0;
    assert AffinePoint(a, b, c, 0.5, 0.5) == p;
    assert AffineUV(auv, buv, cuv, 0.5, 0.5) == Vec2(0.5, 0.5);
    ProjectorAtCoordinates(a, b, c, auv, buv, cuv, 0.5, 0.5, Vec2(5.0, 5.0), Vec2(0.5, 0.5));
  }
}
