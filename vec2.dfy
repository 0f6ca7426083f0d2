/**
 * Two-dimensional vectors over the reals (`arcgame/base/vec2.py`).
 *
 * Square roots are not available to the verifier as a function with a body,
 * so every operation that needs a length receives the square root as a
 * parameter `sqrt` together with the requirement `IsSqrt(sqrt)`: it returns,
 * for every non-negative argument, the non-negative number whose square is
 * that argument.  Everything else is exact real arithmetic.
 */
module Vec2 {
  datatype Vec = Vec(x: real, y: real)

  const Zero: Vec := Vec(0.0, 0.0)

  /**
   * The identity on reals.  Squares are written `c * Twin(c)` so that the
   * solver treats them as a product of two terms, which it reasons about
   * reliably, rather than as a power.
   */
  function Twin(c: real): real { c }

  function Square(c: real): real { c * Twin(c) }

  /**
   * `sqrt` is the square root on non-negative reals: the properties of the
   * mathematical square root that the proofs of this model rely on.
   */
  ghost predicate IsSqrt(sqrt: real -> real)
  {
    && (forall r :: 0.0 <= r ==> 0.0 <= sqrt(r))
    && (forall r {:trigger Square(sqrt(r))} :: 0.0 <= r ==> Square(sqrt(r)) == r)
    && (forall r :: 0.0 < r ==> 0.0 < sqrt(r))
    && sqrt(0.0) == 0.0
    && (forall a, b :: 0.0 <= a < b ==> sqrt(a) < sqrt(b))
    && (forall c :: 0.0 <= c ==> sqrt(Square(c)) == c)
  }

  function Add(a: Vec, b: Vec): Vec { Vec(a.x + b.x, a.y + b.y) }

  function Sub(a: Vec, b: Vec): Vec { Vec(a.x - b.x, a.y - b.y) }

  function Scale(a: Vec, s: real): Vec { Vec(a.x * s, a.y * s) }

  function Neg(a: Vec): Vec { Vec(-a.x, -a.y) }

  function Dot(a: Vec, b: Vec): real { a.x * b.x + a.y * b.y }

  /** The scalar 2D cross product. */
  function Cross(a: Vec, b: Vec): real { a.x * b.y - a.y * b.x }

  function Abs(r: real): (a: real)
    ensures 0.0 <= a && (a == r || a == -r)
  {
    if r < 0.0 then -r else r
  }

  function Min(a: real, b: real): (r: real)
    ensures r <= a && r <= b && (r == a || r == b)
  {
    if a <= b then a else b
  }

  function Max(a: real, b: real): (r: real)
    ensures a <= r && b <= r && (r == a || r == b)
  {
    if a >= b then a else b
  }

  /** Python's `max(lo, min(hi, t))`. */
  function Clamp01(t: real): (r: real)
    ensures 0.0 <= r <= 1.0
    ensures 0.0 <= t <= 1.0 ==> r == t
    ensures t <= 0.0 ==> r == 0.0
    ensures t >= 1.0 ==> r == 1.0
  {
    Max(0.0, Min(1.0, t))
  }

  lemma MulPos(a: real, b: real)
    requires 0.0 < a && 0.0 < b
    ensures 0.0 < a * b
  {
  }

  lemma SquarePos(r: real)
    requires r != 0.0
    ensures 0.0 < Square(r)
  {
    if r > 0.0 {
      MulPos(r, Twin(r));
    } else {
      MulPos(-r, -Twin(r));
      assert (-r) * (-Twin(r)) == Square(r);
    }
  }

  lemma SquareNonNegative(r: real)
    ensures 0.0 <= Square(r)
  {
    if r != 0.0 {
      SquarePos(r);
    }
  }

  lemma SumSquares(x: real, y: real)
    ensures 0.0 <= Square(x) + Square(y)
    ensures x != 0.0 || y != 0.0 ==> 0.0 < Square(x) + Square(y)
  {
    SquareNonNegative(x);
    SquareNonNegative(y);
    if x != 0.0 {
      SquarePos(x);
    }
    if y != 0.0 {
      SquarePos(y);
    }
  }

  /** The squared length, never negative. */
  function LengthSq(a: Vec): (r: real)
    ensures 0.0 <= r
  {
    SumSquares(a.x, a.y);
    Square(a.x) + Square(a.y)
  }

  /** Only the zero vector has squared length zero. */
  lemma LengthSqPositive(a: Vec)
    ensures a == Zero ==> LengthSq(a) == 0.0
    ensures a != Zero ==> 0.0 < LengthSq(a)
  {
    if a != Zero {
      assert a.x != 0.0 || a.y != 0.0;
      SumSquares(a.x, a.y);
    }
  }

  function DistanceSq(a: Vec, b: Vec): (r: real)
    ensures 0.0 <= r
  {
    LengthSq(Sub(a, b))
  }

  /** `Vec2.length`: the Euclidean norm, the square root of the squared length. */
  function Length(a: Vec, sqrt: real -> real): real
  {
    sqrt(LengthSq(a))
  }

  /** The length is non-negative, zero exactly for the zero vector, and squares to the squared length. */
  lemma LengthFacts(a: Vec, sqrt: real -> real)
    requires IsSqrt(sqrt)
    ensures 0.0 <= Length(a, sqrt)
    ensures a == Zero <==> Length(a, sqrt) == 0.0
    ensures Square(Length(a, sqrt)) == LengthSq(a)
  {
    LengthZero(a, sqrt);
    RootSquared(LengthSq(a), sqrt);
  }

  lemma LengthZero(a: Vec, sqrt: real -> real)
    requires IsSqrt(sqrt)
    ensures 0.0 <= Length(a, sqrt)
    ensures a == Zero <==> Length(a, sqrt) == 0.0
  {
    LengthSqPositive(a);
  }

  lemma RootSquared(r: real, sqrt: real -> real)
    requires IsSqrt(sqrt) && 0.0 <= r
    ensures Square(sqrt(r)) == r
  {
  }

  /** `Vec2.distance`. */
  function Distance(a: Vec, b: Vec, sqrt: real -> real): real
  {
    Length(Sub(a, b), sqrt)
  }

  /** A length compares with a non-negative bound as its square compares with the bound's square. */
  lemma LengthCompare(a: Vec, c: real, sqrt: real -> real)
    requires IsSqrt(sqrt) && 0.0 <= c
    ensures Length(a, sqrt) < c <==> LengthSq(a) < Square(c)
    ensures Length(a, sqrt) <= c <==> LengthSq(a) <= Square(c)
  {
    SquareNonNegative(c);
    LengthFacts(a, sqrt);
    assert sqrt(Square(c)) == c;
  }

  /** `Vec2.distance` against a bound, by squares. */
  lemma DistanceCompare(a: Vec, b: Vec, c: real, sqrt: real -> real)
    requires IsSqrt(sqrt) && 0.0 <= c
    ensures Distance(a, b, sqrt) < c <==> DistanceSq(a, b) < Square(c)
    ensures Distance(a, b, sqrt) <= c <==> DistanceSq(a, b) <= Square(c)
  {
    LengthCompare(Sub(a, b), c, sqrt);
  }

  lemma ScaleLengthSq(a: Vec, s: real)
    ensures LengthSq(Scale(a, s)) == Square(s) * LengthSq(a)
  {
  }

  lemma SquareOfProduct(a: real, b: real)
    ensures Square(a) * Square(b) == Square(a * b)
  {
  }

  /** Scaling by `m / |a|` gives squared length `m * m`. */
  lemma ScaleToLength(a: Vec, m: real, sqrt: real -> real)
    requires IsSqrt(sqrt) && a != Zero
    ensures LengthSq(Scale(a, m / Length(a, sqrt))) == Square(m)
  {
    LengthFacts(a, sqrt);
    ScaleToSquare(a, m, Length(a, sqrt));
  }

  lemma ScaleToSquare(a: Vec, m: real, len: real)
    requires 0.0 < len && Square(len) == LengthSq(a)
    ensures LengthSq(Scale(a, m / len)) == Square(m)
  {
    ScaleLengthSq(a, m / len);
    SquareOfProduct(m / len, len);
    assert (m / len) * len == m;
  }

  /**
   * `Vec2.normalize`: a vector of length 0 maps to the zero vector (no
   * division by zero); any other vector is divided by its length.
   */
  function Normalize(a: Vec, sqrt: real -> real): (r: Vec)
    ensures Length(a, sqrt) == 0.0 ==> r == Zero
    ensures Length(a, sqrt) != 0.0 ==> r == Scale(a, 1.0 / Length(a, sqrt))
  {
    var len := Length(a, sqrt);
    if len == 0.0 then Zero
    else Vec(a.x / len, a.y / len)
  }

  /**
   * With a true square root, the zero vector normalises to the zero vector
   * and any other vector to one of unit length, in the same direction.
   */
  lemma NormalizeUnit(a: Vec, sqrt: real -> real)
    requires IsSqrt(sqrt)
    ensures a == Zero ==> Normalize(a, sqrt) == Zero
    ensures a != Zero ==> LengthSq(Normalize(a, sqrt)) == 1.0
    ensures a != Zero ==> 0.0 < 1.0 / Length(a, sqrt) && Normalize(a, sqrt) == Scale(a, 1.0 / Length(a, sqrt))
  {
    LengthFacts(a, sqrt);
    if a != Zero {
      ScaleToLength(a, 1.0, sqrt);
    }
  }

  /**
   * `Vec2.clamp_length`: a vector no longer than `m` comes back unchanged;
   * a longer one is scaled by `m / length`.
   */
  function ClampLength(a: Vec, m: real, sqrt: real -> real): (r: Vec)
    requires IsSqrt(sqrt)
    ensures Length(a, sqrt) <= m || a == Zero ==> r == a
    ensures Length(a, sqrt) > m && a != Zero ==> 0.0 < Length(a, sqrt) && r == Scale(a, m / Length(a, sqrt))
  {
    LengthFacts(a, sqrt);
    var len := Length(a, sqrt);
    if len > m && len != 0.0 then Scale(a, m / len)
    else Vec(a.x, a.y)
  }

  /** For `m >= 0` the clamped vector is no longer than `m`, and exactly `m` long when clamping applied. */
  lemma ClampLengthBound(a: Vec, m: real, sqrt: real -> real)
    requires IsSqrt(sqrt) && 0.0 <= m
    ensures LengthSq(ClampLength(a, m, sqrt)) <= Square(m)
    ensures Length(a, sqrt) > m ==> LengthSq(ClampLength(a, m, sqrt)) == Square(m)
  {
    LengthCompare(a, m, sqrt);
    LengthFacts(a, sqrt);
    if Length(a, sqrt) > m {
      assert a != Zero;
      ScaleToLength(a, m, sqrt);
    }
  }

  /** `Vec2.__eq__`: component-wise equality within 1e-6. */
  predicate ApproxEq(a: Vec, b: Vec)
  {
    Abs(a.x - b.x) < 0.000001 && Abs(a.y - b.y) < 0.000001
  }

  lemma ApproxEqReflexive(a: Vec)
    ensures ApproxEq(a, a)
  {
  }

  lemma ApproxEqSymmetric(a: Vec, b: Vec)
    ensures ApproxEq(a, b) <==> ApproxEq(b, a)
  {
  }

  /** Tolerance equality is not transitive: three points 0.6e-6 apart. */
  lemma ApproxEqNotTransitive()
    ensures exists a: Vec, b: Vec, c: Vec ::
      ApproxEq(a, b) && ApproxEq(b, c) && !ApproxEq(a, c)
  {
    var a, b, c := Vec(0.0, 0.0), Vec(0.0000006, 0.0), Vec(0.0000012, 0.0);
    assert ApproxEq(a, b) && ApproxEq(b, c) && !ApproxEq(a, c);
  }

  lemma DotSymmetric(a: Vec, b: Vec)
    ensures Dot(a, b) == Dot(b, a)
  {
  }

  lemma CrossAntisymmetric(a: Vec, b: Vec)
    ensures Cross(a, b) == -Cross(b, a)
    ensures Cross(a, a) == 0.0
  {
  }

  /**
   * `closest_point_on_line`: a segment shorter than 1e-4 (squared length
   * below 1e-8) yields its start; otherwise the projection parameter is
   * clamped into [0, 1], so the result lies on the segment.
   */
  function ClosestPointOnLine(start: Vec, end: Vec, p: Vec): (r: Vec)
    ensures LengthSq(Sub(end, start)) < 0.00000001 ==> r == start
    ensures LengthSq(Sub(end, start)) >= 0.00000001 ==>
      exists t: real :: 0.0 <= t <= 1.0 && r == Add(start, Scale(Sub(end, start), t))
  {
    var line := Sub(end, start);
    var lenSq := LengthSq(line);
    if lenSq < 0.00000001 then start
    else
      var t := Clamp01(Dot(Sub(p, start), line) / lenSq);
      Add(start, Scale(line, t))
  }

  /** `|w - d t|^2` expanded as a quadratic in `t`. */
  /** `|w - t d|^2` expanded in `t`, from `|w|^2`, `w . d` and `|d|^2`. */
  function Expand(w2: real, t: real, b: real, l: real): real
  {
    w2 - 2.0 * t * b + t * t * l
  }

  /** The squared distance from `p` to the point `t` along `d` from `start`, expanded in `t`. */
  lemma DistanceAlong(p: Vec, start: Vec, d: Vec, t: real)
    ensures DistanceSq(p, Add(start, Scale(d, t))) == Expand(LengthSq(Sub(p, start)), t, Dot(Sub(p, start), d), LengthSq(d))
  {
    var w := Sub(p, start);
    calc {
      DistanceSq(p, Add(start, Scale(d, t)));
      { SubAlong(p, start, d, t); }
      LengthSq(Sub(w, Scale(d, t)));
      { QuadraticExpansion(w, d, t); }
      Expand(LengthSq(w), t, Dot(w, d), LengthSq(d));
    }
  }

  lemma SubAlong(p: Vec, start: Vec, d: Vec, t: real)
    ensures Sub(p, Add(start, Scale(d, t))) == Sub(Sub(p, start), Scale(d, t))
  {
  }

  lemma QuadraticExpansion(w: Vec, d: Vec, t: real)
    ensures LengthSq(Sub(w, Scale(d, t))) == LengthSq(w) - 2.0 * t * Dot(w, d) + t * t * LengthSq(d)
  {
  }

  lemma ProductNonNegative(a: real, b: real)
    requires (0.0 <= a && 0.0 <= b) || (a <= 0.0 && b <= 0.0)
    ensures 0.0 <= a * b
  {
    if a < 0.0 && b < 0.0 {
      assert (-a) * (-b) == a * b;
    }
  }

  /**
   * The clamped projection `s` of `b / l` onto `[0, 1]` minimises the
   * quadratic `t^2 l - 2 t b` over `[0, 1]`: its value at any `t` in the
   * interval exceeds the value at `s` by `(t - s) ((t + s) l - 2 b) >= 0`.
   */
  lemma ProjectionGap(t: real, s: real, l: real, b: real)
    requires 0.0 < l && 0.0 <= t <= 1.0 && s == Clamp01(b / l)
    ensures 0.0 <= (t - s) * ((t + s) * l - 2.0 * b)
  {
    var q := b / l;
    assert b == q * l;
    if q <= 0.0 {
      assert s == 0.0;
      assert b <= 0.0 by { ProductNonNegative(-q, l); }
      ProductNonNegative(t, t * l);
      ProductNonNegative(t, t * l - 2.0 * b);
    } else if q >= 1.0 {
      assert s == 1.0;
      assert b >= l by { ProductNonNegative(q - 1.0, l); }
      ProductNonNegative(1.0 - t, l);
      assert (t + 1.0) * l <= 2.0 * l;
      ProductNonNegative(t - 1.0, (t + 1.0) * l - 2.0 * b);
    } else {
      assert s == q;
      assert (t + s) * l - 2.0 * b == (t - s) * l;
      ProductNonNegative(t - s, t - s);
      ProductNonNegative((t - s) * (t - s), l);
      assert (t - s) * ((t - s) * l) == ((t - s) * (t - s)) * l;
    }
  }

  /**
   * `closest_point_on_line` is optimal: no point of the segment is nearer
   * to `p` than the returned one (when the segment is not degenerate).
   */
  lemma ClosestPointOnLineIsClosest(start: Vec, end: Vec, p: Vec, t: real)
    requires LengthSq(Sub(end, start)) >= 0.00000001 && 0.0 <= t <= 1.0
    ensures DistanceSq(p, ClosestPointOnLine(start, end, p)) <= DistanceSq(p, Add(start, Scale(Sub(end, start), t)))
  {
    var d := Sub(end, start);
    var w := Sub(p, start);
    var l := LengthSq(d);
    var b := Dot(w, d);
    var s := Clamp01(b / l);
    var c := ClosestPointOnLine(start, end, p);
    assert c == Add(start, Scale(d, s));
    DistanceAlong(p, start, d, s);
    DistanceAlong(p, start, d, t);
    ProjectionGap(t, s, l, b);
    GapFactors(LengthSq(w), t, s, l, b);
  }

  /** The difference of the two expanded distances factors through `t - s`. */
  lemma GapFactors(w2: real, t: real, s: real, l: real, b: real)
    ensures Expand(w2, t, b, l) - Expand(w2, s, b, l) == (t - s) * ((t + s) * l - 2.0 * b)
  {
  }

  /** Membership in the axis-aligned rectangle with top-left `tl` and extent `size`. */
  predicate InRectangle(tl: Vec, size: Vec, p: Vec)
  {
    tl.x <= p.x <= tl.x + size.x && tl.y <= p.y <= tl.y + size.y
  }

  /**
   * `closest_point_on_rectangle`: the point clamped into the rectangle; it
   * lies inside a rectangle of non-negative extent and is the point itself
   * when that is already inside.
   */
  function ClosestPointOnRectangle(tl: Vec, size: Vec, p: Vec): (r: Vec)
    ensures 0.0 <= size.x && 0.0 <= size.y ==> InRectangle(tl, size, r)
    ensures InRectangle(tl, size, p) ==> r == p
  {
    Vec(Max(tl.x, Min(p.x, tl.x + size.x)), Max(tl.y, Min(p.y, tl.y + size.y)))
  }

  /** `lerp` with `t` clamped into [0, 1]: at or below 0 gives `a`, at or above 1 gives `b`. */
  function Lerp(a: Vec, b: Vec, t: real): (r: Vec)
    ensures t <= 0.0 ==> r == a
    ensures t >= 1.0 ==> r == b
    ensures r == Add(a, Scale(Sub(b, a), Clamp01(t)))
  {
    Add(a, Scale(Sub(b, a), Clamp01(t)))
  }
}
