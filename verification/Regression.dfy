// Exact-arithmetic scores of the motion-block field scan: least-squares R^2,
// correlation and the monotone-step fraction.

module Regression {

  function Sum(xs: seq<real>): real {
    if xs == [] then 0.0 else xs[0] + Sum(xs[1..])
  }

  function Mean(xs: seq<real>): real
    requires xs != []
  {
    Sum(xs) / |xs| as real
  }

  function Centred(xs: seq<real>): (c: seq<real>)
    requires xs != []
    ensures |c| == |xs|
  {
    Lowered(xs, Mean(xs))
  }

  function Lowered(xs: seq<real>, m: real): (c: seq<real>)
    ensures |c| == |xs|
    ensures forall i :: 0 <= i < |xs| ==> c[i] == xs[i] - m
  {
    if xs == [] then [] else [xs[0] - m] + Lowered(xs[1..], m)
  }

  /** The products of the pairs that `zip` forms. */
  function Products(u: seq<real>, v: seq<real>): (p: seq<real>) {
    if u == [] || v == [] then [] else [u[0] * v[0]] + Products(u[1..], v[1..])
  }

  function Dot(u: seq<real>, v: seq<real>): real {
    Sum(Products(u, v))
  }

  /** What the fit leaves over: `y - (my + slope * (x - mx))` for every pair. */
  function Residuals(u: seq<real>, v: seq<real>, slope: real): (r: seq<real>)
    requires |u| == |v|
    ensures |r| == |u|
    decreases |u|
  {
    if u == [] then [] else [v[0] - slope * u[0]] + Residuals(u[1..], v[1..], slope)
  }

  /** The score as the tool computes it: fit a line, then compare what is left over. */
  function LinregR2(xs: seq<real>, ys: seq<real>): real
    requires |xs| == |ys|
  {
    if |xs| < 3 then 0.0
    else
      var u, v := Centred(xs), Centred(ys);
      if Dot(u, u) == 0.0 || Dot(v, v) == 0.0 then 0.0 else FitScore(u, v)
  }

  /** One minus the share of the spread that the fitted line leaves unexplained. */
  function FitScore(u: seq<real>, v: seq<real>): real
    requires |u| == |v| && Dot(u, u) != 0.0
  {
    var slope := Dot(u, v) / Dot(u, u);
    var residuals := Residuals(u, v, slope);
    if Dot(v, v) > 0.0 then 1.0 - Dot(residuals, residuals) / Dot(v, v) else 0.0
  }

  /** `root` is the non-negative square root of `a * b`. */
  predicate RootOf(root: real, a: real, b: real) {
    root >= 0.0 && root * root == a * b
  }

  /** `sxy / math.sqrt(sxx * syy)`, with the square root passed in. */
  function Pearson(xs: seq<real>, ys: seq<real>, root: real): real
    requires |xs| == |ys|
    requires |xs| >= 3 ==> RootOf(root, Dot(Centred(xs), Centred(xs)), Dot(Centred(ys), Centred(ys)))
  {
    if |xs| < 3 then 0.0
    else
      var u, v := Centred(xs), Centred(ys);
      if Dot(u, u) == 0.0 || Dot(v, v) == 0.0 then 0.0
      else
        RootNonzero(Dot(u, u), Dot(v, v), root);
        Dot(u, v) / root
  }

  lemma NonzeroProduct(a: real, b: real)
    requires a != 0.0 && b != 0.0
    ensures a * b != 0.0
  {
  }

  lemma RootNonzero(a: real, b: real, root: real)
    requires a != 0.0 && b != 0.0 && RootOf(root, a, b)
    ensures root != 0.0
  {
    NonzeroProduct(a, b);
  }

  // ---- Sums of products -------------------------------------------------------------------

  lemma {:induction false} DotSymmetric(u: seq<real>, v: seq<real>)
    ensures Dot(u, v) == Dot(v, u)
    decreases |u|
  {
    if u != [] && v != [] {
      DotSymmetric(u[1..], v[1..]);
      DotStep(u, v);
      DotStep(v, u);
    }
  }

  lemma SumOfSquares(q: real, x: real, d: real)
    requires q == x * x && d >= 0.0
    ensures q + d >= 0.0
    ensures q + d == 0.0 <==> x == 0.0 && d == 0.0
  {
    Square(x, q);
  }

  lemma {:induction false} DotSelf(u: seq<real>)
    ensures Dot(u, u) >= 0.0
    ensures Dot(u, u) == 0.0 <==> AllZero(u)
    decreases |u|
  {
    if u != [] {
      var t := u[1..];
      DotSelf(t);
      SumOfSquares(u[0] * u[0], u[0], Dot(t, t));
      DotStep(u, u);
      assert AllZero(u) <==> u[0] == 0.0 && AllZero(t) by {
        assert forall i :: 0 < i < |u| ==> u[i] == t[i - 1];
        assert forall i :: 0 <= i < |t| ==> t[i] == u[i + 1];
      }
    }
  }

  predicate AllZero(u: seq<real>) {
    forall i :: 0 <= i < |u| ==> u[i] == 0.0
  }

  lemma PositiveProduct(a: real, b: real, q: real)
    requires a > 0.0 && b > 0.0 && q == a * b
    ensures q > 0.0
  {
    assert a * b > 0.0;
  }

  lemma Square(x: real, q: real)
    requires q == x * x
    ensures q >= 0.0
    ensures q == 0.0 <==> x == 0.0
  {
    if x > 0.0 {
      PositiveProduct(x, x, q);
    } else if x < 0.0 {
      PositiveProduct(-x, -x, q);
    }
  }

  lemma ZeroTimes(x: real)
    ensures 0.0 * x == 0.0 && x * 0.0 == 0.0
  {
  }

  lemma ResidualTerm(a: real, b: real, s: real)
    ensures (b - s * a) * (b - s * a) == b * b - 2.0 * s * (a * b) + s * s * (a * a)
  {
  }

  /** The squared distance of `v` from `s * u`, from the three products. */
  function Unexplained(uu: real, uv: real, vv: real, s: real): real {
    vv - 2.0 * s * uv + s * s * uu
  }

  lemma NothingUnexplained(s: real)
    ensures Unexplained(0.0, 0.0, 0.0, s) == 0.0
  {
    ZeroTimes(2.0 * s);
    ZeroTimes(s * s);
  }

  /** What is left over after subtracting `s` times one series from the other. */
  lemma {:induction false} DotResidual(u: seq<real>, v: seq<real>, s: real, r: seq<real>)
    requires |u| == |v| && r == Residuals(u, v, s)
    ensures Dot(r, r) == Unexplained(Dot(u, u), Dot(u, v), Dot(v, v), s)
    decreases |u|
  {
    if u == [] {
      assert Dot(u, u) == 0.0 && Dot(u, v) == 0.0 && Dot(v, v) == 0.0 && Dot(r, r) == 0.0;
      NothingUnexplained(s);
    } else {
      DotResidual(u[1..], v[1..], s, r[1..]);
      DotStep(u, v);
      DotStep(u, u);
      DotStep(v, v);
      DotStep(r, r);
      ResidualStep(u[0], v[0], s, r[0],
        Dot(u[1..], u[1..]), Dot(u[1..], v[1..]), Dot(v[1..], v[1..]), Dot(r[1..], r[1..]),
        Dot(u, u), Dot(u, v), Dot(v, v), Dot(r, r));
    }
  }

  lemma DotStep(u: seq<real>, v: seq<real>)
    requires u != [] && v != []
    ensures Dot(u, v) == u[0] * v[0] + Dot(u[1..], v[1..])
  {
  }

  lemma ResidualStep(a: real, b: real, s: real, c: real, aa: real, ab: real, bb: real, cc: real,
    aas: real, abs: real, bbs: real, ccs: real)
    requires c == b - s * a && cc == Unexplained(aa, ab, bb, s)
    requires aas == a * a + aa && abs == a * b + ab && bbs == b * b + bb && ccs == c * c + cc
    ensures ccs == Unexplained(aas, abs, bbs, s)
  {
    ResidualTerm(a, b, s);
    Expand(s, a * b, ab, a * a, aa);
    assert c * c == b * b - 2.0 * s * (a * b) + s * s * (a * a);
  }

  lemma Distribute(s: real, p: real, q: real)
    ensures s * (p + q) == s * p + s * q
  {
  }

  lemma Expand(s: real, p: real, q: real, a: real, b: real)
    ensures 2.0 * s * (p + q) == 2.0 * s * p + 2.0 * s * q
    ensures s * s * (a + b) == s * s * a + s * s * b
  {
    Distribute(2.0 * s, p, q);
    Distribute(s * s, a, b);
  }

  // ---- R^2 ----------------------------------------------------------------------------------

  predicate Scorable(xs: seq<real>, ys: seq<real>) {
    |xs| == |ys| >= 3 && Dot(Centred(xs), Centred(xs)) != 0.0 && Dot(Centred(ys), Centred(ys)) != 0.0
  }

  /** The squared correlation in closed form. */
  function Share(sxx: real, sxy: real, syy: real): real
    requires sxx > 0.0 && syy > 0.0
  {
    NonzeroProduct(sxx, syy);
    sxy * sxy / (sxx * syy)
  }

  lemma FitAlgebra(sxx: real, sxy: real, syy: real)
    requires sxx > 0.0 && syy > 0.0
    ensures var s := sxy / sxx;
      Unexplained(sxx, sxy, syy, s) == syy - sxy * sxy / sxx
  {
    var s := sxy / sxx;
    assert s * sxx == sxy;
    assert s * s * sxx == s * sxy;
    assert s * sxy == sxy * sxy / sxx;
  }

  lemma RatioAlgebra(sxx: real, p: real, syy: real)
    requires sxx > 0.0 && syy > 0.0
    ensures 1.0 - (syy - p / sxx) / syy == p / (sxx * syy)
  {
    var q := p / sxx;
    var r := q / syy;
    assert r * syy == q;
    Distribute(syy, 1.0, -r);
    QuotientOf(1.0 - r, syy, syy - q);
    DivDiv(p, sxx, syy);
  }

  lemma DivDiv(p: real, a: real, b: real)
    requires a > 0.0 && b > 0.0
    ensures a * b != 0.0 && p / a / b == p / (a * b)
  {
    NonzeroProduct(a, b);
    var q := p / a / b;
    assert q * b == p / a;
    assert q * b * a == p;
    assert q * (a * b) == q * b * a;
    QuotientOf(q, a * b, p);
  }

  /** The fitted score is the squared correlation in closed form. */
  lemma R2Closed(xs: seq<real>, ys: seq<real>)
    requires Scorable(xs, ys)
    ensures Dot(Centred(xs), Centred(xs)) > 0.0 && Dot(Centred(ys), Centred(ys)) > 0.0
    ensures LinregR2(xs, ys)
      == Share(Dot(Centred(xs), Centred(xs)), Dot(Centred(xs), Centred(ys)), Dot(Centred(ys), Centred(ys)))
  {
    var u, v := Centred(xs), Centred(ys);
    DotSelf(u);
    DotSelf(v);
    FitScoreClosed(u, v);
  }

  lemma FitScoreClosed(u: seq<real>, v: seq<real>)
    requires |u| == |v| && Dot(u, u) > 0.0 && Dot(v, v) > 0.0
    ensures FitScore(u, v) == Share(Dot(u, u), Dot(u, v), Dot(v, v))
  {
    var sxx, sxy, syy := Dot(u, u), Dot(u, v), Dot(v, v);
    var r := Residuals(u, v, sxy / sxx);
    DotResidual(u, v, sxy / sxx, r);
    FitAlgebra(sxx, sxy, syy);
    RatioAlgebra(sxx, sxy * sxy, syy);
    assert Dot(r, r) == syy - sxy * sxy / sxx;
  }

  /** Too few points, or a constant series, score zero. */
  lemma Degenerate(xs: seq<real>, ys: seq<real>)
    requires |xs| == |ys| && !Scorable(xs, ys)
    ensures LinregR2(xs, ys) == 0.0
  {
  }

  /** Cauchy-Schwarz, from the residual of the best fit. */
  lemma CauchySchwarz(u: seq<real>, v: seq<real>, s: real)
    requires |u| == |v| && Dot(u, u) > 0.0 && s == Dot(u, v) / Dot(u, u)
    ensures Dot(u, v) * Dot(u, v) <= Dot(u, u) * Dot(v, v)
    ensures Dot(u, v) * Dot(u, v) == Dot(u, u) * Dot(v, v) <==> Proportional(u, v, s)
  {
    var r := Residuals(u, v, s);
    DotResidual(u, v, s, r);
    DotSelf(r);
    LeftOver(Dot(u, u), Dot(u, v), Dot(v, v), s, Dot(r, r));
    ZeroResidual(u, v, s);
  }

  predicate Proportional(u: seq<real>, v: seq<real>, s: real)
    requires |u| == |v|
  {
    forall i :: 0 <= i < |u| ==> v[i] == s * u[i]
  }

  lemma {:induction false} ZeroResidual(u: seq<real>, v: seq<real>, s: real)
    requires |u| == |v|
    ensures AllZero(Residuals(u, v, s)) <==> Proportional(u, v, s)
    decreases |u|
  {
    if u != [] {
      var r, tu, tv := Residuals(u, v, s), u[1..], v[1..];
      ZeroResidual(tu, tv, s);
      assert AllZero(r) <==> r[0] == 0.0 && AllZero(r[1..]) by {
        assert forall i :: 0 < i < |r| ==> r[i] == r[1..][i - 1];
        assert forall i :: 0 <= i < |r| - 1 ==> r[1..][i] == r[i + 1];
      }
      ProportionalStep(u, v, s);
    }
  }

  lemma ProportionalStep(u: seq<real>, v: seq<real>, s: real)
    requires |u| == |v| > 0
    ensures Proportional(u, v, s) <==> v[0] == s * u[0] && Proportional(u[1..], v[1..], s)
  {
    if v[0] == s * u[0] && Proportional(u[1..], v[1..], s) {
      forall i | 0 <= i < |u| ensures v[i] == s * u[i] {
        if i > 0 {
          assert v[1..][i - 1] == s * u[1..][i - 1];
        }
      }
    }
    if Proportional(u, v, s) {
      forall i | 0 <= i < |u| - 1 ensures v[1..][i] == s * u[1..][i] {
        assert v[i + 1] == s * u[i + 1];
      }
    }
  }

  lemma LeftOver(sxx: real, sxy: real, syy: real, s: real, t: real)
    requires sxx > 0.0 && s == sxy / sxx
    requires t == Unexplained(sxx, sxy, syy, s) && t >= 0.0
    ensures sxy * sxy <= sxx * syy
    ensures t == 0.0 <==> sxy * sxy == sxx * syy
  {
    assert s * sxx == sxy;
    assert s * s * sxx == s * sxy;
    assert t == syy - s * sxy;
    assert sxx * (s * sxy) == sxy * sxy;
    Distribute(sxx, syy, -(s * sxy));
    assert sxx * t == sxx * syy - sxy * sxy;
    ProductSign(sxx, t);
  }

  lemma ProductSign(a: real, t: real)
    requires a > 0.0
    ensures t >= 0.0 ==> a * t >= 0.0
    ensures a * t == 0.0 <==> t == 0.0
  {
  }

  /** The score of two non-constant series lies in the unit interval. */
  lemma R2Range(xs: seq<real>, ys: seq<real>)
    requires |xs| == |ys|
    ensures 0.0 <= LinregR2(xs, ys) <= 1.0
  {
    if Scorable(xs, ys) {
      R2Closed(xs, ys);
      UnitRatio(Centred(xs), Centred(ys));
    } else {
      Degenerate(xs, ys);
    }
  }

  lemma UnitRatio(u: seq<real>, v: seq<real>)
    requires |u| == |v| && Dot(u, u) > 0.0 && Dot(v, v) > 0.0
    ensures 0.0 <= Share(Dot(u, u), Dot(u, v), Dot(v, v)) <= 1.0
    ensures Share(Dot(u, u), Dot(u, v), Dot(v, v)) == 1.0 <==> Proportional(u, v, Dot(u, v) / Dot(u, u))
  {
    CauchySchwarz(u, v, Dot(u, v) / Dot(u, u));
    ShareRange(Dot(u, u), Dot(u, v), Dot(v, v));
  }

  lemma ShareRange(sxx: real, sxy: real, syy: real)
    requires sxx > 0.0 && syy > 0.0 && sxy * sxy <= sxx * syy
    ensures 0.0 <= Share(sxx, sxy, syy) <= 1.0
    ensures Share(sxx, sxy, syy) == 1.0 <==> sxy * sxy == sxx * syy
  {
    var p, q := sxy * sxy, sxx * syy;
    Square(sxy, p);
    ScaleSign(sxx, syy);
    QuotientRange(p, q);
  }

  lemma QuotientRange(p: real, q: real)
    requires 0.0 <= p <= q && q > 0.0
    ensures 0.0 <= p / q <= 1.0
    ensures p / q == 1.0 <==> p == q
  {
    var r := p / q;
    assert r * q == p;
    ScaleSign(r, q);
    ScaleSign(1.0 - r, q);
    assert (1.0 - r) * q == q - r * q;
  }

  lemma ScaleSign(r: real, q: real)
    requires q > 0.0
    ensures r < 0.0 ==> r * q < 0.0
    ensures r > 0.0 ==> r * q > 0.0
  {
  }

  /** R^2 is the square of the correlation, which itself lies in [-1, 1]. */
  lemma R2IsPearsonSquared(xs: seq<real>, ys: seq<real>, root: real)
    requires |xs| == |ys|
    requires |xs| >= 3 ==> RootOf(root, Dot(Centred(xs), Centred(xs)), Dot(Centred(ys), Centred(ys)))
    ensures var c := Pearson(xs, ys, root); LinregR2(xs, ys) == c * c && -1.0 <= c <= 1.0
  {
    if Scorable(xs, ys) {
      ScoredPearson(xs, ys, root, Pearson(xs, ys, root));
    } else {
      Degenerate(xs, ys);
      UnscoredPearson(xs, ys, root);
      ZeroTimes(0.0);
    }
  }

  lemma UnscoredPearson(xs: seq<real>, ys: seq<real>, root: real)
    requires |xs| == |ys| && !Scorable(xs, ys)
    requires |xs| >= 3 ==> RootOf(root, Dot(Centred(xs), Centred(xs)), Dot(Centred(ys), Centred(ys)))
    ensures Pearson(xs, ys, root) == 0.0
  {
  }

  /** Both scores are zero, without dividing, exactly for inputs that are too short or do not vary. */
  lemma UnscoredMeansFlat(xs: seq<real>, ys: seq<real>, root: real)
    requires |xs| == |ys|
    requires |xs| >= 3 ==> RootOf(root, Dot(Centred(xs), Centred(xs)), Dot(Centred(ys), Centred(ys)))
    ensures |xs| < 3 || Constant(xs) || Constant(ys) <==> !Scorable(xs, ys)
    ensures |xs| < 3 || Constant(xs) || Constant(ys) ==> LinregR2(xs, ys) == 0.0 && Pearson(xs, ys, root) == 0.0
  {
    if |xs| >= 3 {
      ZeroSpreadMeansConstant(xs);
      ZeroSpreadMeansConstant(ys);
    }
    if !Scorable(xs, ys) {
      Degenerate(xs, ys);
      UnscoredPearson(xs, ys, root);
    }
  }

  lemma ScoredPearson(xs: seq<real>, ys: seq<real>, root: real, c: real)
    requires Scorable(xs, ys)
    requires RootOf(root, Dot(Centred(xs), Centred(xs)), Dot(Centred(ys), Centred(ys)))
    requires c == Pearson(xs, ys, root)
    ensures LinregR2(xs, ys) == c * c && -1.0 <= c <= 1.0
  {
    R2Closed(xs, ys);
    var u, v := Centred(xs), Centred(ys);
    RootNonzero(Dot(u, u), Dot(v, v), root);
    UnitRatio(u, v);
    ShareIsSquare(Dot(u, u), Dot(u, v), Dot(v, v), root, c);
  }

  lemma ShareIsSquare(sxx: real, sxy: real, syy: real, root: real, c: real)
    requires sxx > 0.0 && syy > 0.0 && RootOf(root, sxx, syy) && root != 0.0 && c == sxy / root
    requires Share(sxx, sxy, syy) <= 1.0
    ensures Share(sxx, sxy, syy) == c * c
    ensures -1.0 <= c <= 1.0
  {
    var p2, r2 := sxy * sxy, root * root;
    SquareOfQuotient(sxy, root, c, p2, r2);
    UnitSquare(c, c * c);
  }

  lemma SquareOfQuotient(p: real, r: real, c: real, p2: real, r2: real)
    requires r != 0.0 && c == p / r && p2 == p * p && r2 == r * r
    ensures r2 != 0.0 && p2 / r2 == c * c
  {
    Square(r, r2);
    assert c * r == p;
    var c2 := c * c;
    SquareOfProduct(c, r, p, c2, r2, p2);
    QuotientOf(c2, r2, p2);
  }

  lemma SquareOfProduct(q: real, r: real, p: real, q2: real, r2: real, p2: real)
    requires q * r == p && q2 == q * q && r2 == r * r && p2 == p * p
    ensures q2 * r2 == p2
  {
    calc {
      q * q * (r * r);
      q * ((q * r) * r);
      q * (p * r);
      (q * r) * p;
      p * p;
    }
  }

  /** A quotient is whatever multiplies back to the dividend. */
  lemma QuotientOf(q: real, d: real, p: real)
    requires d != 0.0 && q * d == p
    ensures p / d == q
  {
  }

  lemma UnitSquare(x: real, q: real)
    requires q == x * x && q <= 1.0
    ensures -1.0 <= x <= 1.0
  {
    SquareGrows(x, q);
    SquareGrows(-x, q);
  }

  lemma SquareGrows(x: real, q: real)
    requires q == x * x
    ensures x > 1.0 ==> q > 1.0
  {
    assert x > 1.0 ==> (x - 1.0) * (x + 1.0) > 0.0;
    assert (x - 1.0) * (x + 1.0) == q - 1.0;
  }

  // ---- Constant series, lines and rescaling ---------------------------------------------------

  predicate Constant(xs: seq<real>) {
    forall i, j :: 0 <= i < |xs| && 0 <= j < |xs| ==> xs[i] == xs[j]
  }

  lemma {:induction false} SumAffine(xs: seq<real>, a: real, b: real, ys: seq<real>)
    requires |xs| == |ys| && OnLine(xs, ys, a, b)
    ensures Sum(ys) == a * Sum(xs) + b * |xs| as real
    decreases |xs|
  {
    if xs != [] {
      OnLineLater(xs, ys, a, b);
      SumAffine(xs[1..], a, b, ys[1..]);
      AffineStep(a, b, xs[0], ys[0], Sum(xs[1..]), Sum(ys[1..]), |xs[1..]| as real, Sum(xs), Sum(ys), |xs| as real);
    }
  }

  lemma OnLineLater(xs: seq<real>, ys: seq<real>, a: real, b: real)
    requires |xs| == |ys| > 0 && OnLine(xs, ys, a, b)
    ensures ys[0] == a * xs[0] + b && OnLine(xs[1..], ys[1..], a, b)
  {
    forall i | 0 <= i < |xs| - 1 ensures ys[1..][i] == a * xs[1..][i] + b {
      assert ys[i + 1] == a * xs[i + 1] + b;
    }
  }

  lemma AffineStep(a: real, b: real, x: real, y: real, sx: real, sy: real, n: real, sxs: real, sys: real, ns: real)
    requires y == a * x + b && sy == a * sx + b * n && sxs == x + sx && sys == y + sy && ns == n + 1.0
    ensures sys == a * sxs + b * ns
  {
    Distribute(a, x, sx);
    Distribute(b, n, 1.0);
  }

  lemma MeanAffine(xs: seq<real>, a: real, b: real, ys: seq<real>)
    requires |xs| == |ys| > 0 && OnLine(xs, ys, a, b)
    ensures Mean(ys) == a * Mean(xs) + b
  {
    SumAffine(xs, a, b, ys);
    MeanAlgebra(Sum(xs), |xs| as real, a, b, Sum(ys), Mean(xs));
  }

  lemma CentredAffine(xs: seq<real>, a: real, b: real, ys: seq<real>)
    requires |xs| == |ys| > 0 && OnLine(xs, ys, a, b)
    ensures Proportional(Centred(xs), Centred(ys), a)
  {
    MeanAffine(xs, a, b, ys);
    forall i | 0 <= i < |xs| ensures Centred(ys)[i] == a * Centred(xs)[i] {
      CentredPoint(xs, a, b, ys, Mean(xs), Mean(ys), i);
    }
  }

  lemma CentredPoint(xs: seq<real>, a: real, b: real, ys: seq<real>, mx: real, my: real, i: nat)
    requires i < |xs| == |ys| && OnLine(xs, ys, a, b) && mx == Mean(xs) && my == Mean(ys) && my == a * mx + b
    ensures Centred(ys)[i] == a * Centred(xs)[i]
  {
    CentredTerm(a, b, xs[i], mx, ys[i], my, Centred(xs)[i], Centred(ys)[i]);
  }

  lemma CentredTerm(a: real, b: real, x: real, mx: real, y: real, my: real, cx: real, cy: real)
    requires y == a * x + b && my == a * mx + b && cx == x - mx && cy == y - my
    ensures cy == a * cx
  {
  }

  lemma MeanAlgebra(s: real, n: real, a: real, b: real, t: real, m: real)
    requires n > 0.0 && t == a * s + b * n && m == s / n
    ensures t / n == a * m + b
  {
    assert m * n == s;
    assert (a * m + b) * n == t;
    QuotientOf(a * m + b, n, t);
  }

  /** The guard `sxx == 0` fires exactly for a constant series. */
  lemma ZeroSpreadMeansConstant(xs: seq<real>)
    requires xs != []
    ensures Dot(Centred(xs), Centred(xs)) == 0.0 <==> Constant(xs)
  {
    var c := Centred(xs);
    DotSelf(c);
    if Dot(c, c) == 0.0 {
      forall i, j | 0 <= i < |xs| && 0 <= j < |xs| ensures xs[i] == xs[j] {
        assert c[i] == 0.0 && c[j] == 0.0;
      }
    }
    if Constant(xs) {
      MeanAffine(xs, 0.0, xs[0], xs);
      assert forall i :: 0 <= i < |xs| ==> c[i] == xs[i] - xs[0];
    }
  }

  lemma {:induction false} DotScaled(u: seq<real>, v: seq<real>, a: real, w: seq<real>)
    requires |u| == |v| == |w| && Proportional(v, w, a)
    ensures Dot(u, w) == a * Dot(u, v)
    decreases |u|
  {
    if u == [] {
      ZeroTimes(a);
    } else {
      ProportionalStep(v, w, a);
      DotScaled(u[1..], v[1..], a, w[1..]);
      DotStep(u, w);
      DotStep(u, v);
      ScaledStep(u[0], v[0], a, Dot(u[1..], v[1..]));
    }
  }

  lemma ScaledStep(x: real, y: real, a: real, d: real)
    ensures x * (a * y) + a * d == a * (x * y + d)
  {
  }

  /** The score does not depend on the scale or origin of the values. */
  lemma R2AffineInvariant(xs: seq<real>, ys: seq<real>, a: real, b: real, zs: seq<real>)
    requires |xs| == |ys| == |zs| && a != 0.0
    requires OnLine(ys, zs, a, b)
    ensures LinregR2(xs, zs) == LinregR2(xs, ys)
  {
    if |xs| >= 3 {
      CentredAffine(ys, a, b, zs);
      ScaledDots(Centred(xs), Centred(ys), a, Centred(zs));
      if Scorable(xs, ys) {
        R2Closed(xs, ys);
        R2Closed(xs, zs);
        ScaledShare(a, Dot(Centred(xs), Centred(xs)), Dot(Centred(xs), Centred(ys)), Dot(Centred(ys), Centred(ys)),
          Dot(Centred(xs), Centred(zs)), Dot(Centred(zs), Centred(zs)));
      }
    }
  }

  lemma ScaledDots(u: seq<real>, v: seq<real>, a: real, w: seq<real>)
    requires |u| == |v| == |w| && Proportional(v, w, a) && a != 0.0
    ensures Dot(u, w) == a * Dot(u, v) && Dot(w, w) == a * a * Dot(v, v)
    ensures Dot(w, w) == 0.0 <==> Dot(v, v) == 0.0
  {
    DotScaled(u, v, a, w);
    DotScaled(w, v, a, w);
    DotSymmetric(w, v);
    DotScaled(v, v, a, w);
    ScaledSpread(a, Dot(v, v), Dot(w, w), Dot(w, v));
  }

  lemma ScaledSpread(a: real, vv: real, ww: real, wv: real)
    requires a != 0.0 && ww == a * wv && wv == a * vv
    ensures ww == a * a * vv && (ww == 0.0 <==> vv == 0.0)
  {
    Square(a, a * a);
    assert a * a * vv == a * (a * vv);
  }

  lemma ScaledShare(a: real, sxx: real, sxy: real, syy: real, sxz: real, szz: real)
    requires a != 0.0 && sxx > 0.0 && syy > 0.0 && szz > 0.0
    requires sxz == a * sxy && szz == a * a * syy
    ensures Share(sxx, sxz, szz) == Share(sxx, sxy, syy)
  {
    var k, p, q := a * a, sxy * sxy, sxx * syy;
    Square(a, k);
    NonzeroProduct(sxx, syy);
    assert sxz * sxz == k * p;
    assert sxx * szz == k * q;
    CancelFactor(k, p, q, k * p, k * q, p / q);
  }

  lemma CancelFactor(k: real, p: real, q: real, kp: real, kq: real, r: real)
    requires k != 0.0 && q != 0.0 && kp == k * p && kq == k * q && r == p / q
    ensures kq != 0.0 && kp / kq == r
  {
    NonzeroProduct(k, q);
    assert r * q == p;
    calc {
      r * (k * q);
      k * (r * q);
      k * p;
    }
    QuotientOf(r, kq, kp);
  }

  /** Swapping the series does not change the score. */
  lemma R2Symmetric(xs: seq<real>, ys: seq<real>)
    requires |xs| == |ys|
    ensures LinregR2(xs, ys) == LinregR2(ys, xs)
  {
    if Scorable(xs, ys) {
      R2Closed(xs, ys);
      R2Closed(ys, xs);
      DotSymmetric(Centred(xs), Centred(ys));
    }
  }

  ghost predicate Collinear(xs: seq<real>, ys: seq<real>)
    requires |xs| == |ys|
  {
    exists m: real, c: real :: OnLine(xs, ys, m, c)
  }

  predicate OnLine(xs: seq<real>, ys: seq<real>, m: real, c: real)
    requires |xs| == |ys|
  {
    forall i :: 0 <= i < |xs| ==> ys[i] == m * xs[i] + c
  }

  /** For non-constant series the score is 1 exactly when every point lies on one line. */
  lemma PerfectMeansCollinear(xs: seq<real>, ys: seq<real>)
    requires Scorable(xs, ys)
    ensures LinregR2(xs, ys) == 1.0 <==> Collinear(xs, ys)
  {
    R2Closed(xs, ys);
    var u, v := Centred(xs), Centred(ys);
    UnitRatio(u, v);
    var s := Dot(u, v) / Dot(u, u);
    if Proportional(u, v, s) {
      LineThroughMeans(xs, ys, s);
    }
    if Collinear(xs, ys) {
      var m, c :| OnLine(xs, ys, m, c);
      CentredAffine(xs, m, c, ys);
      DotScaled(u, u, m, v);
      QuotientOf(m, Dot(u, u), Dot(u, v));
    }
  }

  lemma LineThroughMeans(xs: seq<real>, ys: seq<real>, s: real)
    requires |xs| == |ys| > 0 && Proportional(Centred(xs), Centred(ys), s)
    ensures OnLine(xs, ys, s, Mean(ys) - s * Mean(xs))
  {
    forall i | 0 <= i < |xs| ensures ys[i] == s * xs[i] + (Mean(ys) - s * Mean(xs)) {
      LineTerm(s, xs[i], Mean(xs), ys[i], Mean(ys), Centred(xs)[i], Centred(ys)[i]);
    }
  }

  lemma LineTerm(s: real, x: real, mx: real, y: real, my: real, cx: real, cy: real)
    requires cx == x - mx && cy == y - my && cy == s * cx
    ensures y == s * x + (my - s * mx)
  {
  }

  // ---- The fit is a least-squares fit ---------------------------------------------------------

  function Miss(x: real, y: real, m: real, c: real): real {
    y - (m * x + c)
  }

  /** The squared vertical distance of the points from the line `m * x + c`. */
  function SquaredError(xs: seq<real>, ys: seq<real>, m: real, c: real): real
    requires |xs| == |ys|
    decreases |xs|
  {
    if xs == [] then 0.0
    else
      var e := Miss(xs[0], ys[0], m, c);
      e * e + SquaredError(xs[1..], ys[1..], m, c)
  }

  lemma {:induction false} SumResiduals(u: seq<real>, v: seq<real>, s: real)
    requires |u| == |v|
    ensures Sum(Residuals(u, v, s)) == Sum(v) - s * Sum(u)
    decreases |u|
  {
    if u == [] {
      ZeroTimes(s);
    } else {
      SumResiduals(u[1..], v[1..], s);
      Distribute(s, u[0], Sum(u[1..]));
      assert Residuals(u, v, s)[1..] == Residuals(u[1..], v[1..], s);
    }
  }

  lemma CentredSumsToZero(xs: seq<real>)
    requires xs != []
    ensures Sum(Centred(xs)) == 0.0
  {
    var m := Mean(xs);
    SumAffine(xs, 1.0, -m, Centred(xs));
    DropMean(Sum(xs), |xs| as real, m, Sum(Centred(xs)));
  }

  lemma DropMean(s: real, n: real, m: real, t: real)
    requires n > 0.0 && m == s / n && t == 1.0 * s + -m * n
    ensures t == 0.0
  {
    assert m * n == s;
  }

  /** The line misses each point by the residual plus the same `d`. */
  predicate MissesBy(xs: seq<real>, ys: seq<real>, m: real, c: real, r: seq<real>, d: real)
    requires |xs| == |ys| == |r|
  {
    forall i :: 0 <= i < |r| ==> Miss(xs[i], ys[i], m, c) == r[i] + d
  }

  lemma MissesLater(xs: seq<real>, ys: seq<real>, m: real, c: real, r: seq<real>, d: real)
    requires |xs| == |ys| == |r| > 0 && MissesBy(xs, ys, m, c, r, d)
    ensures Miss(xs[0], ys[0], m, c) == r[0] + d
    ensures MissesBy(xs[1..], ys[1..], m, c, r[1..], d)
  {
    forall i | 0 <= i < |r| - 1 ensures Miss(xs[1..][i], ys[1..][i], m, c) == r[1..][i] + d {
      assert Miss(xs[i + 1], ys[i + 1], m, c) == r[i + 1] + d;
    }
  }

  /** Moving a line up or down by `d`: the error grows by a cross term and a square. */
  lemma {:induction false} ErrorOfShifted(xs: seq<real>, ys: seq<real>, m: real, c: real, r: seq<real>, d: real)
    requires |xs| == |ys| == |r| && MissesBy(xs, ys, m, c, r, d)
    ensures SquaredError(xs, ys, m, c) == Shifted(Dot(r, r), Sum(r), |xs| as real, d)
    decreases |xs|
  {
    if xs == [] {
      ZeroTimes(2.0 * d);
      ZeroTimes(d * d);
    } else {
      MissesLater(xs, ys, m, c, r, d);
      ErrorOfShifted(xs[1..], ys[1..], m, c, r[1..], d);
      DotStep(r, r);
      ShiftedStep(r[0], d, Dot(r[1..], r[1..]), Sum(r[1..]), |xs[1..]| as real, Dot(r, r), Sum(r), |xs| as real,
        Miss(xs[0], ys[0], m, c));
    }
  }

  function Shifted(rr: real, r: real, n: real, d: real): real {
    rr + 2.0 * d * r + d * d * n
  }

  lemma ShiftedStep(x: real, d: real, rr: real, r: real, n: real, rrs: real, rs: real, ns: real, e: real)
    requires rrs == x * x + rr && rs == x + r && ns == n + 1.0 && e == x + d
    ensures e * e + Shifted(rr, r, n, d) == Shifted(rrs, rs, ns, d)
  {
    Distribute(2.0 * d, x, r);
    Distribute(d * d, n, 1.0);
    assert e * e == x * x + 2.0 * d * x + d * d;
  }

  /** Any slope other than the fitted one leaves at least as much unexplained. */
  lemma FittedSlopeIsBest(uu: real, uv: real, vv: real, s: real, m: real)
    requires uu > 0.0 && s == uv / uu
    ensures Unexplained(uu, uv, vv, s) <= Unexplained(uu, uv, vv, m)
  {
    var d := m - s;
    assert s * uu == uv;
    Square(d, d * d);
    NonnegativeProduct(d * d, uu);
    SlopeDifference(uu, uv, vv, s, m, d);
  }

  lemma SlopeDifference(uu: real, uv: real, vv: real, s: real, m: real, d: real)
    requires s * uu == uv && d == m - s
    ensures Unexplained(uu, uv, vv, m) == Unexplained(uu, uv, vv, s) + d * d * uu
  {
    SquaredDifference(m, s, uu);
    assert m * (s * uu) == m * uv && s * (s * uu) == s * uv;
  }

  lemma SquaredDifference(m: real, s: real, w: real)
    ensures (m - s) * (m - s) * w == m * m * w - 2.0 * (m * (s * w)) + s * (s * w)
    ensures s * s * w == s * (s * w)
  {
  }

  lemma NonnegativeProduct(a: real, b: real)
    requires a >= 0.0 && b >= 0.0
    ensures a * b >= 0.0
  {
  }

  function Slope(xs: seq<real>, ys: seq<real>): real
    requires |xs| == |ys| > 0 && Dot(Centred(xs), Centred(xs)) != 0.0
  {
    Dot(Centred(xs), Centred(ys)) / Dot(Centred(xs), Centred(xs))
  }

  /** The intercept that makes a line of slope `m` pass through the two means. */
  function Intercept(xs: seq<real>, ys: seq<real>, m: real): real
    requires |xs| == |ys| > 0
  {
    Mean(ys) - m * Mean(xs)
  }

  /** What a line of slope `m` through the means leaves over. */
  function LeastOf(xs: seq<real>, ys: seq<real>, m: real): real
    requires |xs| == |ys| > 0
  {
    Unexplained(Dot(Centred(xs), Centred(xs)), Dot(Centred(xs), Centred(ys)), Dot(Centred(ys), Centred(ys)), m)
  }

  /** No line is closer to the points than the fitted one, and the fitted one is that close. */
  lemma LeastSquares(xs: seq<real>, ys: seq<real>, m: real, c: real)
    requires |xs| == |ys| > 0 && Dot(Centred(xs), Centred(xs)) != 0.0
    ensures var s := Slope(xs, ys);
      var left := Residuals(Centred(xs), Centred(ys), s);
      SquaredError(xs, ys, s, Intercept(xs, ys, s)) == Dot(left, left) <= SquaredError(xs, ys, m, c)
  {
    var u, v := Centred(xs), Centred(ys);
    DotSelf(u);
    var s := Slope(xs, ys);
    LineError(xs, ys, m, c);
    LineError(xs, ys, s, Intercept(xs, ys, s));
    FittedSlopeIsBest(Dot(u, u), Dot(u, v), Dot(v, v), s, m);
    DotResidual(u, v, s, Residuals(u, v, s));
  }

  /** The error of any line is at least what its slope leaves over, and just that through the means. */
  lemma LineError(xs: seq<real>, ys: seq<real>, m: real, c: real)
    requires |xs| == |ys| > 0
    ensures SquaredError(xs, ys, m, c) >= LeastOf(xs, ys, m)
    ensures c == Intercept(xs, ys, m) ==> SquaredError(xs, ys, m, c) == LeastOf(xs, ys, m)
  {
    var r := Residuals(Centred(xs), Centred(ys), m);
    var d := Intercept(xs, ys, m) - c;
    DotResidual(Centred(xs), Centred(ys), m, r);
    ResidualsSumToZero(xs, ys, m);
    MissesEverywhere(xs, ys, m, c, r, d);
    ErrorOfShifted(xs, ys, m, c, r, d);
    MissIsNonnegative(Dot(r, r), Sum(r), |xs| as real, d);
  }

  lemma ResidualsSumToZero(xs: seq<real>, ys: seq<real>, m: real)
    requires |xs| == |ys| > 0
    ensures Sum(Residuals(Centred(xs), Centred(ys), m)) == 0.0
  {
    SumResiduals(Centred(xs), Centred(ys), m);
    CentredSumsToZero(xs);
    CentredSumsToZero(ys);
    ZeroTimes(m);
  }

  lemma MissesEverywhere(xs: seq<real>, ys: seq<real>, m: real, c: real, r: seq<real>, d: real)
    requires |xs| == |ys| > 0
    requires r == Residuals(Centred(xs), Centred(ys), m) && d == Intercept(xs, ys, m) - c
    ensures MissesBy(xs, ys, m, c, r, d)
  {
    forall i | 0 <= i < |r| ensures Miss(xs[i], ys[i], m, c) == r[i] + d {
      MissesHere(xs, ys, m, c, Centred(xs), Centred(ys), d, i);
    }
  }

  lemma MissesHere(xs: seq<real>, ys: seq<real>, m: real, c: real, u: seq<real>, v: seq<real>, d: real, i: nat)
    requires i < |xs| == |ys| && u == Centred(xs) && v == Centred(ys) && d == Intercept(xs, ys, m) - c
    ensures Miss(xs[i], ys[i], m, c) == Residuals(u, v, m)[i] + d
  {
    ResidualAt(u, v, m, i);
    MissTerm(m, c, d, xs[i], Mean(xs), ys[i], Mean(ys), u[i], v[i], Residuals(u, v, m)[i]);
  }

  lemma {:induction false} ResidualAt(u: seq<real>, v: seq<real>, s: real, i: nat)
    requires i < |u| == |v|
    ensures Residuals(u, v, s)[i] == v[i] - s * u[i]
    decreases |u|
  {
    if i > 0 {
      ResidualAt(u[1..], v[1..], s, i - 1);
    }
  }

  lemma MissTerm(m: real, c: real, d: real, x: real, mx: real, y: real, my: real, u: real, v: real, r: real)
    requires u == x - mx && v == y - my && r == v - m * u && d == my - m * mx - c
    ensures Miss(x, y, m, c) == r + d
  {
    Distribute(m, x, -mx);
  }

  lemma MissIsNonnegative(rr: real, r: real, n: real, d: real)
    requires r == 0.0 && n > 0.0
    ensures Shifted(rr, r, n, d) >= rr
    ensures d == 0.0 ==> Shifted(rr, r, n, d) == rr
  {
    ZeroTimes(2.0 * d);
    Square(d, d * d);
    NonnegativeProduct(d * d, n);
    assert d == 0.0 ==> d * d * n == 0.0 by {
      ZeroTimes(n);
    }
  }

  /** The score is one minus the smallest error any line can reach, over the total spread. */
  lemma R2IsBestFit(xs: seq<real>, ys: seq<real>, m: real, c: real)
    requires Scorable(xs, ys)
    ensures Dot(Centred(ys), Centred(ys)) > 0.0
    ensures LinregR2(xs, ys) >= 1.0 - SquaredError(xs, ys, m, c) / Dot(Centred(ys), Centred(ys))
    ensures var s := Slope(xs, ys);
      LinregR2(xs, ys) == 1.0 - SquaredError(xs, ys, s, Intercept(xs, ys, s)) / Dot(Centred(ys), Centred(ys))
  {
    DotSelf(Centred(ys));
    LeastSquares(xs, ys, m, c);
    var left := Residuals(Centred(xs), Centred(ys), Slope(xs, ys));
    QuotientMonotone(Dot(left, left), SquaredError(xs, ys, m, c), Dot(Centred(ys), Centred(ys)));
  }

  lemma QuotientMonotone(p: real, q: real, d: real)
    requires p <= q && d > 0.0
    ensures p / d <= q / d
  {
    var x, y := p / d, q / d;
    assert x * d == p && y * d == q;
    ScaleSign(y - x, d);
    assert (y - x) * d == q - p;
  }

  // ---- The sign of the correlation -------------------------------------------------------------

  lemma QuotientSign(p: real, d: real, q: real)
    requires d > 0.0 && q == p / d
    ensures q > 0.0 <==> p > 0.0
    ensures q < 0.0 <==> p < 0.0
  {
    assert q * d == p;
    ScaleSign(q, d);
  }

  /** The correlation has the sign of the slope of the least-squares line. */
  lemma PearsonSign(xs: seq<real>, ys: seq<real>, root: real)
    requires Scorable(xs, ys) && RootOf(root, Dot(Centred(xs), Centred(xs)), Dot(Centred(ys), Centred(ys)))
    ensures Pearson(xs, ys, root) > 0.0 <==> Slope(xs, ys) > 0.0
    ensures Pearson(xs, ys, root) < 0.0 <==> Slope(xs, ys) < 0.0
  {
    var u, v := Centred(xs), Centred(ys);
    DotSelf(u);
    RootNonzero(Dot(u, u), Dot(v, v), root);
    QuotientSign(Dot(u, v), root, Pearson(xs, ys, root));
    QuotientSign(Dot(u, v), Dot(u, u), Slope(xs, ys));
  }

  /** All points lie on one line that rises, or on one that falls. */
  ghost predicate OnRising(xs: seq<real>, ys: seq<real>)
    requires |xs| == |ys|
  {
    exists m: real, c: real :: m > 0.0 && OnLine(xs, ys, m, c)
  }

  ghost predicate OnFalling(xs: seq<real>, ys: seq<real>)
    requires |xs| == |ys|
  {
    exists m: real, c: real :: m < 0.0 && OnLine(xs, ys, m, c)
  }

  /** A line through all points has the fitted slope. */
  lemma LineHasFittedSlope(xs: seq<real>, ys: seq<real>, m: real, c: real)
    requires Scorable(xs, ys) && OnLine(xs, ys, m, c)
    ensures Slope(xs, ys) == m
  {
    CentredAffine(xs, m, c, ys);
    DotScaled(Centred(xs), Centred(xs), m, Centred(ys));
    QuotientOf(m, Dot(Centred(xs), Centred(xs)), Dot(Centred(xs), Centred(ys)));
  }

  /** Points on a line lie on the fitted line. */
  lemma FittedLineHolds(xs: seq<real>, ys: seq<real>)
    requires Scorable(xs, ys) && Collinear(xs, ys)
    ensures OnLine(xs, ys, Slope(xs, ys), Intercept(xs, ys, Slope(xs, ys)))
  {
    var m, c :| OnLine(xs, ys, m, c);
    LineHasFittedSlope(xs, ys, m, c);
    CentredAffine(xs, m, c, ys);
    LineThroughMeans(xs, ys, m);
  }

  lemma UnitRoots(c: real, q: real)
    requires q == c * c
    ensures q == 1.0 <==> c == 1.0 || c == -1.0
  {
    assert (c - 1.0) * (c + 1.0) == q - 1.0;
    if q == 1.0 && c != 1.0 && c != -1.0 {
      NonzeroProduct(c - 1.0, c + 1.0);
    }
  }

  /** The correlation is 1 exactly for points on a rising line, and -1 exactly on a falling one. */
  lemma PearsonExtremes(xs: seq<real>, ys: seq<real>, root: real)
    requires Scorable(xs, ys) && RootOf(root, Dot(Centred(xs), Centred(xs)), Dot(Centred(ys), Centred(ys)))
    ensures Pearson(xs, ys, root) == 1.0 <==> OnRising(xs, ys)
    ensures Pearson(xs, ys, root) == -1.0 <==> OnFalling(xs, ys)
  {
    var c := Pearson(xs, ys, root);
    R2IsPearsonSquared(xs, ys, root);
    UnitRoots(c, LinregR2(xs, ys));
    PerfectMeansCollinear(xs, ys);
    PearsonSign(xs, ys, root);
    SlopeDecides(xs, ys);
  }

  lemma SlopeDecides(xs: seq<real>, ys: seq<real>)
    requires Scorable(xs, ys)
    ensures OnRising(xs, ys) <==> Collinear(xs, ys) && Slope(xs, ys) > 0.0
    ensures OnFalling(xs, ys) <==> Collinear(xs, ys) && Slope(xs, ys) < 0.0
  {
    if Collinear(xs, ys) {
      FittedLineHolds(xs, ys);
    }
    if OnRising(xs, ys) {
      var m, c :| m > 0.0 && OnLine(xs, ys, m, c);
      LineHasFittedSlope(xs, ys, m, c);
    }
    if OnFalling(xs, ys) {
      var m, c :| m < 0.0 && OnLine(xs, ys, m, c);
      LineHasFittedSlope(xs, ys, m, c);
    }
  }
}
