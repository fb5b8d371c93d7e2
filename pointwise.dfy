/** The MultiplyPolynomialsPointwise scene: P, F and their product C sampled at five
    points, and the points kept for the plot, those strictly inside the axes' y range. */
module Pointwise {
  import opened Polynomials
  import MultiplyPolynomials

  /** eval_points = [-3.732, -2, -0.268, 0, .5] */
  const EvalPoints: seq<real> := [-3.732, -2.0, -0.268, 0.0, 0.5]

  /** P(x) = x^2 + 4x + 1 and F(x) = 3x^2 + x + 4, coefficients from degree 0 up. */
  const PCoefficients: seq<real> := [1.0, 4.0, 1.0]
  const FCoefficients: seq<real> := [4.0, 1.0, 3.0]

  /** The ends of the axes' y_range [-8, 8, 1], which are also the bounds of the filter. */
  const YMin: real := -8.0
  const YMax: real := 8.0

  /** [(x, evaluate_polynomial(x, coeffs)) for x in xs] */
  function Points(xs: seq<real>, coeffs: seq<real>): seq<(real, real)>
  {
    seq(|xs|, k requires 0 <= k < |xs| => (xs[k], PolySum(xs[k], coeffs)))
  }

  /** The product's points are the pointwise products of the factors' points: at each
      sample x, C(x) = P(x) * F(x). */
  lemma PointsMultiply(xs: seq<real>)
    ensures |Points(xs, MultiplyPolynomials.RsCoefficients)| == |xs|
    ensures forall k :: 0 <= k < |xs| ==>
              Points(xs, MultiplyPolynomials.RsCoefficients)[k].0 == xs[k] &&
              Points(xs, MultiplyPolynomials.RsCoefficients)[k].1
                == Points(xs, PCoefficients)[k].1 * Points(xs, FCoefficients)[k].1
  {
    forall k | 0 <= k < |xs|
      ensures Points(xs, MultiplyPolynomials.RsCoefficients)[k].1
           == Points(xs, PCoefficients)[k].1 * Points(xs, FCoefficients)[k].1
    {
      MultiplyPolynomials.ProductEvaluates(xs[k]);
    }
  }

  /** A point lies strictly between the ends of the y range: x[1] < 8 and x[1] > -8. */
  predicate Visible(p: (real, real))
  {
    p.1 < YMax && p.1 > YMin
  }

  /** [x for x in points if x[1] < 8 and x[1] > -8] */
  function KeepVisible(ps: seq<(real, real)>): (r: seq<(real, real)>)
    ensures |r| <= |ps|
  {
    if ps == [] then []
    else (if Visible(ps[0]) then [ps[0]] else []) + KeepVisible(ps[1..])
  }

  /** The filter keeps exactly the visible points. */
  lemma {:induction false} KeepVisibleMembers(ps: seq<(real, real)>)
    ensures forall p :: p in KeepVisible(ps) <==> p in ps && Visible(p)
  {
    if ps != [] {
      KeepVisibleMembers(ps[1..]);
      assert ps == [ps[0]] + ps[1..];
    }
  }

  /** The filter works point by point and keeps the order: filtering a concatenation
      concatenates the filtered parts. */
  lemma {:induction false} KeepVisibleConcat(a: seq<(real, real)>, b: seq<(real, real)>)
    ensures KeepVisible(a + b) == KeepVisible(a) + KeepVisible(b)
  {
    if a == [] {
      assert a + b == b;
    } else {
      var h := if Visible(a[0]) then [a[0]] else [];
      assert (a + b)[0] == a[0] && (a + b)[1..] == a[1..] + b;
      KeepVisibleConcat(a[1..], b);
      assert KeepVisible(a + b) == h + (KeepVisible(a[1..]) + KeepVisible(b));
      assert h + (KeepVisible(a[1..]) + KeepVisible(b)) == (h + KeepVisible(a[1..])) + KeepVisible(b);
    }
  }

  /** Filtering twice keeps what filtering once keeps. */
  lemma {:induction false} KeepVisibleIdempotent(ps: seq<(real, real)>)
    ensures KeepVisible(KeepVisible(ps)) == KeepVisible(ps)
  {
    if ps != [] {
      var r := KeepVisible(ps[1..]);
      KeepVisibleIdempotent(ps[1..]);
      if Visible(ps[0]) {
        assert KeepVisible(ps) == [ps[0]] + r;
        KeepVisibleConcat([ps[0]], r);
        assert [ps[0]][1..] == [];
        assert KeepVisible([ps[0]]) == [ps[0]];
      } else {
        assert KeepVisible(ps) == [] + r;
        assert [] + r == r;
      }
    }
  }

  /** The filter leaves a list unchanged exactly when every point in it is visible. */
  lemma {:induction false} KeepVisibleUnchanged(ps: seq<(real, real)>)
    ensures KeepVisible(ps) == ps <==> forall k :: 0 <= k < |ps| ==> Visible(ps[k])
  {
    if forall k :: 0 <= k < |ps| ==> Visible(ps[k]) {
      AllVisibleKept(ps);
    } else {
      var k :| 0 <= k < |ps| && !Visible(ps[k]);
      KeepVisibleMembers(ps);
      assert ps[k] in ps;
      assert ps[k] !in KeepVisible(ps);
    }
  }

  lemma {:induction false} AllVisibleKept(ps: seq<(real, real)>)
    requires forall k :: 0 <= k < |ps| ==> Visible(ps[k])
    ensures KeepVisible(ps) == ps
  {
    if ps != [] {
      assert Visible(ps[0]);
      AllVisibleKept(ps[1..]);
    }
  }

  /** p1_func = lambda x: 1 + 4 * x + x ** 2 */
  function P1Func(x: real): real
  {
    1.0 + 4.0 * x + Pow(x, 2)
  }

  /** p2_func = lambda x: 4 + x + 3 * x ** 2 */
  function P2Func(x: real): real
  {
    4.0 + x + 3.0 * Pow(x, 2)
  }

  /** out_func = lambda x: 4 + (17 * x) + (11 * x ** 2) + (13 * x ** 3) + (3 * x ** 4) */
  function OutFunc(x: real): real
  {
    4.0 + 17.0 * x + 11.0 * Pow(x, 2) + 13.0 * Pow(x, 3) + 3.0 * Pow(x, 4)
  }

  /** The plotted lambdas are the polynomials whose coefficient lists the points use. */
  lemma FuncsAgree(x: real)
    ensures P1Func(x) == PolySum(x, PCoefficients)
    ensures P2Func(x) == PolySum(x, FCoefficients)
    ensures OutFunc(x) == PolySum(x, MultiplyPolynomials.RsCoefficients)
  {
    var p, f, c := PCoefficients, FCoefficients, MultiplyPolynomials.RsCoefficients;
    assert Sum(x, p, 1) == 1.0 && Sum(x, f, 1) == 4.0 && Sum(x, c, 1) == 4.0;
    assert Sum(x, p, 2) == 1.0 + 4.0 * x;
    assert Sum(x, f, 2) == 4.0 + x;
    assert Sum(x, c, 2) == 4.0 + 17.0 * x;
    assert Sum(x, c, 3) == 4.0 + 17.0 * x + 11.0 * Pow(x, 2);
    assert Sum(x, c, 4) == 4.0 + 17.0 * x + 11.0 * Pow(x, 2) + 13.0 * Pow(x, 3);
  }

  /** The graph of C is the pointwise product of the graphs of P and F. */
  lemma FuncsMultiply(x: real)
    ensures OutFunc(x) == P1Func(x) * P2Func(x)
  {
    FuncsAgree(x);
    MultiplyPolynomials.ProductEvaluates(x);
  }

  /** The sampled values of P and F. */
  lemma ScenePoints()
    ensures Points(EvalPoints, PCoefficients)
         == [(-3.732, -0.000176), (-2.0, -3.0), (-0.268, -0.000176), (0.0, 1.0), (0.5, 3.25)]
    ensures Points(EvalPoints, FCoefficients)
         == [(-3.732, 42.051472), (-2.0, 14.0), (-0.268, 3.947472), (0.0, 4.0), (0.5, 5.25)]
  {
    forall k | 0 <= k < 5
      ensures PolySum(EvalPoints[k], PCoefficients) == P1Func(EvalPoints[k])
      ensures PolySum(EvalPoints[k], FCoefficients) == P2Func(EvalPoints[k])
    {
      FuncsAgree(EvalPoints[k]);
    }
  }

  /** The sampled values of C, each the product of those of P and F. */
  lemma SceneProductPoints()
    ensures Points(EvalPoints, MultiplyPolynomials.RsCoefficients)
         == [(-3.732, -0.007401059072), (-2.0, -42.0), (-0.268, -0.000694755072), (0.0, 4.0), (0.5, 17.0625)]
  {
    ScenePoints();
    PointsMultiply(EvalPoints);
  }

  /** The filter on one more point in front. */
  lemma KeepVisibleCons(p: (real, real), ps: seq<(real, real)>)
    ensures KeepVisible([p] + ps) == (if Visible(p) then [p] else []) + KeepVisible(ps)
  {
    assert ([p] + ps)[1..] == ps;
  }

  /** The plot keeps all five points of P. */
  lemma SceneVisibleP()
    ensures KeepVisible(Points(EvalPoints, PCoefficients)) == Points(EvalPoints, PCoefficients)
  {
    ScenePoints();
    KeepVisibleUnchanged(Points(EvalPoints, PCoefficients));
  }

  /** The plot keeps the last three points of F: F(-3.732) = 42.051472 and F(-2) = 14
      lie above the y range. */
  lemma SceneVisibleF()
    ensures KeepVisible(Points(EvalPoints, FCoefficients)) == [(-0.268, 3.947472), (0.0, 4.0), (0.5, 5.25)]
  {
    ScenePoints();
    var f0, f1, f2, f3, f4 := (-3.732, 42.051472), (-2.0, 14.0), (-0.268, 3.947472), (0.0, 4.0), (0.5, 5.25);
    assert KeepVisible([f2, f3, f4]) == [f2, f3, f4] by {
      KeepVisibleUnchanged([f2, f3, f4]);
    }
    assert KeepVisible([f1, f2, f3, f4]) == [f2, f3, f4] by {
      KeepVisibleCons(f1, [f2, f3, f4]);
      assert [f1, f2, f3, f4] == [f1] + [f2, f3, f4];
    }
    assert KeepVisible([f0, f1, f2, f3, f4]) == [f2, f3, f4] by {
      KeepVisibleCons(f0, [f1, f2, f3, f4]);
      assert [f0, f1, f2, f3, f4] == [f0] + [f1, f2, f3, f4];
    }
  }

  /** The plot keeps the first, third and fourth points of C: C(-2) = -42 lies below the
      y range and C(0.5) = 17.0625 above it. */
  lemma SceneVisibleC()
    ensures KeepVisible(Points(EvalPoints, MultiplyPolynomials.RsCoefficients))
         == [(-3.732, -0.007401059072), (-0.268, -0.000694755072), (0.0, 4.0)]
  {
    SceneProductPoints();
    var c0, rest := (-3.732, -0.007401059072),
                    [(-2.0, -42.0), (-0.268, -0.000694755072), (0.0, 4.0), (0.5, 17.0625)];
    SceneVisibleCTail();
    KeepVisibleCons(c0, rest);
    assert [c0] + rest == Points(EvalPoints, MultiplyPolynomials.RsCoefficients);
  }

  /** The last four points of C keep their second and third. */
  lemma SceneVisibleCTail()
    ensures KeepVisible([(-2.0, -42.0), (-0.268, -0.000694755072), (0.0, 4.0), (0.5, 17.0625)])
         == [(-0.268, -0.000694755072), (0.0, 4.0)]
  {
    var c1, c2, c3, c4 := (-2.0, -42.0), (-0.268, -0.000694755072), (0.0, 4.0), (0.5, 17.0625);
    assert KeepVisible([c4]) == [] by {
      KeepVisibleCons(c4, []);
      assert [c4] == [c4] + [];
    }
    assert KeepVisible([c3, c4]) == [c3] by {
      KeepVisibleCons(c3, [c4]);
      assert [c3, c4] == [c3] + [c4];
    }
    assert KeepVisible([c2, c3, c4]) == [c2, c3] by {
      KeepVisibleCons(c2, [c3, c4]);
      assert [c2, c3, c4] == [c2] + [c3, c4];
    }
    KeepVisibleCons(c1, [c2, c3, c4]);
    assert [c1, c2, c3, c4] == [c1] + [c2, c3, c4];
  }
}
