/** Evaluation of a polynomial given by its coefficients from degree 0 upwards
    (evaluate_polynomial), over exact reals. */
module Polynomials {

  /** x ** n for a natural exponent; like Python, 0 ** 0 is 1. */
  function Pow(x: real, n: nat): real
  {
    if n == 0 then 1.0 else x * Pow(x, n - 1)
  }

  lemma {:induction false} PowAdd(x: real, a: nat, b: nat)
    ensures Pow(x, a + b) == Pow(x, a) * Pow(x, b)
  {
    if a != 0 {
      PowAdd(x, a - 1, b);
      assert Pow(x, a + b) == x * Pow(x, (a - 1) + b);
      assert x * (Pow(x, a - 1) * Pow(x, b)) == (x * Pow(x, a - 1)) * Pow(x, b);
    }
  }

  /** The sum of the first n terms coeffs[i] * x^i, i < n. */
  function Sum(x: real, coeffs: seq<real>, n: nat): real
    requires n <= |coeffs|
  {
    if n == 0 then 0.0 else Sum(x, coeffs, n - 1) + coeffs[n - 1] * Pow(x, n - 1)
  }

  /** The value of the polynomial at x: the sum over every index i of coeffs[i] * x^i. */
  function PolySum(x: real, coeffs: seq<real>): real
  {
    Sum(x, coeffs, |coeffs|)
  }

  /** A partial sum depends only on the coefficients it has summed. */
  lemma {:induction false} SumAgree(x: real, a: seq<real>, b: seq<real>, n: nat)
    requires n <= |a| && n <= |b|
    requires forall i :: 0 <= i < n ==> a[i] == b[i]
    ensures Sum(x, a, n) == Sum(x, b, n)
  {
    if n != 0 {
      SumAgree(x, a, b, n - 1);
    }
  }

  /** Appending one coefficient adds exactly one term, c * x^|coeffs|:
      the accumulation step of evaluate_polynomial. */
  lemma PolySumAppend(x: real, coeffs: seq<real>, c: real)
    ensures PolySum(x, coeffs + [c]) == PolySum(x, coeffs) + c * Pow(x, |coeffs|)
  {
    SumAgree(x, coeffs + [c], coeffs, |coeffs|);
  }

  /** Adding c to the coefficient of degree d adds c * x^d to the value. */
  lemma {:induction false} SumUpdate(x: real, coeffs: seq<real>, d: nat, c: real, n: nat)
    requires d < |coeffs| && n <= |coeffs|
    ensures Sum(x, coeffs[d := coeffs[d] + c], n)
         == Sum(x, coeffs, n) + (if d < n then c * Pow(x, d) else 0.0)
  {
    if n <= d {
      SumAgree(x, coeffs[d := coeffs[d] + c], coeffs, n);
    } else if n == d + 1 {
      SumUpdateAt(x, coeffs, n, c);
      assert n - 1 == d;
    } else {
      SumUpdate(x, coeffs, d, c, n - 1);
      SumUpdateAbove(x, coeffs, d, c, n);
    }
  }

  /** Up to and including the changed degree n - 1, the update adds c * x^(n - 1). */
  lemma SumUpdateAt(x: real, coeffs: seq<real>, n: nat, c: real)
    requires 0 < n <= |coeffs|
    ensures Sum(x, coeffs[n - 1 := coeffs[n - 1] + c], n) == Sum(x, coeffs, n) + c * Pow(x, n - 1)
  {
    var u := coeffs[n - 1 := coeffs[n - 1] + c];
    SumAgree(x, u, coeffs, n - 1);
    DistributeAdd(coeffs[n - 1], c, Pow(x, n - 1));
    AddedTerm(Sum(x, u, n), Sum(x, u, n - 1), u[n - 1] * Pow(x, n - 1), Sum(x, coeffs, n),
              Sum(x, coeffs, n - 1), coeffs[n - 1] * Pow(x, n - 1), c * Pow(x, n - 1));
  }

  /** Above the changed degree d both sums add the same term. */
  lemma SumUpdateAbove(x: real, coeffs: seq<real>, d: nat, c: real, n: nat)
    requires d + 1 < n <= |coeffs|
    requires Sum(x, coeffs[d := coeffs[d] + c], n - 1) == Sum(x, coeffs, n - 1) + c * Pow(x, d)
    ensures Sum(x, coeffs[d := coeffs[d] + c], n) == Sum(x, coeffs, n) + c * Pow(x, d)
  {
    var u := coeffs[d := coeffs[d] + c];
    assert u[n - 1] == coeffs[n - 1];
    SameTerm(Sum(x, u, n), Sum(x, u, n - 1), u[n - 1] * Pow(x, n - 1), Sum(x, coeffs, n),
             Sum(x, coeffs, n - 1), coeffs[n - 1] * Pow(x, n - 1), c * Pow(x, d));
  }

  /** Both sums grow by the same term, so they keep their difference e. The sums and terms
      are passed as plain reals only to keep the solver's nonlinear arithmetic stable; the
      lemma states no property of evaluate_polynomial by itself. */
  lemma SameTerm(su: real, su0: real, tu: real, sc: real, sc0: real, tc: real, e: real)
    requires su == su0 + tu && sc == sc0 + tc && su0 == sc0 + e && tu == tc
    ensures su == sc + e
  {
  }

  /** The step of SumUpdate with every sum and term named: both sums grow by a term, and
      the terms differ by e. Like SameTerm, only a solver aid for SumUpdateAt. */
  lemma AddedTerm(su: real, su0: real, tu: real, sc: real, sc0: real, tc: real, e: real)
    requires su == su0 + tu && sc == sc0 + tc && su0 == sc0 && tu == tc + e
    ensures su == sc + e
  {
  }

  /** Distributivity with the product named; only a solver aid for SumUpdateAt. */
  lemma DistributeAdd(a: real, c: real, p: real)
    ensures (a + c) * p == a * p + c * p
  {
  }

  lemma PolySumUpdate(x: real, coeffs: seq<real>, d: nat, c: real)
    requires d < |coeffs|
    ensures PolySum(x, coeffs[d := coeffs[d] + c]) == PolySum(x, coeffs) + c * Pow(x, d)
  {
    SumUpdate(x, coeffs, d, c, |coeffs|);
  }

  /** A list of zero coefficients is the zero polynomial. */
  lemma {:induction false} SumZeros(x: real, coeffs: seq<real>, n: nat)
    requires n <= |coeffs|
    requires forall i :: 0 <= i < |coeffs| ==> coeffs[i] == 0.0
    ensures Sum(x, coeffs, n) == 0.0
  {
    if n != 0 {
      SumZeros(x, coeffs, n - 1);
    }
  }

  /** evaluate_polynomial: accumulates coeff * x ** i over the coefficients in order,
      starting from 0. */
  method EvaluatePolynomial(x: real, coeffs: seq<real>) returns (res: real)
    ensures res == PolySum(x, coeffs)
    ensures coeffs == [] ==> res == 0.0
  {
    res := 0.0;
    for i := 0 to |coeffs|
      invariant res == Sum(x, coeffs, i)
    {
      res := res + coeffs[i] * Pow(x, i);
    }
  }
}
