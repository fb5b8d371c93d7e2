/** Single terms coef * x^deg of a typeset polynomial, their products, and collecting
    a list of terms by degree into a coefficient list. */
module Terms {
  import opened Polynomials

  datatype Monomial = Monomial(coef: real, deg: nat)

  function Value(x: real, m: Monomial): real
  {
    m.coef * Pow(x, m.deg)
  }

  /** The product of two terms: the coefficients multiply and the degrees add. */
  function Times(a: Monomial, b: Monomial): Monomial
  {
    Monomial(a.coef * b.coef, a.deg + b.deg)
  }

  lemma TimesValue(x: real, a: Monomial, b: Monomial)
    ensures Value(x, Times(a, b)) == Value(x, a) * Value(x, b)
  {
    PowAdd(x, a.deg, b.deg);
    assert Value(x, Times(a, b)) == (a.coef * b.coef) * Pow(x, a.deg + b.deg);
    assert (a.coef * b.coef) * (Pow(x, a.deg) * Pow(x, b.deg))
        == (a.coef * Pow(x, a.deg)) * (b.coef * Pow(x, b.deg));
  }

  /** The sum of val over the terms. */
  function SumBy(val: Monomial -> real, ts: seq<Monomial>): real
  {
    if ts == [] then 0.0 else val(ts[0]) + SumBy(val, ts[1..])
  }

  lemma {:induction false} SumByConcat(val: Monomial -> real, a: seq<Monomial>, b: seq<Monomial>)
    ensures SumBy(val, a + b) == SumBy(val, a) + SumBy(val, b)
  {
    if a == [] {
      assert a + b == b;
    } else {
      assert (a + b)[1..] == a[1..] + b;
      SumByConcat(val, a[1..], b);
    }
  }

  /** The value at x of the sum of the terms. */
  function TermsValue(x: real, ts: seq<Monomial>): real
  {
    SumBy(m => Value(x, m), ts)
  }

  /** The coefficient of x^d once like terms are gathered: the sum of the coefficients
      of the terms of degree d. */
  function CoefOf(ts: seq<Monomial>, d: int): real
  {
    if ts == [] then 0.0
    else (if ts[0].deg == d then ts[0].coef else 0.0) + CoefOf(ts[1..], d)
  }

  /** The terms gathered by degree into a coefficient list, degree 0 first. */
  function Collect(ts: seq<Monomial>, n: nat): seq<real>
  {
    seq(n, d => CoefOf(ts, d))
  }

  /** Gathering the terms from position k on: the term at k adds its coefficient to
      its degree, on top of what the later terms gather. */
  lemma CollectStep(ts: seq<Monomial>, k: nat, n: nat)
    requires k < |ts| && ts[k].deg < n
    ensures var rest := Collect(ts[k + 1..], n);
            Collect(ts[k..], n) == rest[ts[k].deg := rest[ts[k].deg] + ts[k].coef]
  {
    assert ts[k..][1..] == ts[k + 1..];
  }

  predicate DegreesBelow(ts: seq<Monomial>, n: nat)
  {
    forall k :: 0 <= k < |ts| ==> ts[k].deg < n
  }

  /** Gathering like terms keeps the value of the polynomial: the collected coefficient
      list evaluates, at every x, to the sum of the terms. */
  lemma {:induction false} CollectValue(x: real, ts: seq<Monomial>, n: nat)
    requires DegreesBelow(ts, n)
    ensures PolySum(x, Collect(ts, n)) == TermsValue(x, ts)
  {
    if ts == [] {
      SumZeros(x, Collect(ts, n), n);
    } else {
      var t := ts[0];
      var rest := Collect(ts[1..], n);
      assert DegreesBelow(ts[1..], n) by {
        forall k | 0 <= k < |ts[1..]| ensures ts[1..][k].deg < n {
          assert ts[1..][k] == ts[k + 1];
        }
      }
      assert t.deg < n by { assert ts[0] == t; }
      CollectValue(x, ts[1..], n);
      assert Collect(ts, n) == rest[t.deg := rest[t.deg] + t.coef];
      PolySumUpdate(x, rest, t.deg, t.coef);
    }
  }
}
