/** The index bookkeeping of the MultiplyPolynomials scene: the term positions of the
    typeset polynomials P, F and C, the pairs of factor terms built by two nested loops,
    and the zip that sends each pair to one term of the expanded product. */
module MultiplyPolynomials {
  import opened Polynomials
  import opened Terms

  /** One part of a MathTex: a term of the polynomial, or any other symbol. */
  datatype Part = Term(m: Monomial) | Symbol(text: string)

  /** p1 = MathTex("P(x)", "=", "x^2", "+", "4x", "+", "1") */
  const P1Parts: seq<Part> :=
    [Symbol("P(x)"), Symbol("="), Term(Monomial(1.0, 2)), Symbol("+"),
     Term(Monomial(4.0, 1)), Symbol("+"), Term(Monomial(1.0, 0))]

  /** p2 = MathTex("F(x)", "=", "3x^2", "+", "x", "+", "4") */
  const P2Parts: seq<Part> :=
    [Symbol("F(x)"), Symbol("="), Term(Monomial(3.0, 2)), Symbol("+"),
     Term(Monomial(1.0, 1)), Symbol("+"), Term(Monomial(4.0, 0))]

  /** r = MathTex("C(x)", "=", "3x^4", "+", "x^3", "+", "4x^2", "+", "12x^3", "+",
      "4x^2", "+", "16x", "+", "3x^2", "+", "x", "+", "4"): the expanded product. */
  const RParts: seq<Part> :=
    [Symbol("C(x)"), Symbol("="),
     Term(Monomial(3.0, 4)), Symbol("+"), Term(Monomial(1.0, 3)), Symbol("+"),
     Term(Monomial(4.0, 2)), Symbol("+"), Term(Monomial(12.0, 3)), Symbol("+"),
     Term(Monomial(4.0, 2)), Symbol("+"), Term(Monomial(16.0, 1)), Symbol("+"),
     Term(Monomial(3.0, 2)), Symbol("+"), Term(Monomial(1.0, 1)), Symbol("+"),
     Term(Monomial(4.0, 0))]

  /** r_s = "C(x) = 3x^4 + 13x^3 + 11x^2 + 17x + 4", as coefficients from degree 0 up. */
  const RsCoefficients: seq<real> := [4.0, 17.0, 11.0, 13.0, 3.0]

  /** Python's range(start, stop, 2): start, start + 2, ... while below stop. */
  function Range2(start: nat, stop: nat): (r: seq<nat>)
    ensures forall k :: 0 <= k < |r| ==> r[k] == start + 2 * k && r[k] < stop
    ensures start + 2 * |r| >= stop
  {
    if start < stop then seq((stop - start + 1) / 2, k => start + 2 * k) else []
  }

  /** The positions of the terms of a MathTex of the form "name", "=", t, "+", t, ...:
      [x for x in range(2, len(parts), 2)]. */
  function TermPositions(parts: seq<Part>): seq<nat>
  {
    Range2(2, |parts|)
  }

  /** One row of the pair list: x with every element of ys, in order. */
  function Row<T, U>(x: T, ys: seq<U>): (r: seq<(T, U)>)
    ensures |r| == |ys|
    ensures forall j :: 0 <= j < |ys| ==> r[j] == (x, ys[j])
  {
    if ys == [] then [] else [(x, ys[0])] + Row(x, ys[1..])
  }

  /** [(x, y) for x in xs for y in ys]: every pair, the first list outer. */
  function RowMajorPairs<T, U>(xs: seq<T>, ys: seq<U>): seq<(T, U)>
  {
    if xs == [] then [] else Row(xs[0], ys) + RowMajorPairs(xs[1..], ys)
  }

  /** There are |xs| * |ys| pairs. */
  lemma {:induction false} RowMajorPairsLength<T, U>(xs: seq<T>, ys: seq<U>)
    ensures |RowMajorPairs(xs, ys)| == |xs| * |ys|
  {
    if xs != [] {
      RowMajorPairsLength(xs[1..], ys);
      assert |xs| * |ys| == |ys| + (|xs| - 1) * |ys|;
    }
  }

  /** Pair (xs[i], ys[j]) sits at position k = i * |ys| + j: the pairs are in row-major
      order, and as there are |xs| * |ys| of them, each pair of positions occurs exactly
      once. Each row puts |ys| pairs in front of the next one. */
  lemma {:induction false} RowMajorPairsIndex<T, U>(xs: seq<T>, ys: seq<U>, i: nat, j: nat, k: nat)
    requires i < |xs| && j < |ys| && k == i * |ys| + j
    ensures k < |RowMajorPairs(xs, ys)| && RowMajorPairs(xs, ys)[k] == (xs[i], ys[j])
  {
    var row, rest := Row(xs[0], ys), RowMajorPairs(xs[1..], ys);
    assert RowMajorPairs(xs, ys) == row + rest;
    if i == 0 {
      assert k == j;
    } else {
      NextRow(i, |ys|, j);
      RowMajorPairsIndex(xs[1..], ys, i - 1, j, k - |ys|);
      assert xs[1..][i - 1] == xs[i];
    }
  }

  /** Position i * m + j lies one row of m further on than position (i - 1) * m + j. */
  lemma NextRow(i: nat, m: nat, j: nat)
    requires 0 < i
    ensures 0 <= (i - 1) * m && i * m + j == m + ((i - 1) * m + j)
  {
  }

  /** The pair list holds exactly the pairs of an element of xs with an element of ys. */
  lemma {:induction false} RowMajorPairsMembers<T, U>(xs: seq<T>, ys: seq<U>)
    ensures forall p :: p in RowMajorPairs(xs, ys) <==> p.0 in xs && p.1 in ys
  {
    if xs != [] {
      RowMajorPairsMembers(xs[1..], ys);
      RowMembers(xs[0], ys);
      assert RowMajorPairs(xs, ys) == Row(xs[0], ys) + RowMajorPairs(xs[1..], ys);
      assert xs == [xs[0]] + xs[1..];
    }
  }

  lemma RowMembers<T, U>(x: T, ys: seq<U>)
    ensures forall p :: p in Row(x, ys) <==> p.0 == x && p.1 in ys
  {
    forall p: (T, U) | p.0 == x && p.1 in ys
      ensures p in Row(x, ys)
    {
      var j :| 0 <= j < |ys| && ys[j] == p.1;
      assert Row(x, ys)[j] == p;
    }
  }

  /** Appending one more outer element appends one more row. */
  lemma {:induction false} RowMajorPairsSnoc<T, U>(xs: seq<T>, x: T, ys: seq<U>)
    ensures RowMajorPairs(xs + [x], ys) == RowMajorPairs(xs, ys) + Row(x, ys)
  {
    if xs == [] {
      assert xs + [x] == [x];
      assert [x][1..] == [];
    } else {
      assert (xs + [x])[1..] == xs[1..] + [x];
      RowMajorPairsSnoc(xs[1..], x, ys);
    }
  }

  /** The nested loops that build combs:
        for x in p1_str:
            for y in p2_str:
                combs.append((x, y)) */
  method Combinations<T, U>(xs: seq<T>, ys: seq<U>) returns (combs: seq<(T, U)>)
    ensures combs == RowMajorPairs(xs, ys)
  {
    combs := [];
    for i := 0 to |xs|
      invariant combs == RowMajorPairs(xs[..i], ys)
    {
      ghost var done := combs;
      for j := 0 to |ys|
        invariant combs == done + Row(xs[i], ys)[..j]
      {
        RowPrefixStep(xs[i], ys, j);
        combs := combs + [(xs[i], ys[j])];
      }
      assert Row(xs[i], ys)[..|ys|] == Row(xs[i], ys);
      RowMajorPairsPrefixStep(xs, ys, i);
    }
    assert xs[..|xs|] == xs;
  }

  /** One more pair of the inner loop extends the current row by one. */
  lemma RowPrefixStep<T, U>(x: T, ys: seq<U>, j: nat)
    requires j < |ys|
    ensures Row(x, ys)[..j + 1] == Row(x, ys)[..j] + [(x, ys[j])]
  {
    PrefixSnoc(Row(x, ys), j);
  }

  lemma PrefixSnoc<V>(r: seq<V>, j: nat)
    requires j < |r|
    ensures r[..j + 1] == r[..j] + [r[j]]
  {
  }

  /** One more round of the outer loop appends the row of xs[i]. */
  lemma RowMajorPairsPrefixStep<T, U>(xs: seq<T>, ys: seq<U>, i: nat)
    requires i < |xs|
    ensures RowMajorPairs(xs[..i + 1], ys) == RowMajorPairs(xs[..i], ys) + Row(xs[i], ys)
  {
    assert xs[..i + 1] == xs[..i] + [xs[i]];
    RowMajorPairsSnoc(xs[..i], xs[i], ys);
  }

  function Min(a: nat, b: nat): nat
  {
    if a <= b then a else b
  }

  /** Python's zip of three lists: it stops at the end of the shortest. */
  function Zip3<A, B, O>(a: seq<A>, b: seq<B>, c: seq<O>): (r: seq<(A, B, O)>)
    ensures |r| == Min(|a|, Min(|b|, |c|))
    ensures forall k :: 0 <= k < |r| ==> r[k] == (a[k], b[k], c[k])
  {
    if a == [] || b == [] || c == [] then []
    else [(a[0], b[0], c[0])] + Zip3(a[1..], b[1..], c[1..])
  }

  /** The (t1, t2, o) triples of the play call:
      zip([x[0] for x in combs], [x[1] for x in combs], out).
      When combs and out have the same length the zip drops nothing and the k-th pair
      goes to the k-th output position. */
  function Transfers(combs: seq<(nat, nat)>, out: seq<nat>): (r: seq<(nat, nat, nat)>)
    ensures |r| == Min(|combs|, |out|)
    ensures |combs| == |out| ==> |r| == |out|
    ensures forall k :: 0 <= k < |r| ==> r[k] == (combs[k].0, combs[k].1, out[k])
  {
    Zip3(seq(|combs|, k requires 0 <= k < |combs| => combs[k].0),
         seq(|combs|, k requires 0 <= k < |combs| => combs[k].1),
         out)
  }

  /** Every listed position of the MathTex holds a term. */
  predicate TermsThere(parts: seq<Part>, ps: seq<nat>)
  {
    forall k :: 0 <= k < |ps| ==> ps[k] < |parts| && parts[ps[k]].Term?
  }

  /** The monomials shown at the listed positions, in order. */
  function TermsAt(parts: seq<Part>, ps: seq<nat>): (r: seq<Monomial>)
    requires TermsThere(parts, ps)
    ensures |r| == |ps|
    ensures forall k :: 0 <= k < |ps| ==> parts[ps[k]] == Term(r[k])
  {
    seq(|ps|, k requires 0 <= k < |ps| && TermsThere(parts, ps) => parts[ps[k]].m)
  }

  /** The product of each pair of terms. */
  function Products(pairs: seq<(Monomial, Monomial)>): seq<Monomial>
  {
    if pairs == [] then [] else [Times(pairs[0].0, pairs[0].1)] + Products(pairs[1..])
  }

  /** The k-th product is that of the k-th pair. */
  lemma {:induction false} ProductsAt(pairs: seq<(Monomial, Monomial)>, k: nat)
    requires k < |pairs|
    ensures |Products(pairs)| == |pairs|
    ensures Products(pairs)[k] == Times(pairs[k].0, pairs[k].1)
  {
    if k == 0 {
      ProductsLength(pairs[1..]);
    } else {
      ProductsAt(pairs[1..], k - 1);
    }
  }

  lemma {:induction false} ProductsLength(pairs: seq<(Monomial, Monomial)>)
    ensures |Products(pairs)| == |pairs|
  {
    if pairs != [] {
      ProductsLength(pairs[1..]);
    }
  }

  /** The valuation respects products of terms, as the value at a fixed x does. */
  ghost predicate Multiplicative(val: Monomial -> real)
  {
    forall a, b :: val(Times(a, b)) == val(a) * val(b)
  }

  /** The sum over one row of products: val(t) times the sum over us. */
  lemma {:induction false} RowProductsSum(val: Monomial -> real, t: Monomial, us: seq<Monomial>)
    requires Multiplicative(val)
    ensures SumBy(val, Products(Row(t, us))) == val(t) * SumBy(val, us)
  {
    if us == [] {
      ZeroTimes(SumBy(val, us), val(t));
    } else {
      RowProductsSum(val, t, us[1..]);
      assert val(Times(t, us[0])) == val(t) * val(us[0]);
      Distribute(val(t) * val(us[0]), val(t) * SumBy(val, us[1..]), val(us[0]), SumBy(val, us[1..]), val(t),
                 SumBy(val, Products(Row(t, us))), SumBy(val, us));
    }
  }

  /** c * (a + b) == c * a + c * b, with the products named. This and the next three
      lemmas are only solver aids: naming the products keeps the nonlinear real arithmetic
      in RowProductsSum and ScaledSumFactor stable. */
  lemma Distribute(pa: real, pb: real, a: real, b: real, c: real, p: real, v: real)
    requires pa == c * a && pb == c * b && p == pa + pb && v == a + b
    ensures p == c * v
  {
  }

  /** (a + b) * c == a * c + b * c, with the products named. */
  lemma DistributeRight(pa: real, pb: real, a: real, b: real, c: real, p: real, v: real)
    requires pa == a * c && pb == b * c && p == pa + pb && v == a + b
    ensures p == v * c
  {
  }

  /** Multiplying by zero; only a solver aid for RowProductsSum. */
  lemma ZeroTimes(a: real, b: real)
    requires a == 0.0
    ensures b * a == 0.0
  {
  }

  lemma {:induction false} ProductsConcat(a: seq<(Monomial, Monomial)>, b: seq<(Monomial, Monomial)>)
    ensures Products(a + b) == Products(a) + Products(b)
  {
    if a == [] {
      assert a + b == b;
    } else {
      assert (a + b)[1..] == a[1..] + b;
      ProductsConcat(a[1..], b);
    }
  }

  /** The sums over the products of each row, row by row. */
  function RowSums(val: Monomial -> real, ts: seq<Monomial>, us: seq<Monomial>): real
  {
    if ts == [] then 0.0 else SumBy(val, Products(Row(ts[0], us))) + RowSums(val, ts[1..], us)
  }

  /** The sum of val(t) * c over the terms t. */
  function ScaledSum(val: Monomial -> real, ts: seq<Monomial>, c: real): real
  {
    if ts == [] then 0.0 else val(ts[0]) * c + ScaledSum(val, ts[1..], c)
  }

  lemma {:induction false} ProductsRowSums(val: Monomial -> real, ts: seq<Monomial>, us: seq<Monomial>)
    ensures SumBy(val, Products(RowMajorPairs(ts, us))) == RowSums(val, ts, us)
  {
    if ts == [] {
      assert RowMajorPairs(ts, us) == [];
    } else {
      var row, rest := Row(ts[0], us), RowMajorPairs(ts[1..], us);
      assert RowMajorPairs(ts, us) == row + rest;
      ProductsConcat(row, rest);
      SumByConcat(val, Products(row), Products(rest));
      ProductsRowSums(val, ts[1..], us);
    }
  }

  lemma {:induction false} RowSumsScaled(val: Monomial -> real, ts: seq<Monomial>, us: seq<Monomial>)
    requires Multiplicative(val)
    ensures RowSums(val, ts, us) == ScaledSum(val, ts, SumBy(val, us))
  {
    if ts != [] {
      RowProductsSum(val, ts[0], us);
      RowSumsScaled(val, ts[1..], us);
    }
  }

  lemma {:induction false} ScaledSumFactor(val: Monomial -> real, ts: seq<Monomial>, c: real)
    ensures ScaledSum(val, ts, c) == SumBy(val, ts) * c
  {
    if ts == [] {
      ZeroTimesLeft(SumBy(val, ts), c);
    } else {
      ScaledSumFactor(val, ts[1..], c);
      DistributeRight(val(ts[0]) * c, ScaledSum(val, ts[1..], c), val(ts[0]), SumBy(val, ts[1..]), c,
                      ScaledSum(val, ts, c), SumBy(val, ts));
    }
  }

  /** Multiplying zero; only a solver aid for ScaledSumFactor. */
  lemma ZeroTimesLeft(a: real, b: real)
    requires a == 0.0
    ensures a * b == 0.0
  {
  }

  /** For any valuation of terms that respects products, the sum over the products of
      all pairs is the product of the two sums. */
  lemma ProductsSum(val: Monomial -> real, ts: seq<Monomial>, us: seq<Monomial>)
    requires Multiplicative(val)
    ensures SumBy(val, Products(RowMajorPairs(ts, us))) == SumBy(val, ts) * SumBy(val, us)
  {
    calc {
      SumBy(val, Products(RowMajorPairs(ts, us)));
      { ProductsRowSums(val, ts, us); }
      RowSums(val, ts, us);
      { RowSumsScaled(val, ts, us); }
      ScaledSum(val, ts, SumBy(val, us));
      { ScaledSumFactor(val, ts, SumBy(val, us)); }
      SumBy(val, ts) * SumBy(val, us);
    }
  }

  /** Multiplying term by term: the sum of the products of all pairs of terms is the
      product of the two sums, at every x. */
  lemma ProductsValue(x: real, ts: seq<Monomial>, us: seq<Monomial>)
    ensures TermsValue(x, Products(RowMajorPairs(ts, us))) == TermsValue(x, ts) * TermsValue(x, us)
  {
    var val := m => Value(x, m);
    assert Multiplicative(val) by {
      forall a, b ensures val(Times(a, b)) == val(a) * val(b) {
        TimesValue(x, a, b);
      }
    }
    ProductsSum(val, ts, us);
  }

  /** Transfer number k = i * |ys| + j takes xs[i] and ys[j] to out[k]: with as
      many output positions as pairs, every pair of factor terms is sent exactly once. */
  lemma TransfersAt(xs: seq<nat>, ys: seq<nat>, out: seq<nat>, i: nat, j: nat, k: nat)
    requires |out| == |xs| * |ys|
    requires i < |xs| && j < |ys| && k == i * |ys| + j
    ensures |Transfers(RowMajorPairs(xs, ys), out)| == |out|
    ensures k < |out| && Transfers(RowMajorPairs(xs, ys), out)[k] == (xs[i], ys[j], out[k])
  {
    RowMajorPairsLength(xs, ys);
    RowMajorPairsIndex(xs, ys, i, j, k);
  }

  /** When the terms shown at the output positions of C are the products of the pairs of
      terms of A and B, in the order of the nested loops, output position number
      i * |ys| + j shows the product of the i-th term of A and the j-th term of B. */
  lemma PairLandsOnProduct(a: seq<Part>, b: seq<Part>, c: seq<Part>,
                           xs: seq<nat>, ys: seq<nat>, out: seq<nat>, i: nat, j: nat, k: nat)
    requires TermsThere(a, xs) && TermsThere(b, ys) && TermsThere(c, out)
    requires TermsAt(c, out) == Products(RowMajorPairs(TermsAt(a, xs), TermsAt(b, ys)))
    requires i < |xs| && j < |ys| && k == i * |ys| + j
    ensures k < |out| && c[out[k]] == Term(Times(a[xs[i]].m, b[ys[j]].m))
  {
    var ts, us := TermsAt(a, xs), TermsAt(b, ys);
    var pairs := RowMajorPairs(ts, us);
    assert k < |pairs| && pairs[k] == (ts[i], us[j]) by {
      assert |us| == |ys|;
      RowMajorPairsIndex(ts, us, i, j, k);
    }
    assert k < |out| && TermsAt(c, out)[k] == Times(ts[i], us[j]) by {
      ProductsAt(pairs, k);
    }
    assert c[out[k]] == Term(TermsAt(c, out)[k]);
    assert a[xs[i]] == Term(ts[i]);
    assert b[ys[j]] == Term(us[j]);
  }

  /** The terms of P and F sit at positions 2, 4 and 6. */
  lemma FactorPositions()
    ensures TermPositions(P1Parts) == [2, 4, 6] && TermPositions(P2Parts) == [2, 4, 6]
  {
  }

  /** The terms of C sit at positions 2, 4, ..., 18. */
  lemma ProductPositions()
    ensures TermPositions(RParts) == [2, 4, 6, 8, 10, 12, 14, 16, 18]
  {
  }

  /** The k-th transfer of the scene takes term k div 3 of P and term k mod 3 of F to
      the k-th term of C. */
  lemma SceneTransfers()
    ensures Transfers(RowMajorPairs(TermPositions(P1Parts), TermPositions(P2Parts)), TermPositions(RParts))
         == [(2, 2, 2), (2, 4, 4), (2, 6, 6), (4, 2, 8), (4, 4, 10), (4, 6, 12),
             (6, 2, 14), (6, 4, 16), (6, 6, 18)]
  {
    FactorPositions();
    ProductPositions();
    var ps: seq<nat> := [2, 4, 6];
    var out: seq<nat> := [2, 4, 6, 8, 10, 12, 14, 16, 18];
    var tr := Transfers(RowMajorPairs(ps, ps), out);
    assert |tr| == 9 && tr[0] == (2, 2, 2) by {
      TransfersAt(ps, ps, out, 0, 0, 0);
    }
    assert tr[1] == (2, 4, 4) by {
      TransfersAt(ps, ps, out, 0, 1, 1);
    }
    assert tr[2] == (2, 6, 6) by {
      TransfersAt(ps, ps, out, 0, 2, 2);
    }
    assert tr[3] == (4, 2, 8) by {
      TransfersAt(ps, ps, out, 1, 0, 3);
    }
    assert tr[4] == (4, 4, 10) by {
      TransfersAt(ps, ps, out, 1, 1, 4);
    }
    assert tr[5] == (4, 6, 12) by {
      TransfersAt(ps, ps, out, 1, 2, 5);
    }
    assert tr[6] == (6, 2, 14) by {
      TransfersAt(ps, ps, out, 2, 0, 6);
    }
    assert tr[7] == (6, 4, 16) by {
      TransfersAt(ps, ps, out, 2, 1, 7);
    }
    assert tr[8] == (6, 6, 18) by {
      TransfersAt(ps, ps, out, 2, 2, 8);
    }
  }

  /** The monomials shown at the term positions of P, F and C. */
  lemma SceneTerms()
    ensures TermsThere(P1Parts, TermPositions(P1Parts)) && TermsThere(P2Parts, TermPositions(P2Parts))
    ensures TermsThere(RParts, TermPositions(RParts))
    ensures TermsAt(P1Parts, TermPositions(P1Parts)) == [Monomial(1.0, 2), Monomial(4.0, 1), Monomial(1.0, 0)]
    ensures TermsAt(P2Parts, TermPositions(P2Parts)) == [Monomial(3.0, 2), Monomial(1.0, 1), Monomial(4.0, 0)]
    ensures TermsAt(RParts, TermPositions(RParts))
         == [Monomial(3.0, 4), Monomial(1.0, 3), Monomial(4.0, 2), Monomial(12.0, 3), Monomial(4.0, 2),
             Monomial(16.0, 1), Monomial(3.0, 2), Monomial(1.0, 1), Monomial(4.0, 0)]
  {
    FactorPositions();
    ProductPositions();
    SceneFactorTerms();
    SceneProductTerms();
  }

  lemma SceneFactorTerms()
    requires TermPositions(P1Parts) == [2, 4, 6] && TermPositions(P2Parts) == [2, 4, 6]
    ensures TermsThere(P1Parts, TermPositions(P1Parts)) && TermsThere(P2Parts, TermPositions(P2Parts))
    ensures TermsAt(P1Parts, TermPositions(P1Parts)) == [Monomial(1.0, 2), Monomial(4.0, 1), Monomial(1.0, 0)]
    ensures TermsAt(P2Parts, TermPositions(P2Parts)) == [Monomial(3.0, 2), Monomial(1.0, 1), Monomial(4.0, 0)]
  {
  }

  lemma SceneProductTerms()
    requires TermPositions(RParts) == [2, 4, 6, 8, 10, 12, 14, 16, 18]
    ensures TermsThere(RParts, TermPositions(RParts))
    ensures TermsAt(RParts, TermPositions(RParts))
         == [Monomial(3.0, 4), Monomial(1.0, 3), Monomial(4.0, 2), Monomial(12.0, 3), Monomial(4.0, 2),
             Monomial(16.0, 1), Monomial(3.0, 2), Monomial(1.0, 1), Monomial(4.0, 0)]
  {
  }

  /** The terms of C are the products of the pairs of terms of P and F, in the order the
      nested loops visit them. */
  lemma SceneProducts()
    ensures TermsThere(P1Parts, TermPositions(P1Parts)) && TermsThere(P2Parts, TermPositions(P2Parts))
    ensures TermsThere(RParts, TermPositions(RParts))
    ensures TermsAt(RParts, TermPositions(RParts))
         == Products(RowMajorPairs(TermsAt(P1Parts, TermPositions(P1Parts)), TermsAt(P2Parts, TermPositions(P2Parts))))
  {
    SceneTerms();
    var p := [Monomial(1.0, 2), Monomial(4.0, 1), Monomial(1.0, 0)];
    var f := [Monomial(3.0, 2), Monomial(1.0, 1), Monomial(4.0, 0)];
    var pairs := RowMajorPairs(p, f);
    assert |Products(pairs)| == 9 by {
      RowMajorPairsLength(p, f);
      ProductsLength(pairs);
    }
    assert Products(pairs)[0] == Monomial(3.0, 4) by {
      RowMajorPairsIndex(p, f, 0, 0, 0);
      ProductsAt(pairs, 0);
    }
    assert Products(pairs)[1] == Monomial(1.0, 3) by {
      RowMajorPairsIndex(p, f, 0, 1, 1);
      ProductsAt(pairs, 1);
    }
    assert Products(pairs)[2] == Monomial(4.0, 2) by {
      RowMajorPairsIndex(p, f, 0, 2, 2);
      ProductsAt(pairs, 2);
    }
    assert Products(pairs)[3] == Monomial(12.0, 3) by {
      RowMajorPairsIndex(p, f, 1, 0, 3);
      ProductsAt(pairs, 3);
    }
    assert Products(pairs)[4] == Monomial(4.0, 2) by {
      RowMajorPairsIndex(p, f, 1, 1, 4);
      ProductsAt(pairs, 4);
    }
    assert Products(pairs)[5] == Monomial(16.0, 1) by {
      RowMajorPairsIndex(p, f, 1, 2, 5);
      ProductsAt(pairs, 5);
    }
    assert Products(pairs)[6] == Monomial(3.0, 2) by {
      RowMajorPairsIndex(p, f, 2, 0, 6);
      ProductsAt(pairs, 6);
    }
    assert Products(pairs)[7] == Monomial(1.0, 1) by {
      RowMajorPairsIndex(p, f, 2, 1, 7);
      ProductsAt(pairs, 7);
    }
    assert Products(pairs)[8] == Monomial(4.0, 0) by {
      RowMajorPairsIndex(p, f, 2, 2, 8);
      ProductsAt(pairs, 8);
    }
  }

  /** Every transfer of the scene moves a term of P and a term of F onto their product
      in C. */
  lemma SceneTransfersMultiply()
    ensures var tr := Transfers(RowMajorPairs(TermPositions(P1Parts), TermPositions(P2Parts)),
                                TermPositions(RParts));
            |tr| == 9 &&
            forall k :: 0 <= k < 9 ==>
              tr[k].0 < |P1Parts| && tr[k].1 < |P2Parts| && tr[k].2 < |RParts| &&
              P1Parts[tr[k].0].Term? && P2Parts[tr[k].1].Term? &&
              RParts[tr[k].2] == Term(Times(P1Parts[tr[k].0].m, P2Parts[tr[k].1].m))
  {
    SceneProducts();
    FactorPositions();
    ProductPositions();
    var ps, out := TermPositions(P1Parts), TermPositions(RParts);
    var tr := Transfers(RowMajorPairs(ps, ps), out);
    forall k | 0 <= k < 9
      ensures k < |tr| && tr[k].0 < |P1Parts| && tr[k].1 < |P2Parts| && tr[k].2 < |RParts| &&
              P1Parts[tr[k].0].Term? && P2Parts[tr[k].1].Term? &&
              RParts[tr[k].2] == Term(Times(P1Parts[tr[k].0].m, P2Parts[tr[k].1].m))
    {
      assert k == (k / 3) * 3 + k % 3;
      TransfersAt(ps, ps, out, k / 3, k % 3, k);
      PairLandsOnProduct(P1Parts, P2Parts, RParts, ps, ps, out, k / 3, k % 3, k);
    }
    TransfersAt(ps, ps, out, 0, 0, 0);
  }

  /** Gathered by degree, the terms of C give r_s = 3x^4 + 13x^3 + 11x^2 + 17x + 4. */
  lemma CollectProductTerms()
    ensures TermsThere(RParts, TermPositions(RParts))
    ensures DegreesBelow(TermsAt(RParts, TermPositions(RParts)), 5)
    ensures Collect(TermsAt(RParts, TermPositions(RParts)), 5) == RsCoefficients
  {
    SceneTerms();
    var c := TermsAt(RParts, TermPositions(RParts));
    CollectTail(c);
    CollectMiddle(c);
    CollectHead(c);
  }

  /** The fourth and third terms of C: 12x^3 and 4x^2. */
  lemma CollectMiddle(c: seq<Monomial>)
    requires c == [Monomial(3.0, 4), Monomial(1.0, 3), Monomial(4.0, 2), Monomial(12.0, 3), Monomial(4.0, 2),
                   Monomial(16.0, 1), Monomial(3.0, 2), Monomial(1.0, 1), Monomial(4.0, 0)]
    requires Collect(c[4..], 5) == [4.0, 17.0, 7.0, 0.0, 0.0]
    ensures Collect(c[2..], 5) == [4.0, 17.0, 11.0, 12.0, 0.0]
  {
    CollectStep(c, 3, 5);
    assert Collect(c[3..], 5) == [4.0, 17.0, 7.0, 12.0, 0.0];
    CollectStep(c, 2, 5);
  }

  /** The first two terms of C: 3x^4 + x^3, on top of the other seven. */
  lemma CollectHead(c: seq<Monomial>)
    requires c == [Monomial(3.0, 4), Monomial(1.0, 3), Monomial(4.0, 2), Monomial(12.0, 3), Monomial(4.0, 2),
                   Monomial(16.0, 1), Monomial(3.0, 2), Monomial(1.0, 1), Monomial(4.0, 0)]
    requires Collect(c[2..], 5) == [4.0, 17.0, 11.0, 12.0, 0.0]
    ensures DegreesBelow(c, 5) && Collect(c, 5) == RsCoefficients
  {
    CollectStep(c, 1, 5);
    assert Collect(c[1..], 5) == [4.0, 17.0, 11.0, 13.0, 0.0];
    CollectStep(c, 0, 5);
    assert c == c[0..];
  }

  /** The last five terms of C: 4x^2 + 16x + 3x^2 + x + 4. */
  lemma CollectTail(c: seq<Monomial>)
    requires c == [Monomial(3.0, 4), Monomial(1.0, 3), Monomial(4.0, 2), Monomial(12.0, 3), Monomial(4.0, 2),
                   Monomial(16.0, 1), Monomial(3.0, 2), Monomial(1.0, 1), Monomial(4.0, 0)]
    ensures Collect(c[4..], 5) == [4.0, 17.0, 7.0, 0.0, 0.0]
  {
    assert Collect(c[9..], 5) == [0.0, 0.0, 0.0, 0.0, 0.0];
    CollectStep(c, 8, 5);
    assert Collect(c[8..], 5) == [4.0, 0.0, 0.0, 0.0, 0.0];
    CollectStep(c, 7, 5);
    assert Collect(c[7..], 5) == [4.0, 1.0, 0.0, 0.0, 0.0];
    CollectStep(c, 6, 5);
    assert Collect(c[6..], 5) == [4.0, 1.0, 3.0, 0.0, 0.0];
    CollectStep(c, 5, 5);
    assert Collect(c[5..], 5) == [4.0, 17.0, 3.0, 0.0, 0.0];
    CollectStep(c, 4, 5);
  }

  /** Gathered by degree, the terms of P give [1, 4, 1] and those of F give [4, 1, 3]. */
  lemma CollectFactorTerms()
    ensures TermsThere(P1Parts, TermPositions(P1Parts)) && TermsThere(P2Parts, TermPositions(P2Parts))
    ensures DegreesBelow(TermsAt(P1Parts, TermPositions(P1Parts)), 3)
    ensures Collect(TermsAt(P1Parts, TermPositions(P1Parts)), 3) == [1.0, 4.0, 1.0]
    ensures DegreesBelow(TermsAt(P2Parts, TermPositions(P2Parts)), 3)
    ensures Collect(TermsAt(P2Parts, TermPositions(P2Parts)), 3) == [4.0, 1.0, 3.0]
  {
    SceneTerms();
    var p := TermsAt(P1Parts, TermPositions(P1Parts));
    assert Collect(p[3..], 3) == [0.0, 0.0, 0.0];
    assert Collect(p[2..], 3) == [1.0, 0.0, 0.0] by {
      CollectStep(p, 2, 3);
    }
    assert Collect(p[1..], 3) == [1.0, 4.0, 0.0] by {
      CollectStep(p, 1, 3);
    }
    CollectStep(p, 0, 3);
    assert p == p[0..];
    var f := TermsAt(P2Parts, TermPositions(P2Parts));
    assert Collect(f[3..], 3) == [0.0, 0.0, 0.0];
    assert Collect(f[2..], 3) == [4.0, 0.0, 0.0] by {
      CollectStep(f, 2, 3);
    }
    assert Collect(f[1..], 3) == [4.0, 1.0, 0.0] by {
      CollectStep(f, 1, 3);
    }
    CollectStep(f, 0, 3);
    assert f == f[0..];
  }

  /** Multiplying the terms of P by the terms of F pair by pair, in the order of the nested
      loops, and gathering the products by degree gives r_s = [4, 17, 11, 13, 3]. */
  lemma SceneProductCoefficients()
    ensures TermsThere(P1Parts, TermPositions(P1Parts)) && TermsThere(P2Parts, TermPositions(P2Parts))
    ensures Collect(Products(RowMajorPairs(TermsAt(P1Parts, TermPositions(P1Parts)),
                                           TermsAt(P2Parts, TermPositions(P2Parts)))), 5)
         == RsCoefficients
  {
    SceneProducts();
    CollectProductTerms();
  }

  /** The pointwise-product fact: at every x, C(x) = P(x) * F(x) for the coefficient
      lists [4, 17, 11, 13, 3], [1, 4, 1] and [4, 1, 3]. */
  lemma ProductEvaluates(x: real)
    ensures PolySum(x, RsCoefficients) == PolySum(x, [1.0, 4.0, 1.0]) * PolySum(x, [4.0, 1.0, 3.0])
  {
    SceneProducts();
    CollectProductTerms();
    CollectFactorTerms();
    var ts, us := TermsAt(P1Parts, TermPositions(P1Parts)), TermsAt(P2Parts, TermPositions(P2Parts));
    CollectValue(x, TermsAt(RParts, TermPositions(RParts)), 5);
    CollectValue(x, ts, 3);
    CollectValue(x, us, 3);
    ProductsValue(x, ts, us);
  }
}
