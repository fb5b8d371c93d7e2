# Polynomial multiplication animations: the numeric and list helpers

The blog post on FFT-style polynomial multiplication renders its animations with a
single manim script, `posts/fft/create_animations.py`. Almost all of that script
stages scenes. The rest is a small layer of logic that this project models in Dafny,
over exact `real` arithmetic, and proves things about:

- `evaluate_polynomial`: a loop that adds up `coeff * x ** i` over a coefficient list
  written from degree 0 upwards (module `Polynomials`).
- The index bookkeeping of the `MultiplyPolynomials` scene (modules `Terms` and
  `MultiplyPolynomials`):
  - the term positions `2, 4, 6, ...` of the typeset polynomials P, F and C;
  - the nested loops that build `combs`, the list of every pair of factor-term positions;
  - the `zip` that sends the k-th pair to the k-th term of the expanded product C;
  - gathering C's nine terms by degree into `3x^4 + 13x^3 + 11x^2 + 17x + 4`.
- The `MultiplyPolynomialsPointwise` scene (module `Pointwise`):
  - P, F and C sampled at five points;
  - the fact that C's samples are the products of P's and F's;
  - the lambdas that are plotted;
  - the filter that keeps only the points strictly inside the y range `(-8, 8)`.
- `clipPlot` (module `ClipPlot`):
  - cuts a graph into one short piece per start point of `np.arange(start, stop, step)`;
  - makes a piece fully transparent when it reaches above or below the axes;
  - the plotting call `csystem.plot` and the axes' extents are parameters.

Main results:

- `EvaluatePolynomial` computes the polynomial's value: the sum of `coeffs[i] * x^i`.
- `ProductEvaluates` gives, at every x, `C(x) = P(x) * F(x)` for the coefficient lists
  `[4, 17, 11, 13, 3]`, `[1, 4, 1]` and `[4, 1, 3]`. It is derived from the typeset terms
  of the scene:
  - C's nine terms are the products of the pairs of terms of P and F, in the order of the
    nested loops (`SceneProducts`); gathered by degree they give `[4, 17, 11, 13, 3]`
    (`SceneProductCoefficients`);
  - the products of all pairs sum to the product of the sums (`ProductsValue`);
  - gathering like terms keeps the value (`CollectValue`).
- Separately, `SceneTransfersMultiply` shows that the animation's transfers, built from
  `combs` and `out` by `zip`, move each pair of factor terms onto their product in C.
- `ClipPlot` returns one segment per `np.arange` value, in order. It sets a segment's
  opacity to 0 when the segment escapes the axes and leaves every other segment as
  plotted. The plot call's styling arguments are not modelled, so the plot call may
  itself return a transparent snip: a hidden segment need not have escaped.

## Model

| member | source | states |
|---|---|---|
| Polynomials.EvaluatePolynomial | posts/fft/create_animations.py:22-26 | the loop's result is the sum over every index i of coeffs[i] * x^i; an empty coefficient list gives 0 |
| Polynomials.PolySumAppend | posts/fft/create_animations.py:23-25 | appending one coefficient c adds exactly the term c * x^(old length), the accumulation step of the loop |
| Terms.TimesValue | posts/fft/create_animations.py:51 | the product of two terms (coefficients multiplied, degrees added) evaluates to the product of their values |
| Terms.CollectValue | posts/fft/create_animations.py:51-52 | gathering a list of terms by degree into a coefficient list keeps the polynomial's value at every x |
| Terms.CollectStep | posts/fft/create_animations.py:51-52 | gathering from position k on adds term k's coefficient to its degree, on top of what the later terms gather |
| MultiplyPolynomials.Range2 | posts/fft/create_animations.py:55-57 | range(start, stop, 2) holds start + 2k for each k, every value below stop, and stops at the first value that reaches stop |
| MultiplyPolynomials.Combinations | posts/fft/create_animations.py:59-62 | the nested loops build exactly the row-major pair list, the first list outer |
| MultiplyPolynomials.RowMajorPairsLength | posts/fft/create_animations.py:59-62 | the pair list has length \|xs\| * \|ys\| |
| MultiplyPolynomials.RowMajorPairsIndex | posts/fft/create_animations.py:59-62 | position i * \|ys\| + j holds (xs[i], ys[j]), so each pair of positions occurs exactly once |
| MultiplyPolynomials.RowMajorPairsMembers | posts/fft/create_animations.py:59-62 | a pair is in the list exactly when its first part is in xs and its second in ys |
| MultiplyPolynomials.Zip3 | posts/fft/create_animations.py:79-83 | zip of three lists has the length of the shortest and pairs up equal positions |
| MultiplyPolynomials.Transfers | posts/fft/create_animations.py:77-84 | the (t1, t2, o) triples take the k-th pair of combs to out[k]; when combs and out have equal length nothing is dropped |
| MultiplyPolynomials.TransfersAt | posts/fft/create_animations.py:70-85 | with as many output positions as pairs, transfer k = i * \|ys\| + j takes xs[i] and ys[j] to out[k] |
| MultiplyPolynomials.TermsAt | posts/fft/create_animations.py:48-51 | the monomials read off the listed positions of a typeset polynomial, one per position, in order |
| MultiplyPolynomials.SceneTerms | posts/fft/create_animations.py:48-51 | the term positions of P, F and C hold x^2, 4x, 1; 3x^2, x, 4; and the nine expanded terms of C |
| MultiplyPolynomials.SceneTransfers | posts/fft/create_animations.py:55-85 | the scene's nine transfers are (2,2,2), (2,4,4), ..., (6,6,18): term k div 3 of P and term k mod 3 of F go to the k-th term of C |
| MultiplyPolynomials.SceneProducts | posts/fft/create_animations.py:48-62 | the terms of C are the products of the pairs of terms of P and F, in the order of the nested loops |
| MultiplyPolynomials.PairLandsOnProduct | posts/fft/create_animations.py:70-85 | when C shows the pairwise products, output position i * \|ys\| + j shows the product of P's i-th term and F's j-th term |
| MultiplyPolynomials.SceneTransfersMultiply | posts/fft/create_animations.py:48-85 | each of the nine transfers moves a term of P and a term of F onto their product in C |
| MultiplyPolynomials.ProductsSum | posts/fft/create_animations.py:51 | for any valuation that respects products, the sum over the products of all pairs equals the product of the two sums |
| MultiplyPolynomials.ProductsValue | posts/fft/create_animations.py:51 | multiplying term by term: at every x the sum of all pairwise products equals the product of the two polynomials |
| MultiplyPolynomials.CollectProductTerms | posts/fft/create_animations.py:51-52 | C's nine terms gathered by degree give r_s, the coefficients [4, 17, 11, 13, 3] |
| MultiplyPolynomials.SceneProductCoefficients | posts/fft/create_animations.py:48-62 | multiplying P's terms by F's pair by pair in the order of the nested loops and gathering the products by degree gives r_s = [4, 17, 11, 13, 3] |
| MultiplyPolynomials.CollectFactorTerms | posts/fft/create_animations.py:48-49 | P's terms gather to [1, 4, 1] and F's to [4, 1, 3] |
| MultiplyPolynomials.ProductEvaluates | posts/fft/create_animations.py:113-115 | at every x the product list [4, 17, 11, 13, 3] evaluates to the product of the values of [1, 4, 1] and [4, 1, 3] |
| Pointwise.PointsMultiply | posts/fft/create_animations.py:113-115 | for any sample points, out_points keeps the x of each sample and its y is the product of the y values in p1_points and p2_points |
| Pointwise.FuncsAgree | posts/fft/create_animations.py:158-160 | p1_func, p2_func and out_func are the polynomials given by the coefficient lists used for the points |
| Pointwise.FuncsMultiply | posts/fft/create_animations.py:158-160 | out_func is the pointwise product of p1_func and p2_func |
| Pointwise.ScenePoints | posts/fft/create_animations.py:111-114 | the sampled values of P and F at -3.732, -2, -0.268, 0 and 0.5 |
| Pointwise.SceneProductPoints | posts/fft/create_animations.py:111-115 | the sampled values of C at the same five points |
| Pointwise.KeepVisibleMembers | posts/fft/create_animations.py:149-151 | the filter keeps a point exactly when it is in the list and -8 < y < 8 |
| Pointwise.KeepVisibleConcat | posts/fft/create_animations.py:149-151 | filtering a concatenation concatenates the filtered parts, so the original order is kept |
| Pointwise.KeepVisibleIdempotent | posts/fft/create_animations.py:149-151 | filtering twice gives what filtering once gives |
| Pointwise.KeepVisibleUnchanged | posts/fft/create_animations.py:149-151 | the filter leaves a list unchanged exactly when all of its points are visible |
| Pointwise.SceneVisibleP | posts/fft/create_animations.py:149-154 | all five points of P lie inside the axes' y range and are kept |
| Pointwise.SceneVisibleF | posts/fft/create_animations.py:149-154 | only F's last three points are kept: F(-3.732) and F(-2) lie above 8 |
| Pointwise.SceneVisibleC | posts/fft/create_animations.py:149-154 | C keeps its first, third and fourth points: C(-2) = -42 lies below -8 and C(0.5) = 17.0625 above 8 |
| ClipPlot.Arange | posts/fft/create_animations.py:33 | np.arange refuses step 0; otherwise its k-th value is start + k * step, every value lies before stop, and the next one would not |
| ClipPlot.ClipPlot | posts/fft/create_animations.py:30-43 | no group for step 0; otherwise one segment per arange value, in order, each the segment that value's plot gives |
| ClipPlot.SegmentHidden | posts/fft/create_animations.py:34-41 | a segment runs from x to x + step sampled every step / 2; its opacity is 0 when its snip escapes the axes, and it is the snip unchanged when it does not |
| ClipPlot.SegmentsMeet | posts/fft/create_animations.py:33-36 | consecutive start points lie one step apart, so each segment ends where the next begins, and they increase when step > 0 |
| ClipPlot.ArangeCovers | posts/fft/create_animations.py:33-36 | with a positive step, every x in [start, stop) lies in the segment of some start point |
| ClipPlot.SceneSegmentCounts | posts/fft/create_animations.py:162-165 | the scene's ranges give 100, 100, 70 and 200 segments |

## Left out

- Scene construction is not modelled: MathTex layout, Axes, Dot and Arrow geometry, animations, timing, colours and shifts. It is rendering done by the manim library.
- The `new_section` context manager and the `Scene.new_section` patch are not modelled; they only print and forward to a library call.
- `csystem.plot`, `get_top` and `get_bottom` are not modelled. The plot call is a function parameter returning the snip's top, bottom and opacity. The axes' top and bottom are a `Bounds` value.
- The styling keyword arguments passed through `**kwargs` are not modelled.
- `clipPlot`'s default `x_range=[-5, 5, .01]` is not modelled; callers always pass the range.
- ClipPlot.ClipPlot: the group and the snips are values, not mutable manim objects. `set_opacity(0)` becomes a copy with opacity 0, and `grp += snip` becomes appending to a sequence. Aliasing between snips is not captured.
- ClipPlot.Arange: numpy raises an error for step 0; the model returns `None` instead.
- ClipPlot.SceneSegmentCounts: the counts use exact arithmetic. Floating-point `np.arange` with steps such as 0.1 or 0.001 can round to one element more or fewer.
- Floating point is not modelled: all arithmetic uses exact reals. The decimal sample points such as -3.732 are taken as exact values.
- The `:.2f` formatting of the points into text is not modelled.
- Python's mixing of `int` and `float` in `evaluate_polynomial` is not modelled; everything is `real`.
- `script.js` (page event handling) and `main.tsx` (static site configuration) are not part of this model.
