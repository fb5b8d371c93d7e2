/** clipPlot: a graph drawn as a group of short segments, one per start point of
    np.arange(start, stop, step), where each segment that reaches above or below the axes
    is made fully transparent. The plotting call itself is a parameter. */
module ClipPlot {

  datatype Option<T> = None | Some(value: T)

  /** The smallest integer at or above q. */
  function Ceil(q: real): (c: int)
    ensures c as real - 1.0 < q <= c as real
  {
    -((-q).Floor)
  }

  /** The k-th value of np.arange(start, _, step). */
  function ArangeAt(start: real, step: real, k: nat): real
  {
    start + k as real * step
  }

  /** x has not yet reached stop, going in the direction of step. */
  predicate Before(x: real, stop: real, step: real)
  {
    if step > 0.0 then x < stop else x > stop
  }

  /** The number of values np.arange(start, stop, step) yields: ceil((stop - start) / step),
      or none when that is not positive. */
  function ArangeLength(start: real, stop: real, step: real): nat
    requires step != 0.0
  {
    var n := Ceil((stop - start) / step);
    if n > 0 then n else 0
  }

  /** np.arange(start, stop, step): start, start + step, start + 2 * step, ... for as long
      as the value lies before stop; numpy refuses a zero step, modelled as None. */
  function Arange(start: real, stop: real, step: real): (r: Option<seq<real>>)
    ensures r.None? <==> step == 0.0
    ensures r.Some? ==> forall k :: 0 <= k < |r.value| ==>
              r.value[k] == start + k as real * step && Before(r.value[k], stop, step)
    ensures r.Some? ==> !Before(start + |r.value| as real * step, stop, step)
  {
    if step == 0.0 then None
    else
      var n := ArangeLength(start, stop, step);
      ArangeBounds(start, stop, step);
      Some(seq(n, k requires 0 <= k => ArangeAt(start, step, k)))
  }

  /** Every value below the length lies before stop, the value at the length does not. */
  lemma ArangeBounds(start: real, stop: real, step: real)
    requires step != 0.0
    ensures forall k: nat :: k < ArangeLength(start, stop, step) ==> Before(ArangeAt(start, step, k), stop, step)
    ensures !Before(ArangeAt(start, step, ArangeLength(start, stop, step)), stop, step)
  {
    var q := (stop - start) / step;
    var n := ArangeLength(start, stop, step);
    DivScaled(stop - start, step);
    forall k: nat | k < n
      ensures Before(ArangeAt(start, step, k), stop, step)
    {
      StepBefore(start, stop, step, q, k as real);
    }
    StepNotBefore(start, stop, step, q, n as real);
  }

  /** Dividing by step and multiplying back gives the value again. Only an arithmetic
      step of ArangeBounds, kept apart so that the solver's nonlinear reasoning stays stable. */
  lemma DivScaled(a: real, step: real)
    requires step != 0.0
    ensures (a / step) * step == a
  {
  }

  /** A start point fewer than q steps from start, where q steps reach stop exactly,
      lies before stop. */
  lemma StepBefore(start: real, stop: real, step: real, q: real, a: real)
    requires step != 0.0 && q * step == stop - start && a < q
    ensures Before(start + a * step, stop, step)
  {
    ScaleStrict(a, q, step);
  }

  /** A start point at least q steps from start does not lie before stop. */
  lemma StepNotBefore(start: real, stop: real, step: real, q: real, a: real)
    requires step != 0.0 && q * step == stop - start && q <= a
    ensures !Before(start + a * step, stop, step)
  {
    ScaleWeak(q, a, step);
  }

  /** Multiplying by step keeps a strict order when step is positive and reverses it
      when step is negative. Only an arithmetic step of StepBefore, kept apart so that the
      solver's nonlinear reasoning stays stable. */
  lemma ScaleStrict(a: real, b: real, step: real)
    requires a < b && step != 0.0
    ensures if step > 0.0 then a * step < b * step else a * step > b * step
  {
  }

  /** The same for a weak order; only an arithmetic step of StepNotBefore. */
  lemma ScaleWeak(a: real, b: real, step: real)
    requires a <= b && step != 0.0
    ensures if step > 0.0 then a * step <= b * step else a * step >= b * step
  {
  }

  /** The axes' vertical extent: csystem.get_top()[1] and csystem.get_bottom()[1]. */
  datatype Bounds = Bounds(top: real, bottom: real)

  /** What csystem.plot returns, as far as clipPlot looks at it: the y of its top and
      bottom, and its opacity. */
  datatype Snip = Snip(top: real, bottom: real, opacity: real)

  /** One element of the group: the x_range [xMin, xMax, sampleStep] passed to plot, and
      the snip it gave, possibly made transparent. */
  datatype Segment = Segment(xMin: real, xMax: real, sampleStep: real, snip: Snip)

  /** The snip reaches above the top of the axes or below their bottom. */
  predicate Escapes(axes: Bounds, s: Snip)
  {
    s.top > axes.top || s.bottom < axes.bottom
  }

  /** The segment that clipPlot adds for the start point x: plot from x to x + step,
      sampled every step / 2, hidden when it escapes the axes. */
  function SegmentAt(axes: Bounds, plot: (real, real, real) -> Snip, x: real, step: real): Segment
  {
    var s := plot(x, x + step, 0.5 * step);
    Segment(x, x + step, 0.5 * step, if Escapes(axes, s) then s.(opacity := 0.0) else s)
  }

  /** clipPlot(csystem, plotfun, x_range=[start, stop, step]): None where np.arange
      refuses the range; otherwise one segment per start point, in order. */
  method ClipPlot(axes: Bounds, plot: (real, real, real) -> Snip, start: real, stop: real, step: real)
      returns (grp: Option<seq<Segment>>)
    ensures grp.None? <==> step == 0.0
    ensures grp.Some? ==> (Arange(start, stop, step).Some? &&
                           |grp.value| == |Arange(start, stop, step).value|)
    ensures grp.Some? ==> forall k :: 0 <= k < |grp.value| ==>
              grp.value[k] == SegmentAt(axes, plot, Arange(start, stop, step).value[k], step)
  {
    var xs := Arange(start, stop, step);
    if xs.None? {
      return None;
    }
    var segments: seq<Segment> := [];
    var dx := step;
    for i := 0 to |xs.value|
      invariant |segments| == i
      invariant forall k :: 0 <= k < i ==> segments[k] == SegmentAt(axes, plot, xs.value[k], step)
    {
      var xstart := xs.value[i];
      var snip := plot(xstart, xstart + dx, 0.5 * dx);
      if Escapes(axes, snip) {
        snip := snip.(opacity := 0.0);
      }
      segments := segments + [Segment(xstart, xstart + dx, 0.5 * dx, snip)];
    }
    return Some(segments);
  }

  /** A segment is made transparent exactly when its snip escapes the axes; a segment
      that stays inside keeps the snip as plotted. Either way it spans one step. */
  lemma SegmentHidden(axes: Bounds, plot: (real, real, real) -> Snip, x: real, step: real)
    ensures var seg := SegmentAt(axes, plot, x, step);
            var s := plot(x, x + step, 0.5 * step);
            seg.xMin == x && seg.xMax - seg.xMin == step && seg.sampleStep * 2.0 == step &&
            seg.snip.top == s.top && seg.snip.bottom == s.bottom &&
            (Escapes(axes, s) ==> seg.snip.opacity == 0.0) &&
            (!Escapes(axes, s) ==> seg.snip == s) &&
            (seg.snip.opacity != s.opacity ==> Escapes(axes, s))
  {
  }

  /** Consecutive start points lie one step apart, so each segment ends where the next one
      begins; with a positive step the start points increase. */
  lemma SegmentsMeet(start: real, stop: real, step: real, k: nat)
    requires Arange(start, stop, step).Some?
    requires k + 1 < |Arange(start, stop, step).value|
    ensures Arange(start, stop, step).value[k] + step == Arange(start, stop, step).value[k + 1]
    ensures step > 0.0 ==> Arange(start, stop, step).value[k] < Arange(start, stop, step).value[k + 1]
  {
    var xs := Arange(start, stop, step).value;
    assert xs[k + 1] == start + (k as real + 1.0) * step;
    assert (k as real + 1.0) * step == k as real * step + step;
  }

  /** With a positive step the segments cover the range: every x with start <= x < stop
      lies in the segment of some start point. */
  lemma ArangeCovers(start: real, stop: real, step: real, x: real)
    requires step > 0.0 && start <= x < stop
    ensures Arange(start, stop, step).Some?
    ensures exists k :: 0 <= k < |Arange(start, stop, step).value| &&
              Arange(start, stop, step).value[k] <= x < Arange(start, stop, step).value[k] + step
  {
    var n := ArangeLength(start, stop, step);
    ArangeBounds(start, stop, step);
    assert ArangeAt(start, step, 0) == start;
    assert x < ArangeAt(start, step, n);
    var k := FindSegment(start, step, x, 0, n);
    var xs := Arange(start, stop, step).value;
    assert |xs| == n && xs[k] == ArangeAt(start, step, k);
  }

  /** The next start point lies one step further on. */
  lemma ArangeNext(start: real, step: real, k: nat)
    ensures ArangeAt(start, step, k + 1) == ArangeAt(start, step, k) + step
  {
    assert (k as real + 1.0) * step == k as real * step + step;
  }

  /** Between two start points lo < hi with x in [value lo, value hi) there is a start
      point whose segment holds x. */
  lemma {:induction false} FindSegment(start: real, step: real, x: real, lo: nat, hi: nat) returns (k: nat)
    requires lo < hi && ArangeAt(start, step, lo) <= x < ArangeAt(start, step, hi)
    ensures lo <= k < hi && ArangeAt(start, step, k) <= x < ArangeAt(start, step, k) + step
    decreases hi - lo
  {
    ArangeNext(start, step, lo);
    if lo + 1 < hi && ArangeAt(start, step, lo + 1) <= x {
      k := FindSegment(start, step, x, lo + 1, hi);
    } else {
      k := lo;
    }
  }

  /** The graphs of the scene: [-5, 5, 0.1] gives 100 segments, [-2, 5, 0.1] gives 70 and
      [-3.8, -3.6, 0.001] gives 200. */
  lemma SceneSegmentCounts()
    ensures Arange(-5.0, 5.0, 0.1).Some? && |Arange(-5.0, 5.0, 0.1).value| == 100
    ensures Arange(-2.0, 5.0, 0.1).Some? && |Arange(-2.0, 5.0, 0.1).value| == 70
    ensures Arange(-3.8, -3.6, 0.001).Some? && |Arange(-3.8, -3.6, 0.001).value| == 200
  {
    assert (5.0 - -5.0) / 0.1 == 100.0;
    assert (5.0 - -2.0) / 0.1 == 70.0;
    assert (-3.6 - -3.8) / 0.001 == 200.0;
  }
}
