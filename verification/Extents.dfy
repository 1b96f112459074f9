/** The extents of the tensors a network produces, layer by layer, in terms of window positions and equal parts. */
module Extents {
  import opened Darknet

  /** n windows of `size`, `stride` apart, fit into d and one more does not. */
  predicate Fit(n: nat, d: int, size: nat, stride: nat) {
    stride > 0 && n >= 1 && (n - 1) * stride + size <= d < n * stride + size
  }

  lemma SlideExact(d: nat, size: nat, stride: nat, p: int, n: nat)
    ensures Slide(d, size, stride, p) == Ok(n) <==> Fit(n, d + 2 * p, size, stride)
  {
    if stride > 0 && d + 2 * p >= size {
      Quotient(d + 2 * p - size, stride, n);
    } else if stride > 0 && n >= 1 {
      NonNegative(n - 1, stride);
    }
  }

  lemma NonNegative(a: nat, b: nat)
    ensures a * b >= 0
  {
  }

  lemma Quotient(x: nat, stride: nat, n: nat)
    requires stride > 0
    ensures x / stride + 1 == n <==> n >= 1 && (n - 1) * stride <= x < n * stride
  {
    var q := x / stride;
    assert q * stride <= x < (q + 1) * stride;
    if n >= 1 && (n - 1) * stride <= x < n * stride {
      if q < n - 1 { Steps(q + 1, n - 1, stride); }
      if q > n - 1 { Steps(n, q, stride); }
    }
  }

  lemma Steps(a: nat, b: nat, k: nat)
    requires a <= b
    ensures a * k <= b * k
  {
  }

  /** Half the kernel, rounded down, on both sides when padding is asked for. */
  predicate IsPadding(p: int, size: nat, pad: bool) { if pad then 2 * p + 1 == size || 2 * p + 2 == size else p == 0 }

  /** A convolution block runs on tensors of the channels it was built for, and what it puts out. */
  lemma ConvolutionExact(filters: nat, size: nat, stride: nat, pad: bool, bn: bool, chans: seq<nat>, x: Shape,
                         outs: seq<Shape>, p: int)
    requires chans != [] && size >= 1 && IsPadding(p, size, pad)
    ensures var built := BuildBlock(Convolutional(filters, size, stride, pad, bn), chans);
            && built.Ok? && built.value.1 == filters
            && (forall y :: RunLayer(built.value.0, x, outs) == Ok(y) <==>
                  && x.c == chans[|chans| - 1] && y.c == filters
                  && Fit(y.h, x.h + 2 * p, size, stride) && Fit(y.w, x.w + 2 * p, size, stride))
  {
    var l := Conv(chans[|chans| - 1], filters, size, stride, p, bn);
    assert BuildBlock(Convolutional(filters, size, stride, pad, bn), chans).value.0 == l;
    forall y ensures RunLayer(l, x, outs) == Ok(y) <==>
      && x.c == chans[|chans| - 1] && y.c == filters
      && Fit(y.h, x.h + 2 * p, size, stride) && Fit(y.w, x.w + 2 * p, size, stride)
    {
      SlidExact(filters, x, size, stride, p, y);
    }
  }

  lemma SlidExact(c: nat, x: Shape, size: nat, stride: nat, p: int, y: Shape)
    ensures Slid(c, x, size, stride, p) == Ok(y) <==>
            y.c == c && Fit(y.h, x.h + 2 * p, size, stride) && Fit(y.w, x.w + 2 * p, size, stride)
  {
    SlideExact(x.h, size, stride, p, y.h);
    SlideExact(x.w, size, stride, p, y.w);
  }

  /** With an odd kernel and no stride, padding keeps the extents. */
  lemma SamePadding(filters: nat, size: nat, bn: bool, chans: seq<nat>, x: Shape, outs: seq<Shape>)
    requires chans != [] && size % 2 == 1 && x.c == chans[|chans| - 1] && x.h >= 1 && x.w >= 1
    ensures var l := BuildBlock(Convolutional(filters, size, 1, true, bn), chans).value.0;
            RunLayer(l, x, outs) == Ok(Shape(filters, x.h, x.w))
  {
    ConvolutionExact(filters, size, 1, true, bn, chans, x, outs, (size - 1) / 2);
  }

  lemma MaxPoolExact(size: nat, stride: nat, chans: seq<nat>, x: Shape, outs: seq<Shape>)
    requires chans != []
    ensures var built := BuildBlock(MaxPool(size, stride), chans);
            && built.Ok? && built.value.1 == chans[|chans| - 1]
            && forall y :: RunLayer(built.value.0, x, outs) == Ok(y) <==>
                 y.c == x.c && Fit(y.h, x.h, size, stride) && Fit(y.w, x.w, size, stride)
  {
    forall y { SlidExact(x.c, x, size, stride, 0, y); }
  }

  /** A reorg block splits both extents into equal parts. */
  lemma ReorgExact(s: nat, chans: seq<nat>, x: Shape, outs: seq<Shape>)
    requires chans != []
    ensures var built := BuildBlock(Reorg3d(s), chans);
            && built.Ok? && built.value.1 == chans[|chans| - 1] * s * s
            && forall y :: RunLayer(built.value.0, x, outs) == Ok(y) <==>
                 s > 0 && y.h * s == x.h && y.w * s == x.w && y.c == x.c * s * s
  {
    forall y: Shape ensures RunLayer(Reorg(s), x, outs) == Ok(y) <==>
      s > 0 && y.h * s == x.h && y.w * s == x.w && y.c == x.c * s * s
    {
      if s > 0 {
        Exact(x.h, s, y.h);
        Exact(x.w, s, y.w);
      }
    }
  }

  lemma Exact(d: nat, s: nat, q: nat)
    requires s > 0
    ensures q * s == d <==> d % s == 0 && d / s == q
  {
    assert d == d / s * s + d % s;
    if q * s == d {
      if q < d / s { Steps(q + 1, d / s, s); }
      if d / s < q { Steps(d / s + 1, q, s); }
    }
  }

  /** Where a route reference points, counted from the end when negative. */
  ghost predicate InRange(outs: seq<Shape>, refs: seq<int>) { forall r :: r in refs ==> -|outs| <= r < |outs| }

  function Named(outs: seq<Shape>, r: int): Shape {
    if 0 <= r < |outs| then outs[r] else if -|outs| <= r < 0 then outs[|outs| + r] else Shape(0, 0, 0)
  }

  function ChannelsOf(outs: seq<Shape>, refs: seq<int>): nat {
    if refs == [] then 0 else ChannelsOf(outs, refs[..|refs| - 1]) + Named(outs, refs[|refs| - 1]).c
  }

  ghost predicate SameExtents(outs: seq<Shape>, refs: seq<int>, y: Shape) {
    forall r :: r in refs ==> Named(outs, r).h == y.h && Named(outs, r).w == y.w
  }

  /** A route runs exactly when the outputs it names have the same extents, which it keeps. */
  lemma {:induction false} RouteExact(outs: seq<Shape>, refs: seq<int>, x: Shape, y: Shape)
    requires refs != [] && InRange(outs, refs)
    ensures RunLayer(Routed(refs), x, outs) == Ok(y) <==> y.c == ChannelsOf(outs, refs) && SameExtents(outs, refs, y)
  {
    var n := |refs| - 1;
    var before, last := refs[..n], refs[n];
    assert refs == before + [last];
    assert forall r :: r in refs <==> r in before || r == last;
    if n == 0 {
      assert before == [];
    } else {
      var part := Named(outs, last);
      RouteExact(outs, before, x, Shape(ChannelsOf(outs, before), part.h, part.w));
      if Cat(outs, before).Ok? {
        RouteExact(outs, before, x, Cat(outs, before).value);
        assert before[0] in before;
      }
    }
  }
}
