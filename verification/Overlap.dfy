/** What the overlap of two boxes is, in terms of the points they cover. */
module Overlap {
  import opened Arithmetic
  import opened Nms

  /** A box covers the points from its upper left corner up to, but without, its right and lower edges. */
  predicate Covers(a: Det, x: real, y: real) { a.x1 <= x < a.x2 && a.y1 <= y < a.y2 }

  ghost predicate Apart(a: Det, b: Det) { forall x, y :: !(Covers(a, x, y) && Covers(b, x, y)) }

  /** c covers exactly what both boxes cover. */
  ghost predicate IsCommon(c: Det, a: Det, b: Det) {
    forall x, y :: Covers(c, x, y) <==> Covers(a, x, y) && Covers(b, x, y)
  }

  predicate Positive(a: Det) { a.x1 < a.x2 && a.y1 < a.y2 }

  function Size(a: Det): real { (a.x2 - a.x1) * (a.y2 - a.y1) }

  // ---- Cutting a box around another ----------------------------------------------------------------

  function Left(a: Det, c: Det): Det { Det(a.x1, a.y1, c.x1, a.y2, 0.0) }
  function Right(a: Det, c: Det): Det { Det(c.x2, a.y1, a.x2, a.y2, 0.0) }
  function Above(a: Det, c: Det): Det { Det(c.x1, a.y1, c.x2, c.y1, 0.0) }
  function Below(a: Det, c: Det): Det { Det(c.x1, c.y2, c.x2, a.y2, 0.0) }

  /** The size of the four strips of a around c. */
  function SizeAround(a: Det, c: Det): real {
    Size(Left(a, c)) + Size(Right(a, c)) + Size(Above(a, c)) + Size(Below(a, c))
  }

  function Times(a: Det, x: real, y: real): nat { if Covers(a, x, y) then 1 else 0 }

  /** How many of the four strips cover a point. */
  function TimesAround(a: Det, c: Det, x: real, y: real): nat {
    Times(Left(a, c), x, y) + Times(Right(a, c), x, y) + Times(Above(a, c), x, y) + Times(Below(a, c), x, y)
  }

  predicate Within(c: Det, a: Det) { a.x1 <= c.x1 <= c.x2 <= a.x2 && a.y1 <= c.y1 <= c.y2 <= a.y2 }

  lemma CommonCorners(c: Det, a: Det, b: Det)
    requires Positive(c) && IsCommon(c, a, b)
    ensures c.x1 == MaxR(a.x1, b.x1) && c.y1 == MaxR(a.y1, b.y1) && c.x2 == MinR(a.x2, b.x2) && c.y2 == MinR(a.y2, b.y2)
    ensures Within(c, a) && Within(c, b)
  {
    assert Covers(c, c.x1, c.y1);
    var x1, y1, x2, y2 := MaxR(a.x1, b.x1), MaxR(a.y1, b.y1), MinR(a.x2, b.x2), MinR(a.y2, b.y2);
    assert Covers(a, x1, c.y1) && Covers(b, x1, c.y1);
    assert Covers(a, c.x1, y1) && Covers(b, c.x1, y1);
    assert c.x2 < x2 ==> Covers(a, c.x2, c.y1) && Covers(b, c.x2, c.y1) && !Covers(c, c.x2, c.y1);
    assert c.y2 < y2 ==> Covers(a, c.x1, c.y2) && Covers(b, c.x1, c.y2) && !Covers(c, c.x1, c.y2);
    assert x2 < c.x2 ==> Covers(c, MaxR(x2, c.x1), c.y1);
    assert y2 < c.y2 ==> Covers(c, c.x1, MaxR(y2, c.y1));
  }

  lemma StripsTile(a: Det, c: Det, x: real, y: real)
    requires Positive(c) && Within(c, a)
    ensures TimesAround(a, c, x, y) == if Covers(a, x, y) && !Covers(c, x, y) then 1 else 0
  {
    StripsApart(a, c, x, y);
  }

  lemma StripsApart(a: Det, c: Det, x: real, y: real)
    requires Positive(c) && Within(c, a)
    ensures Covers(Left(a, c), x, y) <==> Covers(a, x, y) && x < c.x1
    ensures Covers(Right(a, c), x, y) <==> Covers(a, x, y) && x >= c.x2
    ensures Covers(Above(a, c), x, y) <==> Covers(a, x, y) && c.x1 <= x < c.x2 && y < c.y1
    ensures Covers(Below(a, c), x, y) <==> Covers(a, x, y) && c.x1 <= x < c.x2 && y >= c.y2
  {
  }

  /** The common part and the strips of both boxes around it cut up what the boxes cover, without gap or overlap. */
  lemma PiecesTile(a: Det, b: Det, c: Det, x: real, y: real)
    requires Positive(c) && IsCommon(c, a, b)
    ensures Times(c, x, y) + TimesAround(a, c, x, y) + TimesAround(b, c, x, y) ==
            if Covers(a, x, y) || Covers(b, x, y) then 1 else 0
  {
    CommonCorners(c, a, b);
    StripsTile(a, c, x, y);
    StripsTile(b, c, x, y);
  }

  // ---- The overlap ----------------------------------------------------------------------------------

  lemma SizeSplits(a: Det, c: Det)
    ensures SizeAround(a, c) == Size(a) - Size(c)
  {
    Slices(a.x1, c.x1, c.x2, a.x2, a.y2 - a.y1);
    Slices(a.y1, c.y1, c.y2, a.y2, c.x2 - c.x1);
  }

  lemma Slices(p: real, q: real, r: real, s: real, k: real)
    ensures (s - p) * k == (q - p) * k + (r - q) * k + (s - r) * k
  {
  }

  /** Main result: boxes that share a point overlap by the size of their common part over the size of what the two
      cover together, taken piece by piece. */
  lemma IouIsShare(a: Det, b: Det, c: Det)
    requires Positive(c) && IsCommon(c, a, b)
    ensures var covered := Size(c) + SizeAround(a, c) + SizeAround(b, c);
            covered > 0.0 && Iou(a, b) == Size(c) / covered && Inter(a, b) == Size(c) && Union(a, b) == covered
  {
    CommonCorners(c, a, b);
    SizeSplits(a, c);
    SizeSplits(b, c);
    Grows(c, a);
    assert Inter(a, b) == Size(c);
    assert Union(a, b) == Size(a) + Size(b) - Size(c);
    assert Size(b) >= Size(c) by { Grows(c, b); }
  }

  lemma Grows(c: Det, a: Det)
    requires Positive(c) && Within(c, a)
    ensures 0.0 < Size(c) <= Size(a)
  {
    Product(c.x2 - c.x1, c.y2 - c.y1, a.x2 - a.x1, a.y2 - a.y1);
    assert (c.x2 - c.x1) * (c.y2 - c.y1) > 0.0;
  }

  /** Boxes without a common point do not overlap at all, and boxes with one do. */
  lemma IouZeroExactly(a: Det, b: Det)
    requires Proper(a) && Proper(b)
    ensures Iou(a, b) == 0.0 <==> Apart(a, b)
  {
    var c := Det(MaxR(a.x1, b.x1), MaxR(a.y1, b.y1), MinR(a.x2, b.x2), MinR(a.y2, b.y2), 0.0);
    if Positive(c) {
      assert Covers(a, c.x1, c.y1) && Covers(b, c.x1, c.y1);
      assert IsCommon(c, a, b);
      Share(a, b, c);
    } else {
      assert Inter(a, b) == 0.0;
    }
  }

  lemma Share(a: Det, b: Det, c: Det)
    requires Positive(c) && IsCommon(c, a, b)
    ensures 0.0 < Iou(a, b) <= 1.0
  {
    IouIsShare(a, b, c);
    CommonCorners(c, a, b);
    SizeSplits(a, c);
    SizeSplits(b, c);
    Grows(c, a);
    Grows(c, b);
    Ratio(Size(c), Size(c) + SizeAround(a, c) + SizeAround(b, c));
  }

  lemma Ratio(p: real, q: real)
    requires 0.0 < p <= q
    ensures 0.0 < p / q <= 1.0
  {
    var r := p / q;
    assert r * q == p;
    assert r <= 0.0 ==> r * q <= 0.0;
    assert r > 1.0 ==> (r - 1.0) * q > 0.0;
  }

  /** A box within another overlaps it by the ratio of their sizes. */
  lemma IouContained(a: Det, b: Det)
    requires Positive(b) && Within(b, a)
    ensures Size(a) > 0.0 && Iou(a, b) == Size(b) / Size(a) && Iou(b, a) == Size(b) / Size(a)
  {
    Grows(b, a);
    assert IsCommon(b, a, b) && IsCommon(b, b, a);
    IouIsShare(a, b, b);
    IouIsShare(b, a, b);
    SizeSplits(a, b);
    SizeSplits(b, b);
  }

  lemma IouSelf(a: Det)
    requires Positive(a)
    ensures Iou(a, a) == 1.0
  {
    IouContained(a, a);
    Grows(a, a);
  }
}
