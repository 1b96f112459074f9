/** Non-maximum suppression of face boxes: the C++ parser's and its Python twin. */
module Nms {
  import opened Ordering
  import opened Arithmetic
  import opened Greedy

  datatype Det = Det(x1: real, y1: real, x2: real, y2: real, score: real)

  const EPS: real := 0.000000001

  function Area(a: Det): real { (a.x2 - a.x1) * (a.y2 - a.y1) }

  function Inter(a: Det, b: Det): real {
    MaxR(0.0, MinR(a.x2, b.x2) - MaxR(a.x1, b.x1)) * MaxR(0.0, MinR(a.y2, b.y2) - MaxR(a.y1, b.y1))
  }

  function Union(a: Det, b: Det): real { Area(a) + Area(b) - Inter(a, b) }

  /** iou of the C++ parser: a non-positive union counts as no overlap. */
  function Iou(a: Det, b: Det): real {
    var ua := Union(a, b);
    if ua > 0.0 then Inter(a, b) / ua else 0.0
  }

  predicate CppOver(a: Det, b: Det, thresh: real) { Iou(a, b) > thresh }

  /** The Python form drops a box unless inter / (union + 1e-9) <= iou. A zero divisor gives an infinity or no
      number at all, neither of which is <= iou. */
  predicate PyOver(a: Det, b: Det, thresh: real) {
    var d := Union(a, b) + EPS;
    !(d != 0.0 && Inter(a, b) / d <= thresh)
  }

  /** Corners in order, as the detector head emits them. */
  predicate Proper(a: Det) { a.x1 <= a.x2 && a.y1 <= a.y2 }

  lemma Product(a: real, b: real, c: real, d: real)
    requires 0.0 <= a <= c && 0.0 <= b <= d
    ensures 0.0 <= a * b <= c * d
  {
    assert a * b <= c * b;
    assert c * b <= c * d;
  }

  lemma ProperUnion(a: Det, b: Det)
    requires Proper(a) && Proper(b)
    ensures 0.0 <= Inter(a, b) <= Area(a) && Inter(a, b) <= Area(b)
    ensures Inter(a, b) <= Union(a, b)
  {
    var w := MaxR(0.0, MinR(a.x2, b.x2) - MaxR(a.x1, b.x1));
    var h := MaxR(0.0, MinR(a.y2, b.y2) - MaxR(a.y1, b.y1));
    Product(w, h, a.x2 - a.x1, a.y2 - a.y1);
    Product(w, h, b.x2 - b.x1, b.y2 - b.y1);
  }

  lemma IouSymmetric(a: Det, b: Det)
    ensures Inter(a, b) == Inter(b, a) && Union(a, b) == Union(b, a)
    ensures Iou(a, b) == Iou(b, a)
  {
  }

  lemma DivAbove(x: real, u: real, t: real)
    requires u > 0.0
    ensures x / u > t <==> x > t * u
  {
    var q := x / u;
    assert q * u == x;
    if q > t { assert (q - t) * u > 0.0; } else { assert (t - q) * u >= 0.0; }
  }

  /** An intersection above thresh times the union but not above thresh times the padded union. */
  predicate InSliver(a: Det, b: Det, thresh: real) {
    thresh * Union(a, b) < Inter(a, b) <= thresh * (Union(a, b) + 0.000000001)
  }

  /** The two overlap tests differ exactly in the sliver the 1e-9 opens. */
  lemma OverlapTestsDiffer(a: Det, b: Det, thresh: real)
    requires Proper(a) && Proper(b) && thresh >= 0.0
    ensures PyOver(a, b, thresh) ==> CppOver(a, b, thresh)
    ensures CppOver(a, b, thresh) != PyOver(a, b, thresh) <==> InSliver(a, b, thresh)
  {
    PyOverProper(a, b, thresh);
    CppOverProper(a, b, thresh);
    Padded(Union(a, b), thresh);
  }

  lemma PyOverProper(a: Det, b: Det, thresh: real)
    requires Proper(a) && Proper(b)
    ensures PyOver(a, b, thresh) <==> Inter(a, b) > thresh * (Union(a, b) + EPS)
  {
    ProperUnion(a, b);
    DivAbove(Inter(a, b), Union(a, b) + EPS, thresh);
  }

  lemma CppOverProper(a: Det, b: Det, thresh: real)
    requires Proper(a) && Proper(b) && thresh >= 0.0
    ensures CppOver(a, b, thresh) <==> Inter(a, b) > thresh * Union(a, b)
  {
    ProperUnion(a, b);
    if Union(a, b) > 0.0 { DivAbove(Inter(a, b), Union(a, b), thresh); }
  }

  lemma Padded(u: real, thresh: real)
    requires thresh >= 0.0
    ensures thresh * (u + EPS) >= thresh * u
  {
    assert thresh * (u + EPS) == thresh * u + thresh * EPS;
  }

  /** Two boxes on which they do differ. */
  lemma SliverExample()
    ensures var a, b := Det(0.0, 0.0, 0.00001, 0.00001, 0.9), Det(0.0, 0.0, 0.00001, 0.00001, 0.8);
            CppOver(a, b, 0.4) && !PyOver(a, b, 0.4)
  {
    var a, b := Det(0.0, 0.0, 0.00001, 0.00001, 0.9), Det(0.0, 0.0, 0.00001, 0.00001, 0.8);
    assert Inter(a, b) == 0.0000000001;
    OverlapTestsDiffer(a, b, 0.4);
  }

  predicate ByScore(a: Det, b: Det) { a.score > b.score }

  lemma ByScoreIsWeak()
    ensures StrictWeak(ByScore)
  {
  }

  ghost predicate IsScoreOrder(dets: seq<Det>, sorted: seq<Det>) {
    Sorted(ByScore, sorted) && multiset(sorted) == multiset(dets)
  }

  ghost function KeptBoxes(sorted: seq<Det>, over: (Det, Det) -> bool): seq<Det> {
    Pick(sorted, Chosen(sorted, d => false, over))
  }

  function CppOverTotal(thresh: real): (Det, Det) -> bool {
    (a, b) => CppOver(a, b, thresh)
  }

  /** nms of nvdsparse_scrfd.cpp: sort by score, keep what no kept box overlaps. */
  method NmsCpp(dets: seq<Det>, thresh: real) returns (keep: seq<Det>)
    ensures exists sorted :: IsScoreOrder(dets, sorted) && keep == KeptBoxes(sorted, CppOverTotal(thresh))
  {
    ByScoreIsWeak();
    var sorted := Sort(ByScore, dets);
    keep := KeepLoop(sorted, CppOverTotal(thresh));
  }

  method KeepLoop(ds: seq<Det>, over: (Det, Det) -> bool) returns (keep: seq<Det>)
    ensures keep == KeptBoxes(ds, over)
  {
    keep := [];
    ghost var idx: seq<nat> := [];
    for i := 0 to |ds|
      invariant idx == Chosen(ds[..i], d => false, over)
      invariant Within(idx, |ds|) && keep == Pick(ds, idx)
    {
      ChosenStep(ds, d => false, over, i);
      PickSnoc(ds, idx, i);
      var dup := Scan(over, keep, ds[i]);
      if !dup {
        keep := keep + [ds[i]];
        idx := idx + [i];
      }
    }
    assert ds[..|ds|] == ds;
  }

  lemma PickSnoc(ds: seq<Det>, idx: seq<nat>, i: nat)
    requires Within(idx, |ds|) && i < |ds|
    ensures Within(idx + [i], |ds|) && Pick(ds, idx + [i]) == Pick(ds, idx) + [ds[i]]
  {
  }

  /** _nms of scrfd.py on boxes already in score order; the result is positions in that order. */
  method NmsPy(ds: seq<Det>, thresh: real) returns (keep: seq<nat>)
    ensures keep == Shrink(ds, PyOverTotal(thresh), Range(|ds|))
  {
    keep := ShrinkLoop(ds, PyOverTotal(thresh));
  }

  function PyOverTotal(thresh: real): (Det, Det) -> bool {
    (a, b) => PyOver(a, b, thresh)
  }

  /** Main result: in the same score order the keep-list scan and the shrinking order return the same
      boxes, unless boxes at two positions fall in the sliver between the two overlap tests. */
  lemma TwinsAgree(ds: seq<Det>, thresh: real)
    requires thresh >= 0.0 && forall d :: d in ds ==> Proper(d)
    requires forall i, j :: 0 <= i < j < |ds| ==> !InSliver(ds[j], ds[i], thresh)
    ensures var keep := Shrink(ds, PyOverTotal(thresh), Range(|ds|));
            Within(keep, |ds|) && Pick(ds, keep) == KeptBoxes(ds, CppOverTotal(thresh))
  {
    PySymmetric(thresh);
    ShrinkIsChosen(ds, PyOverTotal(thresh));
    TestsAgreeOn(ds, thresh);
    ChosenDependsOn(ds, PyOverTotal(thresh), CppOverTotal(thresh));
  }

  lemma PySymmetric(thresh: real)
    ensures forall a, b :: PyOverTotal(thresh)(a, b) == PyOverTotal(thresh)(b, a)
  {
    forall a, b ensures PyOverTotal(thresh)(a, b) == PyOverTotal(thresh)(b, a) { IouSymmetric(a, b); }
  }

  lemma TestsAgreeOn(ds: seq<Det>, thresh: real)
    requires thresh >= 0.0 && forall d :: d in ds ==> Proper(d)
    requires forall i, j :: 0 <= i < j < |ds| ==> !InSliver(ds[j], ds[i], thresh)
    ensures SameOnPairs(ds, PyOverTotal(thresh), CppOverTotal(thresh))
  {
    forall i, j | 0 <= i < j < |ds| ensures PyOverTotal(thresh)(ds[j], ds[i]) == CppOverTotal(thresh)(ds[j], ds[i]) {
      OverlapTestsDiffer(ds[j], ds[i], thresh);
    }
  }

  /** The two tests agree on boxes at different positions, the later one first. */
  ghost predicate SameOnPairs(ds: seq<Det>, f: (Det, Det) -> bool, g: (Det, Det) -> bool) {
    forall i, j :: 0 <= i < j < |ds| ==> f(ds[j], ds[i]) == g(ds[j], ds[i])
  }

  /** A box is only ever compared with those kept before it. */
  lemma {:induction false} ChosenDependsOn(ds: seq<Det>, f: (Det, Det) -> bool, g: (Det, Det) -> bool)
    requires SameOnPairs(ds, f, g)
    ensures Chosen(ds, d => false, f) == Chosen(ds, d => false, g)
  {
    if ds != [] {
      var n := |ds| - 1;
      var k := Chosen(ds[..n], d => false, f);
      ChosenDependsOn(ds[..n], f, g);
      forall i | i in k ensures f(ds[n], ds[i]) == g(ds[n], ds[i]) {}
    }
  }

  /** With distinct scores the order itself is forced, whatever the (unstable) sort does. */
  lemma ScoreOrderUnique(dets: seq<Det>, a: seq<Det>, b: seq<Det>)
    requires IsScoreOrder(dets, a) && IsScoreOrder(dets, b)
    requires forall i, j :: 0 <= i < j < |dets| ==> dets[i].score != dets[j].score
    ensures a == b
  {
    StrictScores(dets, a);
    StrictScores(dets, b);
    forall d ensures d in a <==> d in b { assert d in a <==> d in multiset(a); assert d in b <==> d in multiset(b); }
    SortedUnique(ByScore, a, b);
  }

  lemma StrictScores(dets: seq<Det>, a: seq<Det>)
    requires IsScoreOrder(dets, a)
    requires forall i, j :: 0 <= i < j < |dets| ==> dets[i].score != dets[j].score
    ensures StrictlySorted(ByScore, a)
  {
    NoDuplicatesFromMultiset(dets, a);
    forall i, j | 0 <= i < j < |a| ensures ByScore(a[i], a[j]) {
      assert a[i] in multiset(a) && a[j] in multiset(a);
      assert a[i] in dets && a[j] in dets;
    }
  }

  // What the kept boxes are, for any order the sort may leave equal scores in.

  /** No two kept boxes overlap. */
  lemma NmsKeptApart(ds: seq<Det>, thresh: real, i: nat, j: nat)
    requires i < |KeptBoxes(ds, CppOverTotal(thresh))| && j < |KeptBoxes(ds, CppOverTotal(thresh))| && i != j
    ensures var keep := KeptBoxes(ds, CppOverTotal(thresh)); Iou(keep[i], keep[j]) <= thresh
  {
    var keep := KeptBoxes(ds, CppOverTotal(thresh));
    KeptApart(ds, CppOverTotal(thresh), if i < j then i else j, if i < j then j else i);
    IouSymmetric(keep[i], keep[j]);
  }

  /** Every dropped box overlaps a kept one that scores at least as high. */
  lemma NmsDroppedCovered(ds: seq<Det>, thresh: real, d: Det)
    requires Sorted(ByScore, ds) && d in ds && d !in KeptBoxes(ds, CppOverTotal(thresh))
    ensures exists k :: k in KeptBoxes(ds, CppOverTotal(thresh)) && Iou(d, k) > thresh && k.score >= d.score
  {
    var k := Suppressor(ds, CppOverTotal(thresh), d);
    assert CppOver(d, k, thresh);
  }

  /** Suppressing what was kept drops nothing more. */
  lemma NmsIdempotent(ds: seq<Det>, thresh: real)
    ensures KeptBoxes(KeptBoxes(ds, CppOverTotal(thresh)), CppOverTotal(thresh)) == KeptBoxes(ds, CppOverTotal(thresh))
  {
    ChosenIdempotent(ds, d => false, CppOverTotal(thresh));
  }

  lemma KeptApart(ds: seq<Det>, over: (Det, Det) -> bool, i: nat, j: nat)
    requires i < j < |Chosen(ds, d => false, over)|
    ensures !over(KeptBoxes(ds, over)[j], KeptBoxes(ds, over)[i])
  {
    var idx := Chosen(ds, d => false, over);
    ChosenIsStable(ds, d => false, over);
    assert idx[i] in Elements(idx) && idx[j] in Elements(idx);
  }

  lemma Suppressor(ds: seq<Det>, over: (Det, Det) -> bool, d: Det) returns (k: Det)
    requires Sorted(ByScore, ds) && d in ds && d !in KeptBoxes(ds, over)
    ensures k in KeptBoxes(ds, over) && over(d, k) && k.score >= d.score
  {
    var idx := Chosen(ds, d => false, over);
    var keep := KeptBoxes(ds, over);
    ChosenIsStable(ds, d => false, over);
    var j :| 0 <= j < |ds| && ds[j] == d;
    assert j !in Elements(idx) by {
      forall m | 0 <= m < |idx| ensures idx[m] != j { assert keep[m] in keep; }
    }
    var i :| i in Elements(idx) && i < j && over(ds[j], ds[i]);
    var m :| 0 <= m < |idx| && idx[m] == i;
    k := keep[m];
    assert !ByScore(ds[j], ds[i]);
  }
}
