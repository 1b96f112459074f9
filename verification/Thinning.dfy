/** Object boxes: the letterbox inverse, and publish thinning with bounded staleness. */
module Thinning {
  import opened Arithmetic

  // ---- Letterbox -----------------------------------------------------------------------------------

  datatype Letterbox = Letterbox(srcW: int, srcH: int, dw: real, dh: real, padX: real, padY: real)

  /** computeLetterbox; the mux anchors content top-left, so both pads are zero. */
  function ComputeLetterbox(srcW: int, srcH: int, canvasW: int, canvasH: int): (l: Letterbox)
    requires canvasW > 0 && canvasH > 0
    ensures l.srcW > 0 && l.srcH > 0 && l.dw > 0.0 && l.dh > 0.0
  {
    var w := if srcW > 0 then srcW else canvasW;
    var h := if srcH > 0 then srcH else canvasH;
    var scale := Scale(w, h, canvasW, canvasH);
    ScalePositive(w, h, canvasW, canvasH);
    Letterbox(w, h, w as real * scale, h as real * scale, 0.0, 0.0)
  }

  function Scale(w: int, h: int, canvasW: int, canvasH: int): real
    requires w > 0 && h > 0
  {
    MinR(canvasW as real / w as real, canvasH as real / h as real)
  }

  lemma ScalePositive(w: int, h: int, canvasW: int, canvasH: int)
    requires w > 0 && h > 0 && canvasW > 0 && canvasH > 0
    ensures Scale(w, h, canvasW, canvasH) > 0.0
    ensures w as real * Scale(w, h, canvasW, canvasH) > 0.0
    ensures h as real * Scale(w, h, canvasW, canvasH) > 0.0
  {
    DivPositive(canvasW as real, w as real);
    DivPositive(canvasH as real, h as real);
    MulPositive(w as real, Scale(w, h, canvasW, canvasH));
    MulPositive(h as real, Scale(w, h, canvasW, canvasH));
  }

  lemma DivPositive(a: real, b: real)
    requires a > 0.0 && b > 0.0
    ensures a / b > 0.0
  {
    var q := a / b;
    assert q * b == a;
  }

  lemma MulPositive(a: real, b: real)
    requires a > 0.0 && b > 0.0
    ensures a * b > 0.0
  {
  }

  lemma MulLe(a: real, b: real, c: real)
    requires a <= b && c > 0.0
    ensures c * a <= c * b
  {
  }

  /** The scaled picture keeps its shape, fits the canvas and touches it along one side. */
  lemma LetterboxFits(srcW: int, srcH: int, canvasW: int, canvasH: int)
    requires srcW > 0 && srcH > 0 && canvasW > 0 && canvasH > 0
    ensures var l := ComputeLetterbox(srcW, srcH, canvasW, canvasH);
            && l.dw <= canvasW as real && l.dh <= canvasH as real
            && (l.dw == canvasW as real || l.dh == canvasH as real)
            && l.dw * srcH as real == l.dh * srcW as real
  {
    var w, h, s := srcW as real, srcH as real, Scale(srcW, srcH, canvasW, canvasH);
    assert w * (canvasW as real / w) == canvasW as real;
    assert h * (canvasH as real / h) == canvasH as real;
    MulLe(s, canvasW as real / w, w);
    MulLe(s, canvasH as real / h, h);
    assert (w * s) * h == (h * s) * w;
  }

  datatype Rect = Rect(x: real, y: real, w: real, h: real)

  ghost predicate InUnit(r: Rect) {
    0.0 <= r.x && 0.0 <= r.y && 0.0 <= r.w && 0.0 <= r.h && r.x + r.w <= 1.0 && r.y + r.h <= 1.0
  }

  function Clamp01(v: real): (c: real)
    ensures 0.0 <= c <= 1.0 && (0.0 <= v <= 1.0 ==> c == v)
  {
    if v < 0.0 then 0.0 else if v > 1.0 then 1.0 else v
  }

  function Unscale(v: real, pad: real, d: real): (c: real)
    requires d > 0.0
    ensures 0.0 <= c <= 1.0
  {
    Clamp01((v - pad) / d)
  }

  /** Canvas rectangle to source-normalised rectangle, clamped to the picture. */
  function Normalise(l: Letterbox, left: real, top: real, width: real, height: real): (r: Rect)
    requires l.dw > 0.0 && l.dh > 0.0
    ensures InUnit(r)
  {
    var x := Unscale(left, l.padX, l.dw);
    var y := Unscale(top, l.padY, l.dh);
    var w := Unscale(width, 0.0, l.dw);
    var h := Unscale(height, 0.0, l.dh);
    Rect(x, y, if x + w > 1.0 then 1.0 - x else w, if y + h > 1.0 then 1.0 - y else h)
  }

  lemma UnscaleExact(v: real, pad: real, d: real, p: real)
    requires d > 0.0 && 0.0 <= v <= 1.0 && p == v * d
    ensures Unscale(pad + p, pad, d) == v
  {
    assert pad + p - pad == p;
    Cancel(v, d);
  }

  lemma Cancel(a: real, b: real)
    requires b > 0.0
    ensures a * b / b == a
  {
  }

  /** The inverse is exact: a box of the source picture comes back unchanged from the canvas. */
  lemma LetterboxRoundTrip(l: Letterbox, r: Rect)
    requires l.dw > 0.0 && l.dh > 0.0 && InUnit(r)
    ensures Normalise(l, l.padX + r.x * l.dw, l.padY + r.y * l.dh, r.w * l.dw, r.h * l.dh) == r
  {
    UnscaleExact(r.x, l.padX, l.dw, r.x * l.dw);
    UnscaleExact(r.y, l.padY, l.dh, r.y * l.dh);
    UnscaleExact(r.w, 0.0, l.dw, r.w * l.dw);
    UnscaleExact(r.h, 0.0, l.dh, r.h * l.dh);
  }

  /** c is the number nearest to v between lo and hi. */
  ghost predicate Nearest(c: real, v: real, lo: real, hi: real) {
    lo <= c <= hi && (v <= lo ==> c == lo) && (lo <= v <= hi ==> c == v) && (hi <= v ==> c == hi)
  }

  lemma ClampNearest(v: real)
    ensures Nearest(Clamp01(v), v, 0.0, 1.0)
  {
  }

  /** Any box of the canvas, parts of it outside the picture included: its corner goes to the nearest place of the
      picture, and then each side is the nearest that stays inside. */
  lemma NormaliseNearest(l: Letterbox, left: real, top: real, width: real, height: real)
    requires l.dw > 0.0 && l.dh > 0.0
    ensures var r := Normalise(l, left, top, width, height);
            && Nearest(r.x, (left - l.padX) / l.dw, 0.0, 1.0) && Nearest(r.y, (top - l.padY) / l.dh, 0.0, 1.0)
            && Nearest(r.w, width / l.dw, 0.0, 1.0 - r.x) && Nearest(r.h, height / l.dh, 0.0, 1.0 - r.y)
  {
    assert width - 0.0 == width && height - 0.0 == height;
  }

  /** The picture lies in the upper left corner of the canvas, w wide and h high: as large as fits, in its own shape.
      A box of it comes back unchanged. */
  lemma PictureRoundTrip(srcW: int, srcH: int, canvasW: int, canvasH: int, r: Rect, w: real, h: real)
    requires srcW > 0 && srcH > 0 && canvasW > 0 && canvasH > 0 && InUnit(r)
    requires w <= canvasW as real && h <= canvasH as real && (w == canvasW as real || h == canvasH as real)
    requires w * srcH as real == h * srcW as real
    ensures var l := ComputeLetterbox(srcW, srcH, canvasW, canvasH);
            Normalise(l, r.x * w, r.y * h, r.w * w, r.h * h) == r
  {
    var l := ComputeLetterbox(srcW, srcH, canvasW, canvasH);
    LetterboxFits(srcW, srcH, canvasW, canvasH);
    OneSize(srcW as real, srcH as real, canvasW as real, canvasH as real, w, h, l.dw, l.dh);
    RoundTripAt(l, r, r.x * w, r.y * h, r.w * w, r.h * h);
  }

  lemma RoundTripAt(l: Letterbox, r: Rect, x: real, y: real, w: real, h: real)
    requires l.dw > 0.0 && l.dh > 0.0 && l.padX == 0.0 && l.padY == 0.0 && InUnit(r)
    requires x == r.x * l.dw && y == r.y * l.dh && w == r.w * l.dw && h == r.h * l.dh
    ensures Normalise(l, x, y, w, h) == r
  {
    UnscaleExact(r.x, 0.0, l.dw, x);
    UnscaleExact(r.y, 0.0, l.dh, y);
    UnscaleExact(r.w, 0.0, l.dw, w);
    UnscaleExact(r.h, 0.0, l.dh, h);
  }

  /** Only one size fits a shape into a canvas so that it touches. */
  lemma OneSize(w: real, h: real, cw: real, ch: real, x: real, y: real, dw: real, dh: real)
    requires w > 0.0 && h > 0.0 && x <= cw && y <= ch && (x == cw || y == ch) && x * h == y * w
    requires dw <= cw && dh <= ch && (dw == cw || dh == ch) && dw * h == dh * w
    ensures dw == x && dh == y
  {
    if dw < x {
      ScaleUp(dw, x, h);
      if dh >= y { ScaleUpLe(y, dh, w); }
    } else if x < dw {
      ScaleUp(x, dw, h);
      if y >= dh { ScaleUpLe(dh, y, w); }
    } else {
      SameFactor(dh, y, w);
    }
  }

  lemma ScaleUpLe(a: real, b: real, w: real)
    requires w > 0.0 && a <= b
    ensures a * w <= b * w
  {
  }

  lemma SameFactor(a: real, b: real, w: real)
    requires w > 0.0 && a * w == b * w
    ensures a == b
  {
    assert (a - b) * w == 0.0;
  }

  lemma ScaleUp(a: real, b: real, w: real)
    requires w > 0.0 && a < b
    ensures a * w < b * w
  {
  }

  // ---- Thinning ------------------------------------------------------------------------------------

  datatype Knobs = Knobs(eps: real, keepaliveMs: int)

  datatype Sighting = Sighting(now: int, box: Rect, cls: string)

  /** x = -1 marks a track that has never published. */
  datatype TrackPub = TrackPub(box: Rect, cls: string, lastPub: int, lastSeen: int)

  const UNPUBLISHED: TrackPub := TrackPub(Rect(-1.0, -1.0, 0.0, 0.0), "", 0, 0)

  function Abs(r: real): real { if r < 0.0 then -r else r }

  predicate Near(a: Rect, b: Rect, eps: real) {
    Abs(a.x - b.x) <= eps && Abs(a.y - b.y) <= eps && Abs(a.w - b.w) <= eps && Abs(a.h - b.h) <= eps
  }

  /** One sighting of a tracked object: the new state, and whether it is published. */
  function See(t: TrackPub, s: Sighting, k: Knobs): (TrackPub, bool) {
    var first := t.box.x < 0.0;
    var moved := !first && !Near(s.box, t.box, k.eps);
    var reclassed := !first && t.cls != s.cls;
    var keepalive := !first && s.now - t.lastPub > k.keepaliveMs;
    if first || moved || reclassed || keepalive then
      (TrackPub(s.box, s.cls, s.now, s.now), true)
    else
      (t.(lastSeen := s.now), false)
  }

  /** The published sightings of a trace, as indices. */
  function Trace(ss: seq<Sighting>, k: Knobs): (r: (TrackPub, seq<nat>)) {
    if ss == [] then (UNPUBLISHED, [])
    else
      var n := |ss| - 1;
      var (t, pubs) := Trace(ss[..n], k);
      var (t', pub) := See(t, ss[n], k);
      (t', if pub then pubs + [n] else pubs)
  }

  /** The last published sighting still stands for sighting s. */
  ghost predicate StandsFor(p: Sighting, s: Sighting, k: Knobs) {
    && -k.eps <= s.box.x - p.box.x <= k.eps && -k.eps <= s.box.y - p.box.y <= k.eps
    && -k.eps <= s.box.w - p.box.w <= k.eps && -k.eps <= s.box.h - p.box.h <= k.eps
    && s.cls == p.cls && s.now - p.now <= k.keepaliveMs
  }

  ghost predicate ClampedTrace(ss: seq<Sighting>) { forall i :: 0 <= i < |ss| ==> InUnit(ss[i].box) }

  ghost predicate Thinned(ss: seq<Sighting>, pubs: seq<nat>, k: Knobs) {
    && pubs != [] && pubs[0] == 0
    && (forall i :: 0 <= i < |pubs| ==> pubs[i] < |ss|)
    && (forall i :: 1 <= i < |pubs| ==>
          && pubs[i - 1] < pubs[i] && !StandsFor(ss[pubs[i - 1]], ss[pubs[i]], k)
          && (forall j :: pubs[i - 1] < j < pubs[i] ==> StandsFor(ss[pubs[i - 1]], ss[j], k)))
    && (forall j :: pubs[|pubs| - 1] < j < |ss| ==> StandsFor(ss[pubs[|pubs| - 1]], ss[j], k))
  }

  lemma ThinnedHold(ss: seq<Sighting>, s: Sighting, pubs: seq<nat>, k: Knobs)
    requires Thinned(ss, pubs, k) && StandsFor(ss[pubs[|pubs| - 1]], s, k)
    ensures Thinned(ss + [s], pubs, k)
  {
    var tt := ss + [s];
    assert forall i :: 0 <= i < |ss| ==> tt[i] == ss[i];
  }

  lemma ThinnedPublish(ss: seq<Sighting>, s: Sighting, pubs: seq<nat>, k: Knobs)
    requires Thinned(ss, pubs, k) && !StandsFor(ss[pubs[|pubs| - 1]], s, k)
    ensures Thinned(ss + [s], pubs + [|ss|], k)
  {
    var tt, qs := ss + [s], pubs + [|ss|];
    assert forall i :: 0 <= i < |ss| ==> tt[i] == ss[i];
    assert forall i :: 0 <= i < |pubs| ==> qs[i] == pubs[i];
  }

  /** The state records exactly the last published sighting. */
  ghost predicate Records(t: TrackPub, last: Sighting, seen: int) {
    t == TrackPub(last.box, last.cls, last.now, seen)
  }

  lemma SeeExactly(t: TrackPub, last: Sighting, s: Sighting, k: Knobs)
    requires InUnit(last.box) && Records(t, last, t.lastSeen)
    ensures var (t', pub) := See(t, s, k);
            && (pub <==> !StandsFor(last, s, k))
            && Records(t', if pub then s else last, s.now)
  {
  }

  lemma SightingThinned(ss: seq<Sighting>, s: Sighting, t: TrackPub, pubs: seq<nat>, k: Knobs)
    requires Thinned(ss, pubs, k) && InUnit(ss[pubs[|pubs| - 1]].box)
    requires Records(t, ss[pubs[|pubs| - 1]], t.lastSeen)
    ensures var (t', pub) := See(t, s, k);
            var qs := if pub then pubs + [|ss|] else pubs;
            Thinned(ss + [s], qs, k) && Records(t', (ss + [s])[qs[|qs| - 1]], s.now)
  {
    SeeExactly(t, ss[pubs[|pubs| - 1]], s, k);
    if StandsFor(ss[pubs[|pubs| - 1]], s, k) {
      ThinnedHold(ss, s, pubs, k);
    } else {
      ThinnedPublish(ss, s, pubs, k);
    }
  }

  /** Main result, over every trace of clamped boxes: the first sighting is published, a later one exactly
      when the last published no longer stands for it, and so at every moment the last published box is
      within eps on all four coordinates, of the same class and no older than the keepalive. The "never
      published" mark cannot be mistaken for a published box. */
  lemma {:induction false} StalenessBounded(ss: seq<Sighting>, k: Knobs)
    requires ss != [] && ClampedTrace(ss)
    ensures var (t, pubs) := Trace(ss, k);
            Thinned(ss, pubs, k) && Records(t, ss[pubs[|pubs| - 1]], ss[|ss| - 1].now)
  {
    var n := |ss| - 1;
    var before, s := ss[..n], ss[n];
    assert ss == before + [s];
    if n == 0 {
      assert before == [];
    } else {
      StalenessBounded(before, k);
      var (t, pubs) := Trace(before, k);
      NextThinned(before, s, t, pubs, k);
    }
  }

  lemma NextThinned(ss: seq<Sighting>, s: Sighting, t: TrackPub, pubs: seq<nat>, k: Knobs)
    requires ClampedTrace(ss + [s]) && ss != [] && Thinned(ss, pubs, k)
    requires Records(t, ss[pubs[|pubs| - 1]], ss[|ss| - 1].now)
    ensures var (t', pub) := See(t, s, k);
            var qs := if pub then pubs + [|ss|] else pubs;
            Thinned(ss + [s], qs, k) && Records(t', (ss + [s])[qs[|qs| - 1]], s.now)
  {
    var last := pubs[|pubs| - 1];
    assert (ss + [s])[last] == ss[last] && InUnit((ss + [s])[last].box);
    SightingThinned(ss, s, t, pubs, k);
  }
}
