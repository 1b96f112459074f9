/** Per-track face capture: the first face at once, then the best of each window, then a goodbye frame. */
module FaceCapture {
  import opened Options

  /** One accepted face of a track; `frame` stands for its crop, box and timestamp. */
  datatype Sighting = Sighting(now: int, quality: real, frame: nat)

  const KEEPALIVE_MS: int := 30000
  const UNTRACKED: nat := 0xFFFF_FFFF_FFFF_FFFF

  datatype Settings = Settings(intervalMs: int, maxPerTrack: int)

  /** The clamps ReadFaceCaptureParams applies, and its defaults satisfy. */
  ghost predicate Clamped(p: Settings) {
    250 <= p.intervalMs <= 10000 && 1 <= p.maxPerTrack <= 100
  }

  datatype Track = Track(published: nat, lastPub: int, lastSeen: int, bestQuality: real, cand: Option<Sighting>)

  const FRESH: Track := Track(0, 0, 0, -1.0, None)

  function WindowMs(published: nat, unbudgeted: bool, p: Settings): int {
    if unbudgeted || published < p.maxPerTrack then p.intervalMs else KEEPALIVE_MS
  }

  function Stash(t: Track, s: Sighting): Track {
    if s.quality > t.bestQuality then t.(bestQuality := s.quality, cand := Some(s)) else t
  }

  /** One sighting: the new track state and the publish it attempts, if any. */
  function See(t: Track, s: Sighting, unbudgeted: bool, p: Settings): (Track, Option<Sighting>) {
    if t.published == 0 && t.cand.None? && t.lastPub == 0 then
      (Track(1, s.now, s.now, t.bestQuality, None), Some(s))
    else
      var u := Stash(t.(lastSeen := s.now), s);
      if s.now - u.lastPub >= WindowMs(u.published, unbudgeted, p) && u.cand.Some? then
        (Track(u.published + 1, s.now, s.now, -1.0, None), u.cand)
      else
        (u, None)
  }

  // ---- Traces ------------------------------------------------------------------------------------

  /** A publish attempt, with the index of the sighting that triggered it. */
  datatype Attempt = Attempt(index: nat, face: Sighting)

  function Trace(ss: seq<Sighting>, unbudgeted: bool, p: Settings): (r: (Track, seq<Attempt>)) {
    if ss == [] then (FRESH, [])
    else
      var n := |ss| - 1;
      var (t, as') := Trace(ss[..n], unbudgeted, p);
      var (t', pub) := See(t, ss[n], unbudgeted, p);
      (t', if pub.Some? then as' + [Attempt(n, pub.value)] else as')
  }

  /** steady_clock readings are positive and never go back; quality is an area times a confidence. */
  ghost predicate Plausible(ss: seq<Sighting>) {
    && (forall i :: 0 <= i < |ss| ==> ss[i].now > 0 && ss[i].quality >= 0.0)
    && forall i, j :: 0 <= i < j < |ss| ==> ss[i].now <= ss[j].now
  }

  /** x is the first of the best sightings in ss[lo..hi]. */
  ghost predicate BestOf(ss: seq<Sighting>, lo: nat, hi: nat, x: Sighting) {
    exists k :: lo <= k < hi <= |ss| && ss[k] == x
                && (forall j :: lo <= j < k ==> ss[j].quality < x.quality)
                && (forall j :: k <= j < hi ==> ss[j].quality <= x.quality)
  }

  /** Attempt number i follows attempt a: it comes no sooner than its window allows and carries the best
      sighting since. */
  ghost predicate Follows(ss: seq<Sighting>, a: Attempt, b: Attempt, i: nat, unbudgeted: bool, p: Settings) {
    && a.index < b.index < |ss|
    && ss[b.index].now - ss[a.index].now >= WindowMs(i, unbudgeted, p)
    && BestOf(ss, a.index + 1, b.index + 1, b.face)
  }

  ghost predicate Paced(ss: seq<Sighting>, as': seq<Attempt>, unbudgeted: bool, p: Settings) {
    && (as' != [] ==> ss != [] && as'[0] == Attempt(0, ss[0]))
    && (forall i :: 0 <= i < |as'| ==> as'[i].index < |ss|)
    && forall i :: 1 <= i < |as'| ==> Follows(ss, as'[i - 1], as'[i], i, unbudgeted, p)
  }

  /** The state between attempts: everything seen since the last one is summed up in the candidate. */
  ghost predicate Pending(ss: seq<Sighting>, t: Track, as': seq<Attempt>) {
    && |as'| >= 1 && t.published == |as'|
    && as'[|as'| - 1].index < |ss| && t.lastPub == ss[as'[|as'| - 1].index].now
    && t.lastSeen == ss[|ss| - 1].now
    && var lo := as'[|as'| - 1].index + 1;
       if lo == |ss| then t.cand.None? && t.bestQuality == -1.0
       else t.cand.Some? && t.bestQuality == t.cand.value.quality && BestOf(ss, lo, |ss|, t.cand.value)
  }

  lemma BestOfPrefix(ss: seq<Sighting>, s: Sighting, lo: nat, hi: nat, x: Sighting)
    requires hi <= |ss|
    ensures BestOf(ss, lo, hi, x) ==> BestOf(ss + [s], lo, hi, x)
  {
    var tt := ss + [s];
    if BestOf(ss, lo, hi, x) {
      var k :| lo <= k < hi <= |ss| && ss[k] == x
               && (forall j :: lo <= j < k ==> ss[j].quality < x.quality)
               && (forall j :: k <= j < hi ==> ss[j].quality <= x.quality);
      assert tt[k] == x;
    }
  }

  lemma BestOfGrows(ss: seq<Sighting>, s: Sighting, lo: nat, x: Sighting)
    requires BestOf(ss, lo, |ss|, x)
    ensures BestOf(ss + [s], lo, |ss| + 1, if s.quality > x.quality then s else x)
  {
    var tt := ss + [s];
    var k :| lo <= k < |ss| && ss[k] == x
             && (forall j :: lo <= j < k ==> ss[j].quality < x.quality)
             && (forall j :: k <= j < |ss| ==> ss[j].quality <= x.quality);
    assert tt[k] == x && tt[|ss|] == s;
    if s.quality > x.quality {
      forall j | lo <= j < |ss| ensures tt[j].quality < s.quality { if j < k {} }
    }
  }

  lemma BestOfOne(ss: seq<Sighting>, s: Sighting)
    ensures BestOf(ss + [s], |ss|, |ss| + 1, s)
  {
    assert (ss + [s])[|ss|] == s;
  }

  lemma StashKeepsBest(ss: seq<Sighting>, t: Track, as': seq<Attempt>, s: Sighting)
    requires Pending(ss, t, as') && s.quality >= 0.0
    ensures var u := Stash(t.(lastSeen := s.now), s);
            && u.cand.Some? && u.bestQuality == u.cand.value.quality
            && BestOf(ss + [s], as'[|as'| - 1].index + 1, |ss| + 1, u.cand.value)
  {
    var lo := as'[|as'| - 1].index + 1;
    if lo == |ss| {
      BestOfOne(ss, s);
    } else {
      BestOfGrows(ss, s, lo, t.cand.value);
    }
  }

  lemma PacedGrows(ss: seq<Sighting>, s: Sighting, as': seq<Attempt>, unbudgeted: bool, p: Settings)
    requires Paced(ss, as', unbudgeted, p)
    ensures Paced(ss + [s], as', unbudgeted, p)
  {
    forall i | 1 <= i < |as'| ensures Follows(ss + [s], as'[i - 1], as'[i], i, unbudgeted, p) {
      assert Follows(ss, as'[i - 1], as'[i], i, unbudgeted, p);
      BestOfPrefix(ss, s, as'[i - 1].index + 1, as'[i].index + 1, as'[i].face);
    }
  }

  lemma PacedExtends(ss: seq<Sighting>, as': seq<Attempt>, a: Attempt, unbudgeted: bool, p: Settings)
    requires Paced(ss, as', unbudgeted, p) && as' != []
    requires Follows(ss, as'[|as'| - 1], a, |as'|, unbudgeted, p)
    ensures Paced(ss, as' + [a], unbudgeted, p)
  {
    var bs := as' + [a];
    forall i | 1 <= i < |bs| ensures Follows(ss, bs[i - 1], bs[i], i, unbudgeted, p) {
      assert bs[i - 1] == as'[i - 1];
      if i < |as'| { assert bs[i] == as'[i]; }
    }
  }

  /** The window stays open: the sighting joins the pending candidate. */
  lemma SightingHeld(ss: seq<Sighting>, s: Sighting, t: Track, as': seq<Attempt>, unbudgeted: bool, p: Settings)
    requires Paced(ss, as', unbudgeted, p) && Pending(ss, t, as') && s.quality >= 0.0
    ensures Paced(ss + [s], as', unbudgeted, p) && Pending(ss + [s], Stash(t.(lastSeen := s.now), s), as')
  {
    PacedGrows(ss, s, as', unbudgeted, p);
    StashKeepsBest(ss, t, as', s);
    assert (ss + [s])[as'[|as'| - 1].index] == ss[as'[|as'| - 1].index];
  }

  /** The window closes: the pending best goes out. */
  lemma SightingPublished(ss: seq<Sighting>, s: Sighting, t: Track, as': seq<Attempt>, unbudgeted: bool, p: Settings)
    requires Paced(ss, as', unbudgeted, p) && Pending(ss, t, as') && s.quality >= 0.0
    requires s.now - t.lastPub >= WindowMs(t.published, unbudgeted, p)
    ensures var u := Stash(t.(lastSeen := s.now), s);
            u.cand.Some? && Paced(ss + [s], as' + [Attempt(|ss|, u.cand.value)], unbudgeted, p)
  {
    PacedGrows(ss, s, as', unbudgeted, p);
    StashKeepsBest(ss, t, as', s);
    var u, last := Stash(t.(lastSeen := s.now), s), as'[|as'| - 1];
    var a := Attempt(|ss|, u.cand.value);
    assert (ss + [s])[last.index] == ss[last.index] && (ss + [s])[|ss|] == s;
    assert Follows(ss + [s], last, a, |as'|, unbudgeted, p);
    PacedExtends(ss + [s], as', a, unbudgeted, p);
  }

  lemma SightingPaced(ss: seq<Sighting>, s: Sighting, t: Track, as': seq<Attempt>, unbudgeted: bool, p: Settings)
    requires Paced(ss, as', unbudgeted, p) && Pending(ss, t, as') && t.lastPub > 0 && s.quality >= 0.0
    ensures var (t', pub) := See(t, s, unbudgeted, p);
            var bs := if pub.Some? then as' + [Attempt(|ss|, pub.value)] else as';
            Paced(ss + [s], bs, unbudgeted, p) && Pending(ss + [s], t', bs)
  {
    if s.now - t.lastPub >= WindowMs(t.published, unbudgeted, p) {
      SightingPublished(ss, s, t, as', unbudgeted, p);
    } else {
      SightingHeld(ss, s, t, as', unbudgeted, p);
    }
  }

  /** Every trace is paced: the first face goes out at once, later ones no sooner than their windows, each the best
      since the one before. Its state summarises what is pending. */
  lemma {:induction false} TracePaced(ss: seq<Sighting>, unbudgeted: bool, p: Settings)
    requires ss != [] && Plausible(ss)
    ensures var (t, as') := Trace(ss, unbudgeted, p); Paced(ss, as', unbudgeted, p) && Pending(ss, t, as')
  {
    var n := |ss| - 1;
    var before, s := ss[..n], ss[n];
    assert ss == before + [s];
    if n == 0 {
      assert before == [];
    } else {
      PlausiblePrefix(ss, n);
      TracePaced(before, unbudgeted, p);
      var (t, as') := Trace(before, unbudgeted, p);
      SightingPaced(before, s, t, as', unbudgeted, p);
    }
  }

  lemma PlausiblePrefix(ss: seq<Sighting>, n: nat)
    requires Plausible(ss) && n < |ss|
    ensures Plausible(ss[..n]) && ss[n].quality >= 0.0
  {
  }
}
