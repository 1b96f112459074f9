/** The probe's table of face tracks: sightings of many people and prune passes, interleaved. A person whose track
    lives on can be erased and start again, so rates are stated over whole runs. */
module FaceTable {
  import opened Options
  import opened Arithmetic
  import opened Tables
  import opened FaceCapture

  function Taken(s: Sighting): int { s.now }

  function LastSeen(t: Track): int { t.lastSeen }

  /** What a sighting makes of a table entry; the default-constructed state is what operator[] creates. */
  function Entry(o: Option<Track>): Track { if o.Some? then o.value else FRESH }

  function Answer(track: nat, o: Option<Track>, s: Sighting, p: Settings): (Track, Option<Sighting>) {
    See(Entry(o), s, track == UNTRACKED, p)
  }

  function Sees(p: Settings): (nat, Option<Track>, Sighting) -> Track {
    (track: nat, o: Option<Track>, s: Sighting) => Answer(track, o, s, p).0
  }

  function Table(es: seq<Event<Sighting>>, p: Settings): map<nat, Track> { Run(Sees(p), LastSeen, es) }

  function OwnOf(es: seq<Event<Sighting>>, track: nat): seq<Sighting> { Own(Taken, es, track) }

  function Goodbyes(tracks: map<nat, Track>, cutoff: int): map<nat, Sighting> {
    map k | k in tracks && tracks[k].lastSeen < cutoff && tracks[k].cand.Some? :: tracks[k].cand.value
  }

  class Tracks {
    var facePub: map<nat, Track>
    const settings: Settings
    const bus: bool

    constructor (settings: Settings, bus: bool)
      ensures facePub == map[] && this.settings == settings && this.bus == bus
    {
      facePub := map[];
      this.settings := settings;
      this.bus := bus;
    }

    /** One face of a track. */
    method OnFace(track: nat, s: Sighting) returns (pub: Option<Sighting>)
      modifies this`facePub
      ensures facePub == Step(Sees(settings), LastSeen, old(facePub), Seen(track, s))
      ensures pub == Answer(track, Get(old(facePub), track), s, settings).1
    {
      var st := if track in facePub then facePub[track] else FRESH;
      st := st.(lastSeen := s.now);
      pub := None;
      if st.published == 0 && st.cand.None? && st.lastPub == 0 {
        pub := Some(s);
        st := st.(published := 1, lastPub := s.now);
        facePub := facePub[track := st];
        return;
      }
      if s.quality > st.bestQuality {
        st := st.(bestQuality := s.quality, cand := Some(s));
      }
      var unbudgeted := track == UNTRACKED;
      var windowMs := if unbudgeted || st.published < settings.maxPerTrack then settings.intervalMs else KEEPALIVE_MS;
      if s.now - st.lastPub >= windowMs && st.cand.Some? {
        pub := st.cand;
        st := st.(published := st.published + 1, lastPub := s.now, bestQuality := -1.0, cand := None);
      }
      facePub := facePub[track := st];
    }

    /** The prune pass: stale tracks go, and each that still holds a candidate says goodbye with it. */
    method Prune(now: int) returns (flushed: map<nat, Sighting>)
      modifies this`facePub
      ensures facePub == Step(Sees(settings), LastSeen, old(facePub), Event.Prune(now))
      ensures bus ==> flushed == Goodbyes(old(facePub), now - STALE_MS)
      ensures !bus ==> flushed == map[]
    {
      var cutoff := now - STALE_MS;
      ghost var before := facePub;
      flushed := map[];
      var todo := facePub.Keys;
      while todo != {}
        invariant todo <= facePub.Keys <= before.Keys
        invariant forall k :: k in facePub ==> facePub[k] == before[k]
        invariant forall k :: k in before && k !in todo ==> (k in facePub <==> before[k].lastSeen >= cutoff)
        invariant forall k :: k in flushed <==>
          bus && k in before && k !in todo && before[k].lastSeen < cutoff && before[k].cand.Some?
        invariant forall k :: k in flushed ==> flushed[k] == before[k].cand.value
        decreases |todo|
      {
        var k :| k in todo;
        todo := todo - {k};
        var st := facePub[k];
        if st.lastSeen < cutoff {
          if st.cand.Some? && bus {
            flushed := flushed[k := st.cand.value];
          }
          facePub := facePub - {k};
        }
      }
    }
  }

  // ---- Runs ------------------------------------------------------------------------------------------------

  function Time(e: Event<Sighting>): int { if e.Seen? then e.s.now else e.now }

  /** Clock readings are positive and never go back; quality is an area times a confidence. */
  ghost predicate Timed(es: seq<Event<Sighting>>) {
    && (forall i :: 0 <= i < |es| ==> Time(es[i]) > 0 && (es[i].Seen? ==> es[i].s.quality >= 0.0))
    && forall i, j :: 0 <= i < j < |es| ==> Time(es[i]) <= Time(es[j])
  }

  lemma TimedPrefix(es: seq<Event<Sighting>>, n: nat)
    requires Timed(es) && n <= |es|
    ensures Timed(es[..n])
  {
  }

  function EntryOf(es: seq<Event<Sighting>>, track: nat, p: Settings): Option<Track> { Get(Table(es, p), track) }

  function Now(es: seq<Event<Sighting>>): int { if es == [] then 0 else Time(es[|es| - 1]) }

  // ---- Each life is a trace ------------------------------------------------------------------------------

  lemma {:induction false} LifeIsTrace(track: nat, ss: seq<Sighting>, p: Settings)
    ensures Life(Sees(p), track, ss) == if ss == [] then None else Some(Trace(ss, track == UNTRACKED, p).0)
  {
    if ss != [] {
      LifeIsTrace(track, ss[..|ss| - 1], p);
    }
  }

  /** In every run a key's state is the trace of its own sightings since its last erasure, and the next sighting
      of that track is answered as the trace answers it. */
  lemma EntryIsTrace(es: seq<Event<Sighting>>, track: nat, p: Settings, s: Sighting)
    ensures var own := OwnOf(es, track);
            && Get(Table(es, p), track) == (if own == [] then None else Some(Trace(own, track == UNTRACKED, p).0))
            && var pub := Answer(track, Get(Table(es, p), track), s, p).1;
               Trace(own + [s], track == UNTRACKED, p).1 ==
                 Trace(own, track == UNTRACKED, p).1 + (if pub.Some? then [Attempt(|own|, pub.value)] else [])
  {
    var own := OwnOf(es, track);
    KeyIsLife(Sees(p), LastSeen, Taken, es, track);
    LifeIsTrace(track, own, p);
    assert (own + [s])[..|own|] == own;
  }

  lemma {:induction false} OwnPlausible(es: seq<Event<Sighting>>, track: nat)
    requires Timed(es)
    ensures Plausible(OwnOf(es, track))
    ensures forall s :: s in OwnOf(es, track) ==> s.now <= Now(es)
  {
    if es != [] {
      var n := |es| - 1;
      TimedPrefix(es, n);
      OwnPlausible(es[..n], track);
      assert Now(es[..n]) <= Time(es[n]);
      var own := OwnOf(es[..n], track);
      forall i | 0 <= i < |own| ensures own[i].now <= Now(es[..n]) { assert own[i] in own; }
    }
  }

  /** So in every run the current life of a track is paced: first face at once, later ones no sooner than their
      windows and each the best since the one before, with the best since the last one pending in the table. */
  lemma LifePaced(es: seq<Event<Sighting>>, track: nat, p: Settings)
    requires Timed(es) && EntryOf(es, track, p).Some?
    ensures var own, as' := OwnOf(es, track), Trace(OwnOf(es, track), track == UNTRACKED, p).1;
            own != [] && Paced(own, as', track == UNTRACKED, p) && Pending(own, EntryOf(es, track, p).value, as')
  {
    KeyIsLife(Sees(p), LastSeen, Taken, es, track);
    LifeIsTrace(track, OwnOf(es, track), p);
    OwnPlausible(es, track);
    TracePaced(OwnOf(es, track), track == UNTRACKED, p);
  }

  // ---- What a run publishes ----------------------------------------------------------------------------------

  /** A publish of one track: the event that caused it, its time, the face, and whether it is a goodbye. */
  datatype Out = Out(event: nat, at: int, face: Sighting, bye: bool)

  /** What event number n publishes for a track. */
  function Emits(m: map<nat, Track>, e: Event<Sighting>, n: nat, track: nat, p: Settings): seq<Out> {
    match e
    case Seen(k, s) =>
      var pub := Answer(k, Get(m, k), s, p).1;
      if k == track && pub.Some? then [Out(n, s.now, pub.value, false)] else []
    case Prune(now) =>
      var bye := Goodbyes(m, now - STALE_MS);
      if track in bye then [Out(n, now, bye[track], true)] else []
  }

  /** Everything published for a track, with the bus attached. */
  function Outs(es: seq<Event<Sighting>>, track: nat, p: Settings): seq<Out> {
    if es == [] then []
    else
      var n := |es| - 1;
      Outs(es[..n], track, p) + Emits(Table(es[..n], p), es[n], n, track, p)
  }

  /** The entry of a track after one more event. */
  lemma NextEntry(m: map<nat, Track>, e: Event<Sighting>, n: nat, track: nat, p: Settings)
    ensures var o, o' := Get(m, track), Get(Step(Sees(p), LastSeen, m, e), track);
            match e
            case Seen(k, s) =>
              if k != track then o' == o && Emits(m, e, n, track, p) == []
              else
                var (t, pub) := Answer(track, o, s, p);
                o' == Some(t) && Emits(m, e, n, track, p) == if pub.Some? then [Out(n, s.now, pub.value, false)] else []
            case Prune(now) =>
              if o.Some? && o.value.lastSeen < now - STALE_MS
              then o' == None
                   && Emits(m, e, n, track, p) ==
                     if o.value.cand.Some? then [Out(n, now, o.value.cand.value, true)] else []
              else o' == o && Emits(m, e, n, track, p) == []
  {
  }

  /** What stays true of a table entry. */
  ghost predicate Sane(o: Option<Track>, now: int) {
    o.Some? ==>
      && o.value.published >= 1 && 0 < o.value.lastPub <= o.value.lastSeen <= now
      && o.value.bestQuality == if o.value.cand.Some? then o.value.cand.value.quality else -1.0
  }

  lemma {:induction false} EntrySane(es: seq<Event<Sighting>>, track: nat, p: Settings)
    requires Timed(es) && es != []
    ensures Sane(EntryOf(es, track, p), Time(es[|es| - 1]))
  {
    var n := |es| - 1;
    TimedPrefix(es, n);
    if n > 0 {
      EntrySane(es[..n], track, p);
      assert Time(es[n - 1]) <= Time(es[n]);
    }
    NextEntry(Table(es[..n], p), es[n], n, track, p);
  }

  // ---- Every sighting is represented ---------------------------------------------------------------------------

  /** The first publish caused at or after event i is at least as good as q. */
  ghost predicate Matched(outs: seq<Out>, i: nat, q: real) {
    exists m :: 0 <= m < |outs| && MatchedAt(outs, i, q, m)
  }

  ghost predicate MatchedAt(outs: seq<Out>, i: nat, q: real, m: nat)
    requires m < |outs|
  {
    i <= outs[m].event && (m > 0 ==> outs[m - 1].event < i) && q <= outs[m].face.quality
  }

  /** No publish was caused at or after event i, and the pending candidate is at least as good as q. */
  ghost predicate Awaits(outs: seq<Out>, o: Option<Track>, i: nat, q: real) {
    && (outs != [] ==> outs[|outs| - 1].event < i)
    && o.Some? && o.value.cand.Some? && q <= o.value.cand.value.quality
  }

  ghost predicate Ordered(outs: seq<Out>, n: nat) {
    && (forall m :: 0 <= m < |outs| ==> outs[m].event < n)
    && forall l, m :: 0 <= l < m < |outs| ==> outs[l].event < outs[m].event
  }

  lemma {:induction false} OutsOrdered(es: seq<Event<Sighting>>, track: nat, p: Settings)
    ensures Ordered(Outs(es, track, p), |es|)
  {
    if es != [] {
      var n := |es| - 1;
      OutsOrdered(es[..n], track, p);
      NextEntry(Table(es[..n], p), es[n], n, track, p);
    }
  }

  lemma MatchedStays(outs: seq<Out>, more: seq<Out>, i: nat, q: real)
    requires Matched(outs, i, q)
    ensures Matched(outs + more, i, q)
  {
    var m :| 0 <= m < |outs| && MatchedAt(outs, i, q, m);
    assert MatchedAt(outs + more, i, q, m);
  }

  lemma MatchedBy(outs: seq<Out>, x: Out, i: nat, q: real)
    requires (outs != [] ==> outs[|outs| - 1].event < i) && i <= x.event && q <= x.face.quality
    ensures Matched(outs + [x], i, q)
  {
    assert MatchedAt(outs + [x], i, q, |outs|);
  }

  /** Main result, for every run and every interleaving with other tracks and prune passes: with the bus attached
      each sighting of a track is matched or beaten by the first publish or goodbye from then on, or, while none has
      been sent, by the pending candidate. */
  lemma {:induction false} NothingBetterIsLost(es: seq<Event<Sighting>>, track: nat, p: Settings, i: nat)
    requires Timed(es) && i < |es| && es[i].Seen? && es[i].track == track
    ensures Matched(Outs(es, track, p), i, es[i].s.quality)
            || Awaits(Outs(es, track, p), EntryOf(es, track, p), i, es[i].s.quality)
  {
    var n := |es| - 1;
    var before := es[..n];
    TimedPrefix(es, n);
    if n > 0 {
      EntrySane(before, track, p);
      assert Time(es[n - 1]) <= Time(es[n]);
    }
    OutsOrdered(before, track, p);
    if i < n {
      assert before[i] == es[i];
      NothingBetterIsLost(before, track, p, i);
    }
    RepresentedStep(Table(before, p), Outs(before, track, p), es[n], n, track, p, i, es[i].s.quality);
  }

  lemma RepresentedStep(m: map<nat, Track>, outs: seq<Out>, e: Event<Sighting>, n: nat, track: nat, p: Settings, i: nat,
                        q: real)
    requires Ordered(outs, n) && Sane(Get(m, track), Time(e)) && (e.Seen? ==> e.s.quality >= 0.0)
    requires i < n ==> Matched(outs, i, q) || Awaits(outs, Get(m, track), i, q)
    requires i == n ==> e.Seen? && e.track == track && q == e.s.quality
    requires i <= n
    ensures var outs', o' := outs + Emits(m, e, n, track, p), Get(Step(Sees(p), LastSeen, m, e), track);
            Matched(outs', i, q) || Awaits(outs', o', i, q)
  {
    var more := Emits(m, e, n, track, p);
    NextEntry(m, e, n, track, p);
    assert more == [] ==> outs + more == outs;
    if Matched(outs, i, q) {
      MatchedStays(outs, more, i, q);
    } else if more != [] {
      MatchedBy(outs, more[0], i, q);
    }
  }

  /** So when a prune pass erases a track, every sighting of it has been matched or beaten by something sent. */
  lemma NoBestDiscarded(es: seq<Event<Sighting>>, track: nat, p: Settings, i: nat)
    requires Timed(es) && i < |es| && es[i].Seen? && es[i].track == track && EntryOf(es, track, p).None?
    ensures Matched(Outs(es, track, p), i, es[i].s.quality)
  {
    NothingBetterIsLost(es, track, p, i);
  }

  // ---- Rates over whole runs -------------------------------------------------------------------------------------

  /** The time of a track's first sighting. */
  function FirstSeen(es: seq<Event<Sighting>>, track: nat): Option<int> {
    if es == [] then None
    else
      var n := |es| - 1;
      var f := FirstSeen(es[..n], track);
      if f.None? && es[n].Seen? && es[n].track == track then Some(es[n].s.now) else f
  }

  /** How often a track started afresh: at its first sighting, and at the first after each erasure. */
  function Lives(es: seq<Event<Sighting>>, track: nat): nat {
    if es == [] then 0
    else
      var n := |es| - 1;
      Lives(es[..n], track) + (if es[n].Seen? && es[n].track == track && OwnOf(es[..n], track) == [] then 1 else 0)
  }

  /** Publishes that are not goodbyes. */
  function Windowed(outs: seq<Out>): nat {
    if outs == [] then 0 else Windowed(outs[..|outs| - 1]) + (if outs[|outs| - 1].bye then 0 else 1)
  }

  /** n publishes since start: each earlier one took an interval, and an erasure took thirty seconds. */
  ghost predicate Spaced(o: Option<Track>, n: nat, start: int, now: int, p: Settings) {
    && start <= now
    && (n - 1) * p.intervalMs <= (if o.Some? then o.value.lastPub else now - 2 * (STALE_MS / 3)) - start
  }

  function Capped(n: nat, p: Settings): int { if n < p.maxPerTrack then n else p.maxPerTrack }

  /** w windowed publishes in l lives since start: those beyond the budgets of the lives took thirty seconds each. */
  ghost predicate Budgeted(o: Option<Track>, w: nat, l: nat, start: int, now: int, p: Settings) {
    && l >= 1
    && if o.Some?
       then KEEPALIVE_MS * (w - Capped(o.value.published, p) - (l - 1) * (p.maxPerTrack - 1)) <= o.value.lastPub - start
       else KEEPALIVE_MS * (w - l * (p.maxPerTrack - 1)) <= now - start
  }

  lemma SpacedStep(o: Option<Track>, n: nat, start: int, now: int, s: Sighting, unbudgeted: bool, p: Settings)
    requires Clamped(p) && Spaced(o, n, start, now, p) && Sane(o, now) && now <= s.now
    ensures var (t, pub) := See(Entry(o), s, unbudgeted, p);
            Spaced(Some(t), if pub.Some? then n + 1 else n, start, s.now, p)
  {
    assert (n + 1 - 1) * p.intervalMs == (n - 1) * p.intervalMs + p.intervalMs;
  }

  lemma SpacedErased(t: Track, n: nat, start: int, now: int, prune: int, p: Settings)
    requires Clamped(p) && Spaced(Some(t), n, start, now, p) && Sane(Some(t), now) && now <= prune
    requires t.lastSeen < prune - STALE_MS
    ensures Spaced(None, n, start, prune, p) && Spaced(None, n + 1, start, prune, p)
  {
    assert (n + 1 - 1) * p.intervalMs == (n - 1) * p.intervalMs + p.intervalMs;
  }

  lemma BudgetedStep(o: Option<Track>, w: nat, l: nat, start: int, now: int, s: Sighting, p: Settings)
    requires Clamped(p) && Budgeted(o, w, l, start, now, p) && Sane(o, now) && now <= s.now
    ensures var (t, pub) := See(Entry(o), s, false, p);
            Budgeted(Some(t), if pub.Some? then w + 1 else w, if o.Some? then l else l + 1, start, s.now, p)
  {
  }

  lemma BudgetedErased(t: Track, w: nat, l: nat, start: int, now: int, prune: int, p: Settings)
    requires Clamped(p) && Budgeted(Some(t), w, l, start, now, p) && Sane(Some(t), now) && now <= prune
    requires t.lastSeen < prune - STALE_MS
    ensures Budgeted(None, w, l, start, prune, p)
  {
    assert l * (p.maxPerTrack - 1) == (l - 1) * (p.maxPerTrack - 1) + (p.maxPerTrack - 1);
  }

  lemma WindowedAppend(outs: seq<Out>, more: seq<Out>)
    requires |more| <= 1
    ensures Windowed(outs + more) == Windowed(outs) + (if more != [] && !more[0].bye then 1 else 0)
  {
    if more == [] {
      assert outs + more == outs;
    } else {
      assert (outs + more)[..|outs|] == outs;
    }
  }

  /** The accounts of a track: when it was first seen, its entry, what it published, and how many lives it had. */
  ghost predicate Books(first: Option<int>, o: Option<Track>, outs: seq<Out>, l: nat, now: int, track: nat,
                        p: Settings) {
    if first.None? then o == None && outs == [] && l == 0
    else
      && Spaced(o, |outs|, first.value, now, p)
      && (track != UNTRACKED ==> Budgeted(o, Windowed(outs), l, first.value, now, p))
  }

  lemma BooksPass(first: Option<int>, o: Option<Track>, outs: seq<Out>, l: nat, now: int, later: int, track: nat,
                  p: Settings)
    requires Books(first, o, outs, l, now, track, p) && now <= later
    ensures Books(first, o, outs, l, later, track, p)
  {
  }

  lemma BooksSeen(first: Option<int>, o: Option<Track>, outs: seq<Out>, l: nat, now: int, track: nat, s: Sighting,
                  n: nat, p: Settings)
    requires Clamped(p) && Books(first, o, outs, l, now, track, p) && Sane(o, now) && now <= s.now
    ensures var (t, pub) := Answer(track, o, s, p);
            Books(if first.None? then Some(s.now) else first, Some(t),
                  outs + (if pub.Some? then [Out(n, s.now, pub.value, false)] else []),
                  if o.Some? then l else l + 1, s.now, track, p)
  {
    var (t, pub) := Answer(track, o, s, p);
    WindowedAppend(outs, if pub.Some? then [Out(n, s.now, pub.value, false)] else []);
    if first.Some? {
      SpacedStep(o, |outs|, first.value, now, s, track == UNTRACKED, p);
      if track != UNTRACKED { BudgetedStep(o, Windowed(outs), l, first.value, now, s, p); }
    }
  }

  lemma BooksErased(first: Option<int>, t: Track, outs: seq<Out>, l: nat, now: int, track: nat, prune: int, n: nat,
                    p: Settings)
    requires Clamped(p) && Books(first, Some(t), outs, l, now, track, p) && Sane(Some(t), now) && now <= prune
    requires t.lastSeen < prune - STALE_MS
    ensures Books(first, None, outs + (if t.cand.Some? then [Out(n, prune, t.cand.value, true)] else []), l, prune,
      track, p)
  {
    WindowedAppend(outs, if t.cand.Some? then [Out(n, prune, t.cand.value, true)] else []);
    SpacedErased(t, |outs|, first.value, now, prune, p);
    if track != UNTRACKED { BudgetedErased(t, Windowed(outs), l, first.value, now, prune, p); }
  }

  lemma OwnIsEntry(es: seq<Event<Sighting>>, track: nat, p: Settings)
    ensures OwnOf(es, track) == [] <==> EntryOf(es, track, p).None?
  {
    KeyIsLife(Sees(p), LastSeen, Taken, es, track);
  }

  lemma {:induction false} BooksKept(es: seq<Event<Sighting>>, track: nat, p: Settings)
    requires Timed(es) && Clamped(p)
    ensures Books(FirstSeen(es, track), EntryOf(es, track, p), Outs(es, track, p), Lives(es, track), Now(es), track, p)
  {
    if es != [] {
      var n := |es| - 1;
      var before, e := es[..n], es[n];
      TimedPrefix(es, n);
      BooksKept(before, track, p);
      if n > 0 { EntrySane(before, track, p); }
      assert Now(before) <= Time(e);
      OwnIsEntry(before, track, p);
      NextBooks(FirstSeen(before, track), Table(before, p), Outs(before, track, p), Lives(before, track), Now(before),
        track, e, n, p);
    }
  }

  lemma NextBooks(first: Option<int>, m: map<nat, Track>, outs: seq<Out>, l: nat, now: int, track: nat,
                  e: Event<Sighting>, n: nat, p: Settings)
    requires Clamped(p) && Books(first, Get(m, track), outs, l, now, track, p) && Sane(Get(m, track), now)
    requires now <= Time(e)
    ensures var mine := e.Seen? && e.track == track;
            Books(if first.None? && mine then Some(e.s.now) else first, Get(Step(Sees(p), LastSeen, m, e), track),
                  outs + Emits(m, e, n, track, p), if mine && Get(m, track).None? then l + 1 else l, Time(e), track, p)
  {
    var o := Get(m, track);
    NextEntry(m, e, n, track, p);
    BooksPass(first, o, outs, l, now, Time(e), track, p);
    assert outs + [] == outs;
    match e
    case Seen(k, s) =>
      if k == track { BooksSeen(first, o, outs, l, now, track, s, n, p); }
    case Prune(at) =>
      if o.Some? && o.value.lastSeen < at - STALE_MS { BooksErased(first, o.value, outs, l, now, track, at, n, p); }
  }

  /** Main result, for every run, erasures and goodbyes included: within T of its first sighting a track is published
      at most 1 + T / interval times, and apart from goodbyes a tracked person at most
      max_per_track + T / 30 s times, plus max_per_track - 1 for each life after the first. */
  lemma RateBounded(es: seq<Event<Sighting>>, track: nat, p: Settings)
    requires Timed(es) && Clamped(p) && FirstSeen(es, track).Some?
    ensures var T := Now(es) - FirstSeen(es, track).value;
            && |Outs(es, track, p)| <= 1 + T / p.intervalMs
            && (track != UNTRACKED ==>
                  Windowed(Outs(es, track, p)) <= p.maxPerTrack + T / 30_000 +
                    (Lives(es, track) - 1) * (p.maxPerTrack - 1))
  {
    var o, outs, l, T := EntryOf(es, track, p), Outs(es, track, p), Lives(es, track),
      Now(es) - FirstSeen(es, track).value;
    BooksKept(es, track, p);
    EntrySane(es, track, p);
    SpacedRate(o, |outs|, T, FirstSeen(es, track).value, Now(es), p);
    if track != UNTRACKED { BudgetedRate(o, Windowed(outs), l, T, FirstSeen(es, track).value, Now(es), p); }
  }

  lemma SpacedRate(o: Option<Track>, n: nat, T: int, start: int, now: int, p: Settings)
    requires Clamped(p) && Spaced(o, n, start, now, p) && Sane(o, now) && T == now - start
    ensures n <= 1 + T / p.intervalMs
  {
    if n >= 1 { QuotientBound(n - 1, p.intervalMs, T); } else { QuotientBound(0, p.intervalMs, T); }
  }

  lemma BudgetedRate(o: Option<Track>, w: nat, l: nat, T: int, start: int, now: int, p: Settings)
    requires Clamped(p) && Budgeted(o, w, l, start, now, p) && Sane(o, now) && T == now - start >= 0
    ensures w <= p.maxPerTrack + T / KEEPALIVE_MS + (l - 1) * (p.maxPerTrack - 1)
  {
    assert l * (p.maxPerTrack - 1) == (l - 1) * (p.maxPerTrack - 1) + (p.maxPerTrack - 1);
  }

  // ---- When the budget holds ---------------------------------------------------------------------------------------

  /** n sightings of a track, one interval apart. */
  function Burst(track: nat, start: int, n: nat, p: Settings): seq<Event<Sighting>> {
    if n == 0 then []
    else Burst(track, start, n - 1, p) + [Seen(track, Sighting(start + (n - 1) * p.intervalMs, 0.0, 0))]
  }

  /** The state of one track's accounts, kept event by event. */
  datatype Account = Account(o: Option<Track>, windowed: nat, lives: nat, first: Option<int>, now: int, timed: bool)

  function Booked(a: Account, e: Event<Sighting>, track: nat, p: Settings): Account {
    var timed := a.timed && a.now <= Time(e) && Time(e) > 0 && (e.Seen? ==> e.s.quality >= 0.0);
    match e
    case Seen(k, s) =>
      if k != track then a.(now := s.now, timed := timed)
      else
        var (t, pub) := Answer(track, a.o, s, p);
        Account(Some(t), if pub.Some? then a.windowed + 1 else a.windowed, if a.o.None? then a.lives + 1 else a.lives,
                if a.first.None? then Some(s.now) else a.first, s.now, timed)
    case Prune(now) =>
      if a.o.Some? && a.o.value.lastSeen < now - STALE_MS then a.(o := None, now := now, timed := timed)
      else a.(now := now, timed := timed)
  }

  function AccountOf(es: seq<Event<Sighting>>, track: nat, p: Settings): Account {
    if es == [] then Account(None, 0, 0, None, 0, true)
    else Booked(AccountOf(es[..|es| - 1], track, p), es[|es| - 1], track, p)
  }

  lemma {:induction false} AccountExact(es: seq<Event<Sighting>>, track: nat, p: Settings)
    ensures var a := AccountOf(es, track, p);
            && a.o == EntryOf(es, track, p) && a.windowed == Windowed(Outs(es, track, p)) && a.lives == Lives(es, track)
            && a.first == FirstSeen(es, track) && a.now == Now(es)
  {
    if es != [] {
      AccountExact(es[..|es| - 1], track, p);
      BookedExact(es, track, p, AccountOf(es[..|es| - 1], track, p));
    }
  }

  lemma BookedExact(es: seq<Event<Sighting>>, track: nat, p: Settings, a: Account)
    requires es != []
    requires var before := es[..|es| - 1];
             && a.o == EntryOf(before, track, p) && a.windowed == Windowed(Outs(before, track, p))
             && a.lives == Lives(before, track) && a.first == FirstSeen(before, track) && a.now == Now(before)
    ensures var b := Booked(a, es[|es| - 1], track, p);
            && b.o == EntryOf(es, track, p) && b.windowed == Windowed(Outs(es, track, p)) && b.lives == Lives(es, track)
            && b.first == FirstSeen(es, track) && b.now == Now(es)
  {
    var n := |es| - 1;
    OwnIsEntry(es[..n], track, p);
    BookedEntry(a, Table(es[..n], p), Outs(es[..n], track, p), es[n], n, track, p);
  }

  lemma BookedEntry(a: Account, m: map<nat, Track>, outs: seq<Out>, e: Event<Sighting>, n: nat, track: nat, p: Settings)
    requires a.o == Get(m, track) && a.windowed == Windowed(outs)
    ensures Booked(a, e, track, p).o == Get(Step(Sees(p), LastSeen, m, e), track)
    ensures Booked(a, e, track, p).windowed == Windowed(outs + Emits(m, e, n, track, p))
  {
    NextEntry(m, e, n, track, p);
    WindowedAppend(outs, Emits(m, e, n, track, p));
  }

  lemma {:induction false} AccountTimed(es: seq<Event<Sighting>>, track: nat, p: Settings)
    requires AccountOf(es, track, p).timed
    ensures Timed(es)
  {
    if es != [] {
      var n := |es| - 1;
      AccountTimed(es[..n], track, p);
      AccountExact(es[..n], track, p);
      TimedSnoc(es, n);
    }
  }

  lemma TimedSnoc(es: seq<Event<Sighting>>, n: nat)
    requires n + 1 == |es| && Timed(es[..n]) && Now(es[..n]) <= Time(es[n]) && Time(es[n]) > 0
    requires es[n].Seen? ==> es[n].s.quality >= 0.0
    ensures Timed(es)
  {
    forall i | 0 <= i < n ensures Time(es[i]) <= Time(es[n]) {
      assert es[..n][i] == es[i] && Time(es[..n][i]) <= Now(es[..n]);
    }
    forall i, j | 0 <= i < j < |es| ensures Time(es[i]) <= Time(es[j]) {
      if j < n { assert es[..n][i] == es[i] && es[..n][j] == es[j]; }
    }
    forall i | 0 <= i < |es| ensures Time(es[i]) > 0 && (es[i].Seen? ==> es[i].s.quality >= 0.0) {
      if i < n { assert es[..n][i] == es[i]; }
    }
  }

  lemma AccountMeans(es: seq<Event<Sighting>>, track: nat, p: Settings, o: Option<Track>, w: nat, l: nat, first: int,
                     now: int)
    requires AccountOf(es, track, p) == Account(o, w, l, Some(first), now, true)
    ensures Timed(es) && FirstSeen(es, track) == Some(first) && Lives(es, track) == l
    ensures Windowed(Outs(es, track, p)) == w && Now(es) == now
  {
    AccountExact(es, track, p);
    AccountTimed(es, track, p);
  }

  lemma AccountSnoc(es: seq<Event<Sighting>>, e: Event<Sighting>, track: nat, p: Settings)
    ensures AccountOf(es + [e], track, p) == Booked(AccountOf(es, track, p), e, track, p)
  {
    assert (es + [e])[..|es|] == es;
  }

  /** The account of a track that has just spent n publishes of its life. */
  function SpentAccount(a: Account, n: nat, start: int, last: int): Account {
    Account(Some(Track(n, last, last, -1.0, None)), a.windowed + n, a.lives + 1,
            if a.first.None? then Some(start) else a.first, last, true)
  }

  lemma BookedNext(a: Account, n: nat, start: int, last: int, track: nat, p: Settings)
    requires Clamped(p) && 1 <= n < p.maxPerTrack && 0 < last
    ensures Booked(SpentAccount(a, n, start, last), Seen(track, Sighting(last + p.intervalMs, 0.0, 0)), track, p)
            == SpentAccount(a, n + 1, start, last + p.intervalMs)
  {
  }

  lemma {:induction false} BurstSpends(es: seq<Event<Sighting>>, track: nat, start: int, n: nat, last: int, p: Settings)
    requires Clamped(p) && 1 <= n <= p.maxPerTrack && last == start + (n - 1) * p.intervalMs
    requires var a := AccountOf(es, track, p); a.o.None? && a.timed && a.now <= start && start > 0
    ensures AccountOf(es + Burst(track, start, n, p), track, p) == SpentAccount(AccountOf(es, track, p), n, start, last)
  {
    var e := Seen(track, Sighting(last, 0.0, 0));
    var before := es + Burst(track, start, n - 1, p);
    assert es + Burst(track, start, n, p) == before + [e];
    AccountSnoc(before, e, track, p);
    if n == 1 {
      assert before == es;
    } else {
      StepTime(start, n, p.intervalMs);
      BurstSpends(es, track, start, n - 1, last - p.intervalMs, p);
      BookedNext(AccountOf(es, track, p), n - 1, start, last - p.intervalMs, track, p);
    }
  }

  lemma StepTime(start: int, n: nat, i: int)
    requires n >= 2 && i >= 0
    ensures start + (n - 1) * i == start + (n - 2) * i + i && (n - 2) * i >= 0
  {
  }

  /** A full budget, an erasure thirty seconds later, and a full budget again. */
  function Restart(track: nat, m: nat, turned: int, p: Settings): seq<Event<Sighting>> {
    Burst(track, 1, m, p) + [Event<Sighting>.Prune(turned)] + Burst(track, turned, m, p)
  }

  lemma FirstHalf(track: nat, m: nat, now: int, p: Settings)
    requires Clamped(p) && m == p.maxPerTrack && now == 1 + (m - 1) * p.intervalMs
    ensures AccountOf(Burst(track, 1, m, p), track, p) ==
      Account(Some(Track(m, now, now, -1.0, None)), m, 1, Some(1), now, true)
  {
    BurstSpends([], track, 1, m, now, p);
    assert [] + Burst(track, 1, m, p) == Burst(track, 1, m, p);
  }

  lemma RestartAccount(track: nat, m: nat, now: int, turned: int, last: int, p: Settings)
    requires Clamped(p) && m == p.maxPerTrack && now == 1 + (m - 1) * p.intervalMs && now > 0
    requires turned == now + STALE_MS + 1 && last == turned + (m - 1) * p.intervalMs
    ensures AccountOf(Restart(track, m, turned, p), track, p) ==
      Account(Some(Track(m, last, last, -1.0, None)), m + m, 2, Some(1), last, true)
  {
    FirstHalf(track, m, now, p);
    AccountSnoc(Burst(track, 1, m, p), Event<Sighting>.Prune(turned), track, p);
    BurstSpends(Burst(track, 1, m, p) + [Event<Sighting>.Prune(turned)], track, turned, m, last, p);
  }

  /** When the erasing pass of a restart runs. */
  function Turned(p: Settings): int { 1 + (p.maxPerTrack - 1) * p.intervalMs + STALE_MS + 1 }

  lemma RestartMeans(track: nat, m: nat, turned: int, last: int, p: Settings)
    requires Clamped(p) && m == p.maxPerTrack && turned == Turned(p) && last == turned + (m - 1) * p.intervalMs
    ensures var es := Restart(track, m, turned, p);
            && Timed(es) && FirstSeen(es, track) == Some(1) && Lives(es, track) == 2
            && Windowed(Outs(es, track, p)) == m + m && Now(es) == last
  {
    var now := 1 + (m - 1) * p.intervalMs;
    assert (m - 1) * p.intervalMs >= 0;
    RestartAccount(track, m, now, turned, last, p);
    AccountMeans(Restart(track, m, turned, p), track, p, Some(Track(m, last, last, -1.0, None)), m + m, 2, 1, last);
  }

  /** One erasure between sightings breaks the promised budget as soon as the budget is two or more. */
  lemma RestartBreaksBudget(track: nat, p: Settings) returns (es: seq<Event<Sighting>>)
    requires Clamped(p) && p.maxPerTrack >= 2
    ensures es == Restart(track, p.maxPerTrack, Turned(p), p)
    ensures Timed(es) && FirstSeen(es, track) == Some(1) && Lives(es, track) == 2
    ensures Windowed(Outs(es, track, p)) == 2 * p.maxPerTrack > p.maxPerTrack + (Now(es) - 1) / KEEPALIVE_MS
  {
    var last := Turned(p) + (p.maxPerTrack - 1) * p.intervalMs;
    es := Restart(track, p.maxPerTrack, Turned(p), p);
    RestartMeans(track, p.maxPerTrack, Turned(p), last, p);
    OverBudget(p, last);
  }

  lemma OverBudget(p: Settings, last: int)
    requires Clamped(p) && p.maxPerTrack >= 2 && last == Turned(p) + (p.maxPerTrack - 1) * p.intervalMs
    ensures 2 * p.maxPerTrack > p.maxPerTrack + (last - 1) / KEEPALIVE_MS
  {
    Overspent(p.maxPerTrack, p.intervalMs, 1 + (p.maxPerTrack - 1) * p.intervalMs, Turned(p), last);
  }

  lemma Overspent(m: nat, i: int, now: int, turned: int, last: int)
    requires m >= 2 && 250 <= i <= 10000 && now == 1 + (m - 1) * i && turned == now + STALE_MS + 1
    requires last == turned + (m - 1) * i
    ensures now > 0 && 2 * m > m + (last - 1) / KEEPALIVE_MS
  {
    assert 0 <= (m - 1) * i <= (m - 1) * 10000;
  }

  /** For example, four publishes in 30.5 s where two per track and one per half minute were promised. */
  lemma FourInThirtySeconds()
    ensures var p := Settings(250, 2);
            var es := [Seen(0, Sighting(1, 0.0, 0)), Seen(0, Sighting(251, 0.0, 0)), Event.Prune(30252),
                       Seen(0, Sighting(30252, 0.0, 0)), Seen(0, Sighting(30502, 0.0, 0))];
            Windowed(Outs(es, 0, p)) == 4 && p.maxPerTrack + (Now(es) - 1) / KEEPALIVE_MS == 3
  {
    var p := Settings(250, 2);
    var es := [Seen(0, Sighting(1, 0.0, 0)), Seen(0, Sighting(251, 0.0, 0)), Event.Prune(30252),
               Seen(0, Sighting(30252, 0.0, 0)), Seen(0, Sighting(30502, 0.0, 0))];
    var restart := RestartBreaksBudget(0, p);
    assert Burst(0, 1, 1, p) == [es[0]] && Burst(0, 30252, 1, p) == [es[3]];
    assert restart == es;
  }

  /** The promise over every run in which a tracked person is erased between sightings at most k times. */
  ghost predicate BudgetPromised(p: Settings, k: nat) {
    forall es: seq<Event<Sighting>>, track: nat ::
      Timed(es) && track != UNTRACKED && FirstSeen(es, track).Some? && Lives(es, track) <= k + 1 ==>
        WithinBudget(es, track, p)
  }

  /** At most max_per_track windowed publishes, and one for every thirty seconds. */
  ghost predicate WithinBudget(es: seq<Event<Sighting>>, track: nat, p: Settings)
    requires FirstSeen(es, track).Some?
  {
    Windowed(Outs(es, track, p)) <= p.maxPerTrack + (Now(es) - FirstSeen(es, track).value) / 30_000
  }

  /** The budget holds exactly when no erasure comes between sightings, or when it is one face per track. */
  lemma BudgetExactly(p: Settings, k: nat)
    requires Clamped(p)
    ensures BudgetPromised(p, k) <==> k == 0 || p.maxPerTrack == 1
  {
    if k == 0 || p.maxPerTrack == 1 {
      forall es: seq<Event<Sighting>>, track: nat |
        Timed(es) && track != UNTRACKED && FirstSeen(es, track).Some? && Lives(es, track) <= k + 1
        ensures WithinBudget(es, track, p)
      {
        BudgetKept(es, track, k, p);
      }
    } else {
      var es := RestartBreaksBudget(0, p);
      assert Lives(es, 0) <= k + 1 && !WithinBudget(es, 0, p);
    }
  }

  lemma BudgetKept(es: seq<Event<Sighting>>, track: nat, k: nat, p: Settings)
    requires Clamped(p) && Timed(es) && track != UNTRACKED && FirstSeen(es, track).Some? && Lives(es, track) <= k + 1
    requires k == 0 || p.maxPerTrack == 1
    ensures WithinBudget(es, track, p)
  {
    RateBounded(es, track, p);
    SomeLife(es, track, p);
    NothingExtra(Lives(es, track), k, p.maxPerTrack);
  }

  lemma SomeLife(es: seq<Event<Sighting>>, track: nat, p: Settings)
    requires Clamped(p) && Timed(es) && track != UNTRACKED && FirstSeen(es, track).Some?
    ensures Lives(es, track) >= 1
  {
    BooksKept(es, track, p);
  }

  lemma NothingExtra(l: nat, k: nat, m: int)
    requires 1 <= l <= k + 1 && (k == 0 || m == 1)
    ensures (l - 1) * (m - 1) == 0
  {
  }
}
