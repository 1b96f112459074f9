/** The probe's table of object tracks: thinning over runs of sightings of many tracks and prune passes. */
module ObjectTable {
  import opened Options
  import opened Tables
  import opened Thinning

  function Taken(s: Sighting): int { s.now }

  function LastSeen(t: TrackPub): int { t.lastSeen }

  function Entry(o: Option<TrackPub>): TrackPub { if o.Some? then o.value else UNPUBLISHED }

  function Sees(k: Knobs): (nat, Option<TrackPub>, Sighting) -> TrackPub {
    (track: nat, o: Option<TrackPub>, s: Sighting) => See(Entry(o), s, k).0
  }

  function Table(es: seq<Event<Sighting>>, k: Knobs): map<nat, TrackPub> { Run(Sees(k), LastSeen, es) }

  function OwnOf(es: seq<Event<Sighting>>, track: nat): seq<Sighting> { Own(Taken, es, track) }

  class Objects {
    var trackPub: map<nat, TrackPub>
    const knobs: Knobs

    constructor (knobs: Knobs)
      ensures trackPub == map[] && this.knobs == knobs
    {
      trackPub := map[];
      this.knobs := knobs;
    }

    method OnObject(track: nat, s: Sighting) returns (publish: bool)
      modifies this`trackPub
      ensures trackPub == Step(Sees(knobs), LastSeen, old(trackPub), Seen(track, s))
      ensures publish == See(Entry(Get(old(trackPub), track)), s, knobs).1
    {
      var tp := if track in trackPub then trackPub[track] else UNPUBLISHED;
      tp := tp.(lastSeen := s.now);
      var first := tp.box.x < 0.0;
      var moved := !first
        && (Abs(s.box.x - tp.box.x) > knobs.eps || Abs(s.box.y - tp.box.y) > knobs.eps
            || Abs(s.box.w - tp.box.w) > knobs.eps || Abs(s.box.h - tp.box.h) > knobs.eps);
      var reclassed := !first && tp.cls != s.cls;
      var keepalive := !first && s.now - tp.lastPub > knobs.keepaliveMs;
      publish := first || moved || reclassed || keepalive;
      if publish {
        tp := tp.(box := s.box, cls := s.cls, lastPub := s.now);
      }
      trackPub := trackPub[track := tp];
    }

    method Prune(now: int)
      modifies this`trackPub
      ensures trackPub == Step(Sees(knobs), LastSeen, old(trackPub), Event.Prune(now))
    {
      var cutoff := now - STALE_MS;
      ghost var before := trackPub;
      var todo := trackPub.Keys;
      while todo != {}
        invariant todo <= trackPub.Keys <= before.Keys
        invariant forall k :: k in trackPub ==> trackPub[k] == before[k]
        invariant forall k :: k in before && k !in todo ==> (k in trackPub <==> before[k].lastSeen >= cutoff)
        decreases |todo|
      {
        var k :| k in todo;
        todo := todo - {k};
        if trackPub[k].lastSeen < cutoff {
          trackPub := trackPub - {k};
        }
      }
    }
  }

  // ---- Each life is a trace --------------------------------------------------------------------------------

  lemma {:induction false} LifeIsTrace(track: nat, ss: seq<Sighting>, k: Knobs)
    ensures Life(Sees(k), track, ss) == if ss == [] then None else Some(Trace(ss, k).0)
  {
    if ss != [] { LifeIsTrace(track, ss[..|ss| - 1], k); }
  }

  lemma EntryIsTrace(es: seq<Event<Sighting>>, track: nat, k: Knobs)
    ensures Get(Table(es, k), track) == if OwnOf(es, track) == [] then None else Some(Trace(OwnOf(es, track), k).0)
  {
    KeyIsLife(Sees(k), LastSeen, Taken, es, track);
    LifeIsTrace(track, OwnOf(es, track), k);
  }

  ghost predicate ClampedRun(es: seq<Event<Sighting>>) {
    forall i :: 0 <= i < |es| && es[i].Seen? ==> InUnit(es[i].s.box)
  }

  lemma {:induction false} OwnClamped(es: seq<Event<Sighting>>, track: nat)
    requires ClampedRun(es)
    ensures ClampedTrace(OwnOf(es, track))
  {
    if es != [] { OwnClamped(es[..|es| - 1], track); }
  }

  /** In every run, whatever prune passes come in between: the current life of a track is thinned, its entry records
      the last published sighting of that life, and so stands for what was last seen. */
  lemma LifeThinned(es: seq<Event<Sighting>>, track: nat, k: Knobs)
    requires ClampedRun(es) && track in Table(es, k)
    ensures var own, pubs := OwnOf(es, track), Trace(OwnOf(es, track), k).1;
            own != [] && Thinned(own, pubs, k)
            && Records(Table(es, k)[track], own[pubs[|pubs| - 1]], own[|own| - 1].now)
  {
    EntryIsTrace(es, track, k);
    OwnClamped(es, track);
    StalenessBounded(OwnOf(es, track), k);
  }

  // ---- What subscribers see ----------------------------------------------------------------------------------

  /** Whether the next sighting of a track is published. */
  predicate Publishes(es: seq<Event<Sighting>>, track: nat, s: Sighting, k: Knobs) {
    See(Entry(Get(Table(es, k), track)), s, k).1
  }

  /** The last sighting of a track that was published, erasures or not. */
  function LastPublished(es: seq<Event<Sighting>>, track: nat, k: Knobs): Option<Sighting> {
    if es == [] then None
    else
      var n := |es| - 1;
      if es[n].Seen? && es[n].track == track && Publishes(es[..n], track, es[n].s, k) then Some(es[n].s)
      else LastPublished(es[..n], track, k)
  }

  ghost predicate Mirrors(o: Option<TrackPub>, last: Option<Sighting>) {
    o.Some? ==> last.Some? && InUnit(last.value.box) && Records(o.value, last.value, o.value.lastSeen)
  }

  lemma {:induction false} TableMirrors(es: seq<Event<Sighting>>, track: nat, k: Knobs)
    requires ClampedRun(es)
    ensures Mirrors(Get(Table(es, k), track), LastPublished(es, track, k))
  {
    if es != [] { TableMirrors(es[..|es| - 1], track, k); }
  }

  /** Main result, for every run: a sighting is published exactly when the track is new or was erased since, or when
      the last one published no longer stands for it; and after every sighting the last one published is within eps on
      all four coordinates, of the same class and within the keepalive. */
  lemma StalenessBoundedInRuns(es: seq<Event<Sighting>>, track: nat, s: Sighting, k: Knobs)
    requires ClampedRun(es + [Seen(track, s)]) && k.eps >= 0.0 && k.keepaliveMs >= 0
    ensures OwnOf(es, track) != [] ==> LastPublished(es, track, k).Some?
    ensures Publishes(es, track, s, k) <==>
              OwnOf(es, track) == [] || !StandsFor(LastPublished(es, track, k).value, s, k)
    ensures var last := LastPublished(es + [Seen(track, s)], track, k); last.Some? && StandsFor(last.value, s, k)
  {
    var all := es + [Seen(track, s)];
    assert all[..|es|] == es;
    assert ClampedRun(es) by { assert forall i :: 0 <= i < |es| ==> all[i] == es[i]; }
    TableMirrors(es, track, k);
    EntryIsTrace(es, track, k);
  }
}
