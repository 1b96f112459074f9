/** The probe's tables of per-track state: what a run of sightings and prune passes leaves under each key. */
module Tables {
  import opened Options

  /** A track is erased when it has not been seen for this long. */
  const STALE_MS: int := 30000

  /** A sighting of one track, or a prune pass at a clock reading. */
  datatype Event<S> = Seen(track: nat, s: S) | Prune(now: int)

  function Get<T>(m: map<nat, T>, track: nat): Option<T> {
    if track in m then Some(m[track]) else None
  }

  function Pruned<T>(seenAt: T -> int, m: map<nat, T>, cutoff: int): map<nat, T> {
    map k | k in m && seenAt(m[k]) >= cutoff :: m[k]
  }

  function Step<S, T>(see: (nat, Option<T>, S) -> T, seenAt: T -> int, m: map<nat, T>, e: Event<S>): map<nat, T> {
    match e
    case Seen(track, s) => m[track := see(track, Get(m, track), s)]
    case Prune(now) => Pruned(seenAt, m, now - STALE_MS)
  }

  function Run<S, T>(see: (nat, Option<T>, S) -> T, seenAt: T -> int, es: seq<Event<S>>): map<nat, T> {
    if es == [] then map[] else Step(see, seenAt, Run(see, seenAt, es[..|es| - 1]), es[|es| - 1])
  }

  /** The sightings of a track since it was last erased. */
  function Own<S>(at: S -> int, es: seq<Event<S>>, track: nat): seq<S> {
    if es == [] then []
    else
      var n := |es| - 1;
      NextOwn(at, Own(at, es[..n], track), es[n], track)
  }

  function NextOwn<S>(at: S -> int, own: seq<S>, e: Event<S>, track: nat): seq<S> {
    match e
    case Seen(k, s) => if k == track then own + [s] else own
    case Prune(now) => if own != [] && at(own[|own| - 1]) < now - STALE_MS then [] else own
  }

  /** The state a track reaches from nothing over its sightings alone. */
  function Life<S, T>(see: (nat, Option<T>, S) -> T, track: nat, ss: seq<S>): Option<T> {
    if ss == [] then None else Some(see(track, Life(see, track, ss[..|ss| - 1]), ss[|ss| - 1]))
  }

  /** In every run, whatever other tracks and prune passes come in between, a key holds the state its own
      sightings since its last erasure lead to. */
  lemma {:induction false} KeyIsLife<S, T>(see: (nat, Option<T>, S) -> T, seenAt: T -> int, at: S -> int,
                                           es: seq<Event<S>>, track: nat)
    requires forall k, o, s :: seenAt(see(k, o, s)) == at(s)
    ensures Get(Run(see, seenAt, es), track) == Life(see, track, Own(at, es, track))
  {
    if es != [] {
      var n := |es| - 1;
      KeyIsLife(see, seenAt, at, es[..n], track);
      KeyStep(see, seenAt, at, Run(see, seenAt, es[..n]), Own(at, es[..n], track), es[n], track);
    }
  }

  lemma KeyStep<S, T>(see: (nat, Option<T>, S) -> T, seenAt: T -> int, at: S -> int,
                      m: map<nat, T>, own: seq<S>, e: Event<S>, track: nat)
    requires forall k, o, s :: seenAt(see(k, o, s)) == at(s)
    requires Get(m, track) == Life(see, track, own)
    ensures Get(Step(see, seenAt, m, e), track) == Life(see, track, NextOwn(at, own, e, track))
  {
    if e.Seen? && e.track == track {
      assert (own + [e.s])[..|own|] == own;
    }
  }
}
