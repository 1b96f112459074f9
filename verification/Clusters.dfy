/** The nightly face-clustering batch: labels are matched to stored clusters and the unenrolled part of
    the cluster tables is rewritten. The clustering itself, centroids and cosines are abstract. */
module Clusters {
  import opened Ordering

  const CLUSTER_MATCH: real := 0.6
  const NOISE: int := -1

  datatype Cluster<V> = Cluster(centroid: V, memberCount: nat, representative: int, enrolled: bool)

  datatype Report = Report(
    decoded: nat, clustersWritten: nat, membersWritten: nat, preserved: nat, created: nat, noise: nat)

  /** Positions carrying a label, ascending. */
  function Positions(labels: seq<int>, lab: int): (r: seq<nat>)
    ensures forall i :: i in r <==> 0 <= i < |labels| && labels[i] == lab
    ensures NoDuplicates(r) && |r| == CountIn(labels, {lab})
  {
    if labels == [] then []
    else
      var n := |labels| - 1;
      var r := Positions(labels[..n], lab);
      Snoc(r, n);
      if labels[n] == lab then r + [n] else r
  }

  lemma Snoc(r: seq<nat>, n: nat)
    requires NoDuplicates(r) && n !in r
    ensures NoDuplicates(r + [n])
  {
  }

  function CountIn(labels: seq<int>, s: set<int>): nat {
    if labels == [] then 0
    else CountIn(labels[..|labels| - 1], s) + (if labels[|labels| - 1] in s then 1 else 0)
  }

  lemma {:induction false} CountSplits(labels: seq<int>, s: set<int>, x: int)
    requires x !in s
    ensures CountIn(labels, s + {x}) == CountIn(labels, s) + CountIn(labels, {x})
  {
    if labels != [] { CountSplits(labels[..|labels| - 1], s, x); }
  }

  lemma {:induction false} CountNone(labels: seq<int>)
    ensures CountIn(labels, {}) == 0
  {
    if labels != [] { CountNone(labels[..|labels| - 1]); }
  }

  lemma {:induction false} CountAll(labels: seq<int>, s: set<int>)
    requires forall i :: 0 <= i < |labels| ==> labels[i] in s
    ensures CountIn(labels, s) == |labels|
  {
    if labels != [] {
      var n := |labels| - 1;
      assert forall i :: 0 <= i < n ==> labels[..n][i] == labels[i];
      CountAll(labels[..n], s);
    }
  }

  predicate Below(a: int, b: int) { a < b }

  /** The distinct labels other than noise, ascending. */
  method UniqueLabels(labels: seq<int>) returns (labs: seq<int>)
    ensures NoDuplicates(labs) && forall l :: l in labs <==> l in labels && l != NOISE
    ensures StrictlySorted(Below, labs)
  {
    var found: seq<int> := [];
    for i := 0 to |labels|
      invariant NoDuplicates(found)
      invariant forall l :: l in found <==> l in labels[..i] && l != NOISE
    {
      assert labels[..i + 1] == labels[..i] + [labels[i]];
      if labels[i] != NOISE && labels[i] !in found { found := found + [labels[i]]; }
    }
    assert labels[..|labels|] == labels;
    labs := Sort(Below, found);
    NoDuplicatesFromMultiset(found, labs);
  }

  datatype Candidate<V> = Candidate(id: string, centroid: V)

  /** The most similar stored cluster, if any beats -1; the first of equals. */
  method BestMatch<V>(existing: seq<Candidate<V>>, sim: (V, V) -> real, c: V) returns (best: int, bestSim: real)
    ensures -1 <= best < |existing|
    ensures best >= 0 ==> bestSim == sim(c, existing[best].centroid) && bestSim > -1.0
    ensures best < 0 ==> bestSim == -1.0
    ensures forall j :: 0 <= j < |existing| ==> sim(c, existing[j].centroid) <= bestSim
  {
    best, bestSim := -1, -1.0;
    for j := 0 to |existing|
      invariant -1 <= best < j
      invariant best >= 0 ==> bestSim == sim(c, existing[best].centroid) && bestSim > -1.0
      invariant best < 0 ==> bestSim == -1.0
      invariant forall k :: 0 <= k < j ==> sim(c, existing[k].centroid) <= bestSim
    {
      var s := sim(c, existing[j].centroid);
      if s > bestSim { best, bestSim := j, s; }
    }
  }

  // ---- What the batch leaves behind -----------------------------------------------------------------

  /** The members written for the labels that have claimed a cluster. */
  ghost function Written(detIds: seq<int>, labels: seq<int>, claimed: map<int, string>): set<(string, int)>
    requires |detIds| == |labels|
  {
    set i | 0 <= i < |labels| && labels[i] in claimed :: (claimed[labels[i]], detIds[i])
  }

  ghost predicate Injective(m: map<int, string>) {
    forall a, b :: a in m && b in m && m[a] == m[b] ==> a == b
  }

  ghost predicate Claims(claimed: map<int, string>, id: string) {
    exists lab :: lab in claimed && claimed[lab] == id
  }

  /** A cluster row as the batch writes it. */
  ghost predicate IsRow<V>(detIds: seq<int>, labels: seq<int>, lab: int, centroidOf: seq<nat> -> V, row: Cluster<V>)
    requires |detIds| == |labels|
  {
    var idx := Positions(labels, lab);
    idx != [] && idx[0] < |detIds| && row == Cluster(centroidOf(idx), |idx|, detIds[idx[0]], false)
  }

  ghost function EnrolledMembers<V>(clusters: map<string, Cluster<V>>,
                                    members: set<(string, int)>): set<(string, int)> {
    set m | m in members && m.0 in clusters && clusters[m.0].enrolled
  }

  /** Half way through: claimed labels have their rows, enrolled clusters are as they were. */
  ghost predicate Progress<V>(detIds: seq<int>, labels: seq<int>, centroidOf: seq<nat> -> V, claimed: map<int, string>,
                              c0: map<string, Cluster<V>>, clusters: map<string, Cluster<V>>)
    requires |detIds| == |labels|
  {
    && Injective(claimed)
    && (forall lab :: lab in claimed ==>
          lab != NOISE && claimed[lab] in clusters && IsRow(detIds, labels, lab, centroidOf, clusters[claimed[lab]]))
    && (forall id :: id in c0 && c0[id].enrolled ==> id in clusters && clusters[id] == c0[id])
    && (forall id :: id in clusters && !Claims(claimed, id) ==> id in c0 && clusters[id] == c0[id])
  }

  /** The batch's whole effect: the labels other than noise claim distinct clusters, which become exactly
      the unenrolled clusters, each with its row; enrolled clusters keep row and members; and the members of
      unenrolled clusters are the labelled detections. */
  ghost predicate Rewritten<V>(detIds: seq<int>, labels: seq<int>, centroidOf: seq<nat> -> V, claimed: map<int, string>,
                               c0: map<string, Cluster<V>>, m0: set<(string, int)>,
                               clusters: map<string, Cluster<V>>, members: set<(string, int)>)
    requires |detIds| == |labels|
  {
    && Progress(detIds, labels, centroidOf, claimed, c0, clusters)
    && (forall lab :: lab in claimed <==> lab in labels && lab != NOISE)
    && (forall id :: id in clusters <==> Claims(claimed, id) || (id in c0 && c0[id].enrolled))
    && members == EnrolledMembers(c0, m0) + Written(detIds, labels, claimed)
  }

  ghost predicate Pool<V>(existing: seq<Candidate<V>>, claimed: map<int, string>, c0: map<string, Cluster<V>>) {
    && (forall j :: 0 <= j < |existing| ==>
          existing[j].id in c0 && !c0[existing[j].id].enrolled && !Claims(claimed, existing[j].id))
    && forall i, j :: 0 <= i < j < |existing| ==> existing[i].id != existing[j].id
  }

  /** A stored cluster a label may still take: unenrolled and not claimed. */
  ghost predicate Open<V>(claimed: map<int, string>, c0: map<string, Cluster<V>>, id: string) {
    id in c0 && !c0[id].enrolled && !Claims(claimed, id)
  }

  ghost predicate InPool<V>(existing: seq<Candidate<V>>, id: string) {
    exists j :: 0 <= j < |existing| && existing[j].id == id
  }

  /** The pool lists exactly the open clusters, with their stored centroids. */
  ghost predicate Listed<V>(existing: seq<Candidate<V>>, claimed: map<int, string>, c0: map<string, Cluster<V>>) {
    && (forall id :: InPool(existing, id) <==> Open(claimed, c0, id))
    && (forall j :: 0 <= j < |existing| ==> existing[j].id in c0 && existing[j].centroid == c0[existing[j].id].centroid)
  }

  /** What a label with centroid c takes when the labels of `claimed` came before it: the best open cluster if that is
      similar enough, else a new one. */
  ghost predicate Choice<V>(claimed: map<int, string>, c0: map<string, Cluster<V>>, c: V, sim: (V, V) -> real,
                            id: string) {
    if id in c0 then
      && Open(claimed, c0, id) && sim(c, c0[id].centroid) >= CLUSTER_MATCH
      && forall x :: Open(claimed, c0, x) ==> sim(c, c0[x].centroid) <= sim(c, c0[id].centroid)
    else
      forall x :: Open(claimed, c0, x) ==> sim(c, c0[x].centroid) < CLUSTER_MATCH
  }

  /** The clusters claimed by smaller labels. */
  ghost function Before(claimed: map<int, string>, lab: int): map<int, string> {
    map l | l in claimed && l < lab :: claimed[l]
  }

  ghost predicate Settled<V>(labels: seq<int>, claimed: map<int, string>, c0: map<string, Cluster<V>>,
                             centroidOf: seq<nat> -> V, sim: (V, V) -> real) {
    forall lab :: lab in claimed ==>
      Choice(Before(claimed, lab), c0, centroidOf(Positions(labels, lab)), sim, claimed[lab])
  }

  /** The labels that kept a stored id. */
  ghost function Kept<V>(claimed: map<int, string>, c0: map<string, Cluster<V>>): set<int> {
    set lab | lab in claimed && claimed[lab] in c0
  }

  lemma BeforeLast(claimed: map<int, string>, lab: int, id: string)
    requires forall l :: l in claimed ==> l < lab
    ensures var claimed' := claimed[lab := id];
            Before(claimed', lab) == claimed && forall l :: l in claimed ==> Before(claimed', l) == Before(claimed, l)
  {
  }

  lemma SettledStep<V>(labels: seq<int>, claimed: map<int, string>, c0: map<string, Cluster<V>>,
                       centroidOf: seq<nat> -> V, sim: (V, V) -> real, lab: int, id: string)
    requires Settled(labels, claimed, c0, centroidOf, sim) && forall l :: l in claimed ==> l < lab
    requires Choice(claimed, c0, centroidOf(Positions(labels, lab)), sim, id)
    ensures Settled(labels, claimed[lab := id], c0, centroidOf, sim)
  {
    BeforeLast(claimed, lab, id);
    var claimed' := claimed[lab := id];
    forall l | l in claimed'
      ensures Choice(Before(claimed', l), c0, centroidOf(Positions(labels, l)), sim, claimed'[l])
    {
      if l != lab { assert Choice(Before(claimed, l), c0, centroidOf(Positions(labels, l)), sim, claimed[l]); }
    }
  }

  lemma KeptStep<V>(claimed: map<int, string>, c0: map<string, Cluster<V>>, lab: int, id: string)
    requires lab !in claimed
    ensures |Kept(claimed[lab := id], c0)| == |Kept(claimed, c0)| + (if id in c0 then 1 else 0)
  {
    assert Kept(claimed[lab := id], c0) == Kept(claimed, c0) + (if id in c0 then {lab} else {});
  }

  /** The pool of a label's choice, from the winner of the scan. */
  lemma ChoiceFromPool<V>(existing: seq<Candidate<V>>, claimed: map<int, string>, c0: map<string, Cluster<V>>, c: V,
                          sim: (V, V) -> real, best: int, bestSim: real, newId: string)
    requires Listed(existing, claimed, c0) && -1 <= best < |existing| && newId !in c0
    requires best >= 0 ==> bestSim == sim(c, existing[best].centroid)
    requires best < 0 ==> bestSim == -1.0
    requires forall j :: 0 <= j < |existing| ==> sim(c, existing[j].centroid) <= bestSim
    ensures Choice(claimed, c0, c, sim, if best >= 0 && bestSim >= CLUSTER_MATCH then existing[best].id else newId)
  {
    forall x | Open(claimed, c0, x) ensures sim(c, c0[x].centroid) <= bestSim {
      assert InPool(existing, x);
    }
    if best >= 0 { assert InPool(existing, existing[best].id); }
  }

  /** Taking a cluster out of the pool. */
  lemma ListedWithout<V>(existing: seq<Candidate<V>>, claimed: map<int, string>, claimed': map<int, string>,
                         c0: map<string, Cluster<V>>, best: nat)
    requires Listed(existing, claimed, c0) && best < |existing|
    requires forall i, j :: 0 <= i < j < |existing| ==> existing[i].id != existing[j].id
    requires forall x :: Claims(claimed', x) <==> Claims(claimed, x) || x == existing[best].id
    ensures Listed(existing[..best] + existing[best + 1..], claimed', c0)
  {
    var rest := existing[..best] + existing[best + 1..];
    forall id ensures InPool(rest, id) <==> InPool(existing, id) && id != existing[best].id {
      if InPool(rest, id) {
        var j :| 0 <= j < |rest| && rest[j].id == id;
        assert existing[if j < best then j else j + 1].id == id;
      }
      if InPool(existing, id) && id != existing[best].id {
        var j :| 0 <= j < |existing| && existing[j].id == id;
        assert rest[if j < best then j else j - 1].id == id;
      }
    }
  }

  lemma PoolGrows<V>(existing: seq<Candidate<V>>, c: Candidate<V>)
    ensures forall id :: InPool(existing + [c], id) <==> InPool(existing, id) || id == c.id
    ensures forall j :: 0 <= j < |existing| ==> InPool(existing, existing[j].id)
  {
    forall id ensures InPool(existing + [c], id) <==> InPool(existing, id) || id == c.id {
      if InPool(existing, id) {
        var j :| 0 <= j < |existing| && existing[j].id == id;
        assert (existing + [c])[j].id == id;
      }
      assert (existing + [c])[|existing|] == c;
    }
  }

  lemma ListedStill<V>(existing: seq<Candidate<V>>, claimed: map<int, string>, claimed': map<int, string>,
                       c0: map<string, Cluster<V>>, newId: string)
    requires Listed(existing, claimed, c0) && newId !in c0
    requires forall x :: Claims(claimed', x) <==> Claims(claimed, x) || x == newId
    ensures Listed(existing, claimed', c0)
  {
  }

  /** One label claims a cluster that no label has claimed and no operator has enrolled. */
  lemma Claim<V>(detIds: seq<int>, labels: seq<int>, centroidOf: seq<nat> -> V, claimed: map<int, string>,
                 c0: map<string, Cluster<V>>, clusters: map<string, Cluster<V>>, lab: int, id: string, row: Cluster<V>)
    requires |detIds| == |labels| && Progress(detIds, labels, centroidOf, claimed, c0, clusters)
    requires lab !in claimed && lab != NOISE && !Claims(claimed, id) && (id in c0 ==> !c0[id].enrolled)
    requires IsRow(detIds, labels, lab, centroidOf, row)
    ensures Progress(detIds, labels, centroidOf, claimed[lab := id], c0, clusters[id := row])
    ensures forall x :: Claims(claimed[lab := id], x) <==> Claims(claimed, x) || x == id
  {
    var claimed', clusters' := claimed[lab := id], clusters[id := row];
    forall x ensures Claims(claimed', x) <==> Claims(claimed, x) || x == id {
      if Claims(claimed, x) {
        var l :| l in claimed && claimed[l] == x;
        assert l in claimed' && claimed'[l] == x;
      }
      if x == id { assert lab in claimed' && claimed'[lab] == x; }
    }
    forall l | l in claimed'
      ensures l != NOISE && claimed'[l] in clusters' && IsRow(detIds, labels, l, centroidOf, clusters'[claimed'[l]])
    {
      if l != lab { assert Claims(claimed, claimed[l]); }
    }
    forall a, b | a in claimed' && b in claimed' && claimed'[a] == claimed'[b] ensures a == b {
      if a != lab { assert Claims(claimed, claimed[a]); }
      if b != lab { assert Claims(claimed, claimed[b]); }
    }
  }

  lemma WrittenGrows(detIds: seq<int>, labels: seq<int>, claimed: map<int, string>, lab: int, id: string)
    requires |detIds| == |labels| && lab !in claimed
    ensures Written(detIds, labels, claimed[lab := id]) ==
            Written(detIds, labels, claimed) + set i | i in Positions(labels, lab) :: (id, detIds[i])
  {
    var a, b := Written(detIds, labels, claimed[lab := id]), Written(detIds, labels, claimed);
    var c := set i | i in Positions(labels, lab) :: (id, detIds[i]);
    forall m | m in a ensures m in b + c {
      var i :| 0 <= i < |labels| && labels[i] in claimed[lab := id] && m == (claimed[lab := id][labels[i]], detIds[i]);
      if labels[i] == lab { assert i in Positions(labels, lab); } else { assert labels[i] in claimed; }
    }
    forall m | m in b + c ensures m in a {
      if m in b {
        var i :| 0 <= i < |labels| && labels[i] in claimed && m == (claimed[labels[i]], detIds[i]);
        assert labels[i] in claimed[lab := id];
      } else {
        var i :| i in Positions(labels, lab) && m == (id, detIds[i]);
        assert labels[i] in claimed[lab := id];
      }
    }
  }

  class ClusterTables<V> {
    var clusters: map<string, Cluster<V>>
    var members: set<(string, int)>

    constructor ()
      ensures clusters == map[] && members == {}
    {
      clusters := map[];
      members := {};
    }

    /** SELECT id, centroid ... WHERE enrolled_person_id IS NULL, in any order. */
    method Unenrolled() returns (existing: seq<Candidate<V>>)
      ensures Pool(existing, map[], clusters) && Listed(existing, map[], clusters)
    {
      existing := [];
      var todo := clusters.Keys;
      while todo != {}
        invariant todo <= clusters.Keys && Pool(existing, map[], clusters)
        invariant forall id :: InPool(existing, id) <==> id in clusters && !clusters[id].enrolled && id !in todo
        invariant forall j :: 0 <= j < |existing| ==> existing[j].centroid == clusters[existing[j].id].centroid
        decreases |todo|
      {
        var id :| id in todo;
        todo := todo - {id};
        if !clusters[id].enrolled {
          PoolGrows(existing, Candidate(id, clusters[id].centroid));
          existing := existing + [Candidate(id, clusters[id].centroid)];
        }
      }
    }

    /** Where a label's cluster goes: the best stored match, taken out of the pool, or a new row. */
    method ChooseCluster(existing: seq<Candidate<V>>, sim: (V, V) -> real, centroid: V, newId: string,
                         ghost claimed: map<int, string>, ghost c0: map<string, Cluster<V>>)
      returns (id: string, rest: seq<Candidate<V>>, reused: bool)
      requires Pool(existing, claimed, c0) && Listed(existing, claimed, c0) && newId !in c0 && !Claims(claimed, newId)
      ensures Choice(claimed, c0, centroid, sim, id) && (reused <==> id in c0)
      ensures forall claimed' :: (forall x :: Claims(claimed', x) <==> Claims(claimed, x) || x == id) ==>
        Listed(rest, claimed', c0)
      ensures !Claims(claimed, id) && (id in c0 ==> !c0[id].enrolled) && (id in c0 || id == newId)
      ensures Pool(rest, claimed, c0) && forall j :: 0 <= j < |rest| ==> rest[j].id != id
      ensures reused <==> exists c :: c in existing && sim(centroid, c.centroid) >= CLUSTER_MATCH
      ensures reused ==> exists c :: c in existing && c.id == id
                           && forall d :: d in existing ==> sim(centroid, d.centroid) <= sim(centroid, c.centroid)
      ensures !reused ==> id == newId && rest == existing
    {
      var best, bestSim := BestMatch(existing, sim, centroid);
      ChoiceFromPool(existing, claimed, c0, centroid, sim, best, bestSim, newId);
      if best >= 0 && bestSim >= CLUSTER_MATCH {
        id, rest, reused := existing[best].id, existing[..best] + existing[best + 1..], true;
        assert existing[best] in existing;
        forall claimed': map<int, string> | forall x :: Claims(claimed', x) <==> Claims(claimed, x) || x == id
          ensures Listed(rest, claimed', c0)
        {
          ListedWithout(existing, claimed, claimed', c0, best);
        }
      } else {
        id, rest, reused := newId, existing, false;
        forall claimed': map<int, string> | forall x :: Claims(claimed', x) <==> Claims(claimed, x) || x == id
          ensures Listed(rest, claimed', c0)
        {
          ListedStill(existing, claimed, claimed', c0, newId);
        }
      }
    }

    /** One label: pick its cluster, write its row and its members. */
    method ClaimLabel(detIds: seq<int>, labels: seq<int>, lab: int, centroidOf: seq<nat> -> V, sim: (V, V) -> real,
                      newId: string, existing: seq<Candidate<V>>, ghost claimed: map<int, string>,
                      ghost c0: map<string, Cluster<V>>)
      returns (id: string, rest: seq<Candidate<V>>, reused: bool)
      requires |detIds| == |labels| && Progress(detIds, labels, centroidOf, claimed, c0, clusters)
      requires lab in labels && lab !in claimed && lab != NOISE
      requires Pool(existing, claimed, c0) && Listed(existing, claimed, c0) && newId !in c0 && !Claims(claimed, newId)
      modifies this
      ensures Choice(claimed, c0, centroidOf(Positions(labels, lab)), sim, id) && (reused <==> id in c0)
      ensures Listed(rest, claimed[lab := id], c0)
      ensures Progress(detIds, labels, centroidOf, claimed[lab := id], c0, clusters)
      ensures Pool(rest, claimed[lab := id], c0)
      ensures members == old(members) + set i | i in Positions(labels, lab) :: (id, detIds[i])
      ensures id in c0 || (id == newId && !reused)
      ensures forall x :: Claims(claimed[lab := id], x) <==> Claims(claimed, x) || x == id
    {
      var idx := Positions(labels, lab);
      HasPosition(labels, lab);
      var centroid := centroidOf(idx);
      id, rest, reused := ChooseCluster(existing, sim, centroid, newId, claimed, c0);
      var row := Cluster(centroid, |idx|, detIds[idx[0]], false);
      Claim(detIds, labels, centroidOf, claimed, c0, clusters, lab, id, row);
      clusters := clusters[id := row];
      members := members + set i | i in idx :: (id, detIds[i]);
    }

    /** The tables hold the rows of the claimed labels; the rest of the pool is unclaimed. */
    ghost predicate Stored(detIds: seq<int>, labels: seq<int>, centroidOf: seq<nat> -> V, claimed: map<int, string>,
                           existing: seq<Candidate<V>>, c0: map<string, Cluster<V>>, m1: set<(string, int)>)
      requires |detIds| == |labels|
      reads this
    {
      && Progress(detIds, labels, centroidOf, claimed, c0, clusters)
      && members == m1 + Written(detIds, labels, claimed)
      && Pool(existing, claimed, c0) && Listed(existing, claimed, c0)
    }

    /** One turn of the loop over the labels. */
    method ClaimNext(detIds: seq<int>, labels: seq<int>, labs: seq<int>, j: nat, centroidOf: seq<nat> -> V,
                     sim: (V, V) -> real, newId: nat -> string, existing: seq<Candidate<V>>,
                     preserved: nat, created: nat, written: nat,
                     ghost claimed: map<int, string>, ghost c0: map<string, Cluster<V>>, ghost m1: set<(string, int)>)
      returns (rest: seq<Candidate<V>>, preserved': nat, created': nat, written': nat, ghost claimed': map<int, string>)
      requires |detIds| == |labels| && j < |labs|
      requires NoDuplicates(labs) && StrictlySorted(Below, labs) && forall l :: l in labs ==> l in labels && l != NOISE
      requires Generator(newId, c0) && Stored(detIds, labels, centroidOf, claimed, existing, c0, m1)
      requires Ledger(labels, labs, j, newId, claimed, preserved, created, written, c0, centroidOf, sim)
      modifies this
      ensures Stored(detIds, labels, centroidOf, claimed', rest, c0, m1)
      ensures Ledger(labels, labs, j + 1, newId, claimed', preserved', created', written', c0, centroidOf, sim)
    {
      var lab := labs[j];
      Claimable(labels, labs, j, newId, claimed, preserved, created, written);
      var id, reused;
      id, rest, reused := ClaimLabel(detIds, labels, lab, centroidOf, sim, newId(created), existing, claimed, c0);
      WrittenGrows(detIds, labels, claimed, lab, id);
      claimed' := claimed[lab := id];
      written' := written + |Positions(labels, lab)|;
      preserved', created' := preserved, created;
      if reused { preserved' := preserved + 1; } else { created' := created + 1; }
      NextLedger(labels, labs, j, newId, claimed, preserved, created, written, id, reused, c0, centroidOf, sim);
    }

    /** The loop over the labels. */
    method ClaimAll(detIds: seq<int>, labels: seq<int>, labs: seq<int>, centroidOf: seq<nat> -> V, sim: (V, V) -> real,
                    newId: nat -> string, pool: seq<Candidate<V>>, ghost c0: map<string, Cluster<V>>,
                    ghost m1: set<(string, int)>)
      returns (preserved: nat, created: nat, written: nat, ghost claimed: map<int, string>)
      requires |detIds| == |labels| && clusters == c0 && members == m1
      requires NoDuplicates(labs) && StrictlySorted(Below, labs) && forall l :: l in labs ==> l in labels && l != NOISE
      requires Generator(newId, c0) && Pool(pool, map[], c0) && Listed(pool, map[], c0)
      modifies this
      ensures Progress(detIds, labels, centroidOf, claimed, c0, clusters)
      ensures members == m1 + Written(detIds, labels, claimed)
      ensures forall l :: l in claimed <==> l in labs
      ensures preserved + created == |claimed| == |labs| && written == CountIn(labels, claimed.Keys)
      ensures Settled(labels, claimed, c0, centroidOf, sim) && preserved == |Kept(claimed, c0)|
    {
      var existing := pool;
      claimed := map[];
      preserved, created, written := 0, 0, 0;
      CountNone(labels);
      assert Written(detIds, labels, claimed) == {};
      for j := 0 to |labs|
        invariant Stored(detIds, labels, centroidOf, claimed, existing, c0, m1)
        invariant Ledger(labels, labs, j, newId, claimed, preserved, created, written, c0, centroidOf, sim)
      {
        existing, preserved, created, written, claimed :=
          ClaimNext(detIds, labels, labs, j, centroidOf, sim, newId, existing, preserved, created, written, claimed,
            c0, m1);
      }
      LedgerEnd(labels, labs, newId, claimed, preserved, created, written, c0, centroidOf, sim);
    }

    /** batch_cluster_unmatched after decoding: detIds[i] carries labels[i]; newId yields generated ids. */
    method BatchCluster(detIds: seq<int>, labels: seq<int>, minSize: int, centroidOf: seq<nat> -> V,
                        sim: (V, V) -> real, newId: nat -> string)
      returns (report: Report, ghost claimed: map<int, string>)
      requires |detIds| == |labels|
      requires forall i: nat, j: nat :: newId(i) == newId(j) ==> i == j
      requires forall i: nat :: newId(i) !in clusters
      requires forall m :: m in members ==> m.0 in clusters
      modifies this
      ensures |detIds| < minSize ==> clusters == old(clusters) && members == old(members)
      ensures |detIds| >= minSize ==>
                && Rewritten(detIds, labels, centroidOf, claimed, old(clusters), old(members), clusters, members)
                && Settled(labels, claimed, old(clusters), centroidOf, sim)
                && report.preserved == |Kept(claimed, old(clusters))|
                && report.noise == CountIn(labels, {NOISE})
                && report.clustersWritten == |claimed| == report.preserved + report.created
                && report.membersWritten + report.noise == report.decoded == |detIds|
    {
      claimed := map[];
      report := Report(|detIds|, 0, 0, 0, 0, 0);
      if |detIds| < minSize { return; }
      ghost var c0, m0 := clusters, members;
      var existing := Unenrolled();
      members := set m | m in members && clusters[m.0].enrolled;
      assert members == EnrolledMembers(c0, m0);
      var labs := UniqueLabels(labels);
      var preserved, created, written;
      preserved, created, written, claimed :=
        ClaimAll(detIds, labels, labs, centroidOf, sim, newId, existing, c0, members);
      report := Report(|detIds|, |labs|, written, preserved, created, |Positions(labels, NOISE)|);
      AllCounted(labels, claimed);
      PruneLeavesClaimed(detIds, labels, centroidOf, claimed, c0, m0, clusters, members);
      clusters :=
        map id | id in clusters && (clusters[id].enrolled || exists m :: m in members && m.0 == id) :: clusters[id];
    }
  }

  /** The first j labels are claimed, and the counters say how. */
  ghost predicate Counted(labels: seq<int>, labs: seq<int>, j: nat, newId: nat -> string, claimed: map<int, string>,
                          preserved: nat, created: nat, written: nat)
    requires j <= |labs|
  {
    && (forall l :: l in claimed <==> l in labs[..j])
    && preserved + created == |claimed| == j && written == CountIn(labels, claimed.Keys)
    && forall n: nat :: Claims(claimed, newId(n)) ==> n < created
  }

  /** Generated ids never repeat and are no stored cluster's. */
  ghost predicate Generator<V>(newId: nat -> string, c0: map<string, Cluster<V>>) {
    (forall i: nat, k: nat :: newId(i) == newId(k) ==> i == k) && forall i: nat :: newId(i) !in c0
  }

  lemma Claimable(labels: seq<int>, labs: seq<int>, j: nat, newId: nat -> string, claimed: map<int, string>,
                  preserved: nat, created: nat, written: nat)
    requires NoDuplicates(labs) && j < |labs| && Counted(labels, labs, j, newId, claimed, preserved, created, written)
    ensures labs[j] !in claimed && labs[j] in labs && !Claims(claimed, newId(created))
  {
    var lab := labs[j];
    assert forall k :: 0 <= k < j ==> labs[..j][k] == labs[k] != lab;
    assert lab !in labs[..j];
    assert lab !in claimed;
  }

  lemma ClaimedBelow(labels: seq<int>, labs: seq<int>, j: nat, newId: nat -> string, claimed: map<int, string>,
                     preserved: nat, created: nat, written: nat)
    requires StrictlySorted(Below, labs) && j < |labs|
    requires Counted(labels, labs, j, newId, claimed, preserved, created, written)
    ensures forall l :: l in claimed ==> l < labs[j]
  {
    forall l | l in claimed ensures l < labs[j] {
      assert l in labs[..j];
      var k :| 0 <= k < j && labs[..j][k] == l;
      assert Below(labs[k], labs[j]);
    }
  }

  /** The loop's accounts: the counters, the choices made, and the ids kept. */
  ghost predicate Ledger<V>(labels: seq<int>, labs: seq<int>, j: nat, newId: nat -> string, claimed: map<int, string>,
                            preserved: nat, created: nat, written: nat, c0: map<string, Cluster<V>>,
                            centroidOf: seq<nat> -> V, sim: (V, V) -> real)
    requires j <= |labs|
  {
    && Counted(labels, labs, j, newId, claimed, preserved, created, written)
    && Settled(labels, claimed, c0, centroidOf, sim) && preserved == |Kept(claimed, c0)|
  }

  lemma LedgerEnd<V>(labels: seq<int>, labs: seq<int>, newId: nat -> string, claimed: map<int, string>,
                     preserved: nat, created: nat, written: nat, c0: map<string, Cluster<V>>,
                     centroidOf: seq<nat> -> V, sim: (V, V) -> real)
    requires Ledger(labels, labs, |labs|, newId, claimed, preserved, created, written, c0, centroidOf, sim)
    ensures forall l :: l in claimed <==> l in labs
    ensures preserved + created == |claimed| == |labs| && written == CountIn(labels, claimed.Keys)
    ensures Settled(labels, claimed, c0, centroidOf, sim) && preserved == |Kept(claimed, c0)|
  {
    assert labs[..|labs|] == labs;
  }

  lemma NextLedger<V>(labels: seq<int>, labs: seq<int>, j: nat, newId: nat -> string, claimed: map<int, string>,
                      preserved: nat, created: nat, written: nat, id: string, reused: bool, c0: map<string, Cluster<V>>,
                      centroidOf: seq<nat> -> V, sim: (V, V) -> real)
    requires NoDuplicates(labs) && StrictlySorted(Below, labs) && j < |labs| && Generator(newId, c0)
    requires Ledger(labels, labs, j, newId, claimed, preserved, created, written, c0, centroidOf, sim)
    requires (reused <==> id in c0) && (id in c0 || id == newId(created))
    requires Choice(claimed, c0, centroidOf(Positions(labels, labs[j])), sim, id)
    ensures Ledger(labels, labs, j + 1, newId, claimed[labs[j] := id], if reused then preserved + 1 else preserved,
                   if reused then created else created + 1, written + |Positions(labels, labs[j])|, c0, centroidOf, sim)
  {
    Claimable(labels, labs, j, newId, claimed, preserved, created, written);
    NextCounted(labels, labs, j, newId, claimed, preserved, created, written, id, reused, c0);
    ClaimedBelow(labels, labs, j, newId, claimed, preserved, created, written);
    SettledStep(labels, claimed, c0, centroidOf, sim, labs[j], id);
    KeptStep(claimed, c0, labs[j], id);
  }

  lemma NextCounted<V>(labels: seq<int>, labs: seq<int>, j: nat, newId: nat -> string, claimed: map<int, string>,
                       preserved: nat, created: nat, written: nat, id: string, reused: bool,
                       c0: map<string, Cluster<V>>)
    requires NoDuplicates(labs) && j < |labs| && Counted(labels, labs, j, newId, claimed, preserved, created, written)
    requires Generator(newId, c0) && (id in c0 || (id == newId(created) && !reused))
    ensures Counted(labels, labs, j + 1, newId, claimed[labs[j] := id], if reused then preserved + 1 else preserved,
                    if reused then created else created + 1, written + |Positions(labels, labs[j])|)
  {
    var lab := labs[j];
    var claimed' := claimed[lab := id];
    Claimable(labels, labs, j, newId, claimed, preserved, created, written);
    CountSplits(labels, claimed.Keys, lab);
    assert claimed'.Keys == claimed.Keys + {lab};
    assert labs[..j + 1] == labs[..j] + [lab];
    IdsStayFresh(newId, claimed, claimed', lab, created, if reused then created else created + 1, id, c0);
  }

  /** Generated ids in use are those generated so far. */
  lemma IdsStayFresh<V>(newId: nat -> string, claimed: map<int, string>, claimed': map<int, string>, lab: int,
                        created: nat, created': nat, id: string, c0: map<string, Cluster<V>>)
    requires Generator(newId, c0) && lab !in claimed && claimed' == claimed[lab := id]
    requires forall n: nat :: Claims(claimed, newId(n)) ==> n < created
    requires created <= created' && (id in c0 || (id == newId(created) && created' == created + 1))
    ensures forall n: nat :: Claims(claimed', newId(n)) ==> n < created'
  {
    forall n: nat | Claims(claimed', newId(n)) ensures n < created' {
      assert Claims(claimed, newId(n)) || newId(n) == id;
    }
  }

  lemma AllCounted(labels: seq<int>, claimed: map<int, string>)
    requires forall l :: l in claimed <==> l in labels && l != NOISE
    ensures CountIn(labels, claimed.Keys) + CountIn(labels, {NOISE}) == |labels|
  {
    CountSplits(labels, claimed.Keys, NOISE);
    forall i | 0 <= i < |labels| ensures labels[i] in claimed.Keys + {NOISE} {
      assert labels[i] in labels;
      assert labels[i] in claimed || labels[i] == NOISE;
    }
    CountAll(labels, claimed.Keys + {NOISE});
  }

  lemma WrittenAreClaimed(detIds: seq<int>, labels: seq<int>, claimed: map<int, string>, m: (string, int))
    requires |detIds| == |labels| && m in Written(detIds, labels, claimed)
    ensures Claims(claimed, m.0)
  {
    var i :| 0 <= i < |labels| && labels[i] in claimed && m == (claimed[labels[i]], detIds[i]);
    var lab := labels[i];
    assert lab in claimed && claimed[lab] == m.0;
  }

  lemma HasPosition(labels: seq<int>, lab: int)
    requires lab in labels
    ensures Positions(labels, lab) != [] && Positions(labels, lab)[0] < |labels|
  {
    var i :| 0 <= i < |labels| && labels[i] == lab;
    assert i in Positions(labels, lab);
    assert Positions(labels, lab)[0] in Positions(labels, lab);
  }

  /** The final prune deletes exactly the unenrolled clusters no label claimed. */
  lemma PruneLeavesClaimed<V>(detIds: seq<int>, labels: seq<int>, centroidOf: seq<nat> -> V, claimed: map<int, string>,
                              c0: map<string, Cluster<V>>, m0: set<(string, int)>,
                              clusters: map<string, Cluster<V>>, members: set<(string, int)>)
    requires |detIds| == |labels| && Progress(detIds, labels, centroidOf, claimed, c0, clusters)
    requires members == EnrolledMembers(c0, m0) + Written(detIds, labels, claimed)
    requires forall lab :: lab in claimed <==> lab in labels && lab != NOISE
    ensures var pruned :=
              map id | id in clusters &&
                       (clusters[id].enrolled || exists m :: m in members && m.0 == id) :: clusters[id];
            Rewritten(detIds, labels, centroidOf, claimed, c0, m0, pruned, members)
  {
    forall id | Claims(claimed, id) ensures exists m :: m in members && m.0 == id {
      var lab :| lab in claimed && claimed[lab] == id;
      var i :| 0 <= i < |labels| && labels[i] == lab;
      assert (claimed[labels[i]], detIds[i]) in Written(detIds, labels, claimed);
    }
    forall m | m in members ensures Claims(claimed, m.0) || (m.0 in c0 && c0[m.0].enrolled) {
      if m in Written(detIds, labels, claimed) {
        WrittenAreClaimed(detIds, labels, claimed, m);
      } else {
        assert m in EnrolledMembers(c0, m0);
      }
    }
    forall lab | lab in claimed ensures exists m :: m in members && m.0 == claimed[lab] {
      assert Claims(claimed, claimed[lab]);
    }
  }

  // ---- Consequences --------------------------------------------------------------------------------

  lemma NotAnEnrolledId<V>(detIds: seq<int>, labels: seq<int>, centroidOf: seq<nat> -> V, claimed: map<int, string>,
                           c0: map<string, Cluster<V>>, clusters: map<string, Cluster<V>>, id: string)
    requires |detIds| == |labels| && Progress(detIds, labels, centroidOf, claimed, c0, clusters)
    requires id in clusters && !clusters[id].enrolled
    ensures id in c0 ==> !c0[id].enrolled
  {
  }

  /** member_count is the number of members: no unenrolled cluster is empty or miscounted. */
  lemma MemberCountExact<V>(detIds: seq<int>, labels: seq<int>, centroidOf: seq<nat> -> V, claimed: map<int, string>,
                            c0: map<string, Cluster<V>>, m0: set<(string, int)>,
                            clusters: map<string, Cluster<V>>, members: set<(string, int)>, id: string)
    requires |detIds| == |labels| && NoDuplicates(detIds)
    requires Rewritten(detIds, labels, centroidOf, claimed, c0, m0, clusters, members)
    requires id in clusters && !clusters[id].enrolled
    ensures |set m | m in members && m.0 == id| == clusters[id].memberCount >= 1
  {
    assert Claims(claimed, id);
    var lab :| lab in claimed && claimed[lab] == id;
    var idx := Positions(labels, lab);
    var own := set m | m in members && m.0 == id;
    var listed := set i | i in idx :: (id, detIds[i]);
    NotAnEnrolledId(detIds, labels, centroidOf, claimed, c0, clusters, id);
    assert forall m :: m in own ==> m !in EnrolledMembers(c0, m0);
    forall m | m in own ensures m in listed {
      var i :| 0 <= i < |labels| && labels[i] in claimed && m == (claimed[labels[i]], detIds[i]);
      assert labels[i] == lab;
      assert i in idx;
    }
    forall m | m in listed ensures m in own {
      var i :| i in idx && m == (id, detIds[i]);
      assert labels[i] in claimed;
    }
    assert own == listed;
    ListedSize(detIds, idx, id, listed);
  }

  lemma {:induction false} ListedSize(detIds: seq<int>, idx: seq<nat>, id: string, listed: set<(string, int)>)
    requires NoDuplicates(detIds) && NoDuplicates(idx) && forall i :: i in idx ==> i < |detIds|
    requires listed == set i | i in idx :: (id, detIds[i])
    ensures |listed| == |idx|
  {
    if idx == [] {
      assert listed == {};
    } else {
      var t := idx[1..];
      assert forall i :: i in idx <==> i == idx[0] || i in t;
      var rest := set i | i in t :: (id, detIds[i]);
      ListedSize(detIds, t, id, rest);
      assert idx[0] in idx;
      forall i | i in t ensures detIds[i] != detIds[idx[0]] {
        var k :| 0 <= k < |t| && t[k] == i;
        assert idx[k + 1] == i && i != idx[0];
      }
      assert (id, detIds[idx[0]]) !in rest;
      assert listed == rest + {(id, detIds[idx[0]])};
    }
  }

  /** Each detection ends up in at most one unenrolled cluster. */
  lemma OneUnenrolledCluster<V>(detIds: seq<int>, labels: seq<int>, centroidOf: seq<nat> -> V,
                                claimed: map<int, string>,
                                c0: map<string, Cluster<V>>, m0: set<(string, int)>,
                                clusters: map<string, Cluster<V>>, members: set<(string, int)>, a: string, b: string,
                                det: int)
    requires |detIds| == |labels| && NoDuplicates(detIds)
    requires Rewritten(detIds, labels, centroidOf, claimed, c0, m0, clusters, members)
    requires (a, det) in members && (b, det) in members
    requires a in clusters && b in clusters && !clusters[a].enrolled && !clusters[b].enrolled
    ensures a == b
  {
    var i :| 0 <= i < |labels| && labels[i] in claimed && (a, det) == (claimed[labels[i]], detIds[i]);
    var j :| 0 <= j < |labels| && labels[j] in claimed && (b, det) == (claimed[labels[j]], detIds[j]);
    assert i == j;
  }

  /** Enrolled clusters come through untouched, row and members. */
  lemma EnrolledUntouched<V>(detIds: seq<int>, labels: seq<int>, centroidOf: seq<nat> -> V, claimed: map<int, string>,
                             c0: map<string, Cluster<V>>, m0: set<(string, int)>,
                             clusters: map<string, Cluster<V>>, members: set<(string, int)>, id: string)
    requires |detIds| == |labels|
    requires Rewritten(detIds, labels, centroidOf, claimed, c0, m0, clusters, members)
    requires id in c0 && c0[id].enrolled
    ensures id in clusters && clusters[id] == c0[id]
    ensures forall det :: (id, det) in members <==> (id, det) in m0
  {
    assert !Claims(claimed, id) by {
      forall lab | lab in claimed
        ensures claimed[lab] != id
      {
        assert IsRow(detIds, labels, lab, centroidOf, clusters[claimed[lab]]);
      }
    }
    forall det ensures (id, det) in members <==> (id, det) in m0 {
      if (id, det) in Written(detIds, labels, claimed) {
        var i :| 0 <= i < |labels| && labels[i] in claimed && (id, det) == (claimed[labels[i]], detIds[i]);
        assert Claims(claimed, id);
      }
    }
  }

  // ---- What the labels got, on the stored clusters -----------------------------------------------------------

  /** Some smaller label took the cluster. */
  ghost predicate TakenBefore(claimed: map<int, string>, lab: int, id: string) {
    exists l :: l in claimed && l < lab && claimed[l] == id
  }

  /** A label keeps a stored id only of an unenrolled cluster no smaller label took, at a cosine of 0.6 or more; and
      whenever there is such a cluster it keeps the id of one that no other beats. */
  lemma LabelsKeepBest<V>(labels: seq<int>, claimed: map<int, string>, c0: map<string, Cluster<V>>,
                          centroidOf: seq<nat> -> V, sim: (V, V) -> real, lab: int, x: string)
    requires Settled(labels, claimed, c0, centroidOf, sim) && lab in claimed
    ensures var c, id := centroidOf(Positions(labels, lab)), claimed[lab];
            && (id in c0 ==> !c0[id].enrolled && !TakenBefore(claimed, lab, id) && sim(c, c0[id].centroid) >= 0.6)
            && (x in c0 && !c0[x].enrolled && !TakenBefore(claimed, lab, x) && sim(c, c0[x].centroid) >= 0.6 ==>
                  id in c0 && sim(c, c0[x].centroid) <= sim(c, c0[id].centroid))
  {
    var before := Before(claimed, lab);
    assert Choice(before, c0, centroidOf(Positions(labels, lab)), sim, claimed[lab]);
    TakenIsClaimed(claimed, lab, x);
    TakenIsClaimed(claimed, lab, claimed[lab]);
  }

  lemma TakenIsClaimed(claimed: map<int, string>, lab: int, id: string)
    ensures Claims(Before(claimed, lab), id) <==> TakenBefore(claimed, lab, id)
  {
    if l :| l in claimed && l < lab && claimed[l] == id { assert l in Before(claimed, lab); }
  }

  ghost predicate Ascending(r: seq<nat>) { forall i, j :: 0 <= i < j < |r| ==> r[i] < r[j] }

  lemma {:induction false} PositionsAscend(labels: seq<int>, lab: int)
    ensures Ascending(Positions(labels, lab))
  {
    if labels != [] {
      var n := |labels| - 1;
      PositionsAscend(labels[..n], lab);
      var r := Positions(labels[..n], lab);
      forall i | 0 <= i < |r| ensures r[i] < n { assert r[i] in r; }
    }
  }

  /** The row of a label is unenrolled, carries the centroid and the number of its detections, and the first of them
      stands for it. */
  lemma RowsDescribe<V>(detIds: seq<int>, labels: seq<int>, centroidOf: seq<nat> -> V, claimed: map<int, string>,
                        c0: map<string, Cluster<V>>, m0: set<(string, int)>, clusters: map<string, Cluster<V>>,
                        members: set<(string, int)>, lab: int, first: nat)
    requires |detIds| == |labels| && first < |labels| && labels[first] == lab && lab != -1
    requires forall i :: 0 <= i < first ==> labels[i] != lab
    requires Rewritten(detIds, labels, centroidOf, claimed, c0, m0, clusters, members)
    ensures lab in claimed && claimed[lab] in clusters
    ensures clusters[claimed[lab]] ==
            Cluster(centroidOf(Positions(labels, lab)), |Positions(labels, lab)|, detIds[first], false)
  {
    var idx := Positions(labels, lab);
    PositionsAscend(labels, lab);
    assert labels[first] in labels;
    assert first in idx;
    assert idx[0] in idx;
    var k :| 0 <= k < |idx| && idx[k] == first;
  }
}
