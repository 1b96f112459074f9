/** The planner's loops, proved against the functions of Grouping. */
module Planner {
  import opened Ordering
  import opened Text
  import opened Arithmetic
  import opened Grouping
  import opened GroupingProofs

  method DetectorsKeyOf(cam: Camera) returns (out: string)
    ensures out == DetectorsKey(cam)
  {
    if cam.detectors == [] { return "all"; }
    var s: seq<string> := [];
    for i := 0 to |cam.detectors|
      invariant s == SetOf(cam.detectors[..i])
    {
      assert cam.detectors[..i + 1][..i] == cam.detectors[..i];
      s := SetInsert(s, cam.detectors[i]);
    }
    assert cam.detectors[..|cam.detectors|] == cam.detectors;
    out := "";
    for i := 0 to |s|
      invariant JoinPlus(out, s[i..]) == JoinPlus("", s)
    {
      assert s[i..][1..] == s[i + 1..];
      if out != "" { out := out + "+"; }
      out := out + s[i];
    }
  }

  lemma {:induction false} SinglesAppend(a: seq<Camera>, c: Camera, q: set<string>, p: set<string>)
    ensures Singles(a + [c], q, p) == Singles(a, q, p) + Singles([c], q, p)
  {
    if a == [] {
      assert a + [c] == [c];
    } else {
      assert (a + [c])[1..] == a[1..] + [c];
      SinglesAppend(a[1..], c, q, p);
    }
  }

  lemma SharedAppend(a: seq<Camera>, c: Camera, key: string, q: set<string>, p: set<string>)
    ensures Shared(a + [c], key, q, p)
         == Shared(a, key, q, p) + (if Batchable(c, q, p) && ShapeKey(c) == key then [c] else [])
  {
    FilterAppend(x => Batchable(x, q, p) && ShapeKey(x) == key, a, [c]);
  }

  lemma SharedListed(a: seq<Camera>, key: string, q: set<string>, p: set<string>)
    ensures Shared(a, key, q, p) != [] ==> key in BatchKeys(a, q, p)
  {
    if Shared(a, key, q, p) != [] {
      var c := Shared(a, key, q, p)[0];
      assert c in Shared(a, key, q, p);
      BatchKeysListed(a, q, p, c);
    }
  }

  lemma SharedSorted(cams: seq<Camera>, key: string, q: set<string>, p: set<string>, ms: seq<Camera>)
    requires DistinctIds(cams)
    requires Sorted(CamLess, ms) && multiset(ms) == multiset(Shared(cams, key, q, p))
    ensures ms == MembersOf(cams, key, q, p)
  {
    var r := MembersOf(cams, key, q, p);
    MembersNoDuplicates(cams, key, q, p);
    NoDuplicatesFromMultiset(r, ms);
    forall c ensures c in ms <==> c in r { assert c in ms <==> c in multiset(ms); assert c in r <==> c in multiset(r); }
    forall i, j | 0 <= i < j < |ms| ensures CamLess(ms[i], ms[j]) {
      assert ms[i] in r && ms[j] in r;
      StrLessTrichotomy(ms[i].id, ms[j].id);
    }
    StrLessIsOrder();
    SortedUnique(CamLess, ms, r);
  }

  ghost predicate Bucketed(cams: seq<Camera>, q: set<string>, p: set<string>, keys: seq<string>,
                           batchable: map<string, seq<Camera>>) {
    && keys == SetOf(BatchKeys(cams, q, p))
    && (forall k :: k in batchable <==> k in keys)
    && forall k :: k in batchable ==> batchable[k] == Shared(cams, k, q, p)
  }

  lemma KeysAppend(cams: seq<Camera>, cam: Camera, q: set<string>, p: set<string>)
    ensures SetOf(BatchKeys(cams + [cam], q, p)) ==
              if Batchable(cam, q, p) then SetInsert(SetOf(BatchKeys(cams, q, p)), ShapeKey(cam))
              else SetOf(BatchKeys(cams, q, p))
  {
    var ks, all := BatchKeys(cams, q, p), cams + [cam];
    assert all[..|all| - 1] == cams && all[|all| - 1] == cam;
    if Batchable(cam, q, p) {
      assert (ks + [ShapeKey(cam)])[..|ks|] == ks;
    } else {
      assert ks + [] == ks;
    }
  }

  lemma BucketedSkip(cams: seq<Camera>, cam: Camera, q: set<string>, p: set<string>, keys: seq<string>,
                     batchable: map<string, seq<Camera>>)
    requires Bucketed(cams, q, p, keys, batchable) && !Batchable(cam, q, p)
    ensures Bucketed(cams + [cam], q, p, keys, batchable)
  {
    KeysAppend(cams, cam, q, p);
    forall k { SharedAppend(cams, cam, k, q, p); }
  }

  lemma NoBuckets(q: set<string>, p: set<string>)
    ensures Singles([], q, p) == [] && Bucketed([], q, p, [], map[])
  {
  }

  lemma SameKeys(keys: seq<string>, batchable: map<string, seq<Camera>>, key: string, bucket: seq<Camera>)
    requires StrictlySorted(StrLess, keys) && forall k :: k in batchable <==> k in keys
    ensures forall k :: k in batchable[key := bucket] <==> k in SetInsert(keys, key)
  {
  }

  lemma BucketedAdd(cams: seq<Camera>, cam: Camera, q: set<string>, p: set<string>, keys: seq<string>,
                    batchable: map<string, seq<Camera>>, old': seq<Camera>)
    requires Bucketed(cams, q, p, keys, batchable) && Batchable(cam, q, p)
    requires old' == if ShapeKey(cam) in batchable then batchable[ShapeKey(cam)] else []
    ensures Bucketed(cams + [cam], q, p, SetInsert(keys, ShapeKey(cam)), batchable[ShapeKey(cam) := old' + [cam]])
  {
    var key := ShapeKey(cam);
    KeysAppend(cams, cam, q, p);
    SharedListed(cams, key, q, p);
    SetOfHas(BatchKeys(cams, q, p), key);
    BucketsGrow(cams, cam, q, p, batchable, old');
    SameKeys(keys, batchable, key, old' + [cam]);
  }

  lemma BucketsGrow(cams: seq<Camera>, cam: Camera, q: set<string>, p: set<string>, batchable: map<string, seq<Camera>>,
                    old': seq<Camera>)
    requires forall k :: k in batchable ==> batchable[k] == Shared(cams, k, q, p)
    requires Batchable(cam, q, p) && old' == Shared(cams, ShapeKey(cam), q, p)
    ensures var grown := batchable[ShapeKey(cam) := old' + [cam]];
            forall k :: k in grown ==> grown[k] == Shared(cams + [cam], k, q, p)
  {
    var grown := batchable[ShapeKey(cam) := old' + [cam]];
    forall k | k in grown ensures grown[k] == Shared(cams + [cam], k, q, p) { SharedAppend(cams, cam, k, q, p); }
  }

  lemma SetOfHas(ds: seq<string>, d: string)
    ensures d in SetOf(ds) <==> d in ds
  {
  }

  method AddToBucket(ghost cams: seq<Camera>, cam: Camera, ghost q: set<string>, ghost p: set<string>,
                     keys: seq<string>, batchable: map<string, seq<Camera>>)
    returns (keys': seq<string>, batchable': map<string, seq<Camera>>)
    requires Bucketed(cams, q, p, keys, batchable) && Batchable(cam, q, p)
    ensures Bucketed(cams + [cam], q, p, keys', batchable')
  {
    var key := ShapeKey(cam);
    var bucket := if key in batchable then batchable[key] else [];
    BucketedAdd(cams, cam, q, p, keys, batchable, bucket);
    keys', batchable' := SetInsert(keys, key), batchable[key := bucket + [cam]];
  }

  /** The plan of a camera that is not batched: none if it is quarantined, else one of its own. */
  method Alone(cam: Camera, q: set<string>, p: set<string>) returns (r: seq<GroupPlan>)
    requires !Batchable(cam, q, p)
    ensures r == Singles([cam], q, p)
  {
    r := [];
    if cam.id in q {
    } else if cam.id in p {
      r := [GroupPlan("probation-" + cam.id, [cam], true)];
    } else {
      r := [GroupPlan("solo-" + cam.id, [cam], false)];
    }
  }


  /** First pass: place bespoke and probation cameras, bucket the rest by shape. */
  lemma SinglesSkip(cams: seq<Camera>, cam: Camera, q: set<string>, p: set<string>)
    requires Batchable(cam, q, p)
    ensures Singles(cams + [cam], q, p) == Singles(cams, q, p)
  {
    SinglesAppend(cams, cam, q, p);
    assert Singles([cam], q, p) == [] + Singles([], q, p) == [];
  }

  /** One turn of the bucketing loop. */
  method BucketOne(all: seq<Camera>, i: nat, q: set<string>, p: set<string>,
                   out: seq<GroupPlan>, keys: seq<string>, batchable: map<string, seq<Camera>>)
    returns (out': seq<GroupPlan>, keys': seq<string>, batchable': map<string, seq<Camera>>)
    requires i < |all| && out == Singles(all[..i], q, p) && Bucketed(all[..i], q, p, keys, batchable)
    ensures out' == Singles(all[..i + 1], q, p) && Bucketed(all[..i + 1], q, p, keys', batchable')
  {
    var cam := all[i];
    ghost var cams := all[..i];
    assert all[..i + 1] == cams + [cam];
    out', keys', batchable' := out, keys, batchable;
    var key := ShapeKey(cam);
    if cam.id !in q && cam.id !in p && key != "none" && key != "transcode" {
      SinglesSkip(cams, cam, q, p);
      keys', batchable' := AddToBucket(cams, cam, q, p, keys, batchable);
    } else {
      SinglesAppend(cams, cam, q, p);
      BucketedSkip(cams, cam, q, p, keys, batchable);
      var alone := Alone(cam, q, p);
      out' := out + alone;
    }
  }

  method Bucket(cams: seq<Camera>, q: set<string>, p: set<string>)
    returns (out: seq<GroupPlan>, keys: seq<string>, batchable: map<string, seq<Camera>>)
    ensures out == Singles(cams, q, p)
    ensures Bucketed(cams, q, p, keys, batchable)
  {
    out, keys, batchable := [], [], map[];
    NoBuckets(q, p);
    assert cams[..0] == [];
    for i := 0 to |cams|
      invariant out == Singles(cams[..i], q, p)
      invariant Bucketed(cams[..i], q, p, keys, batchable)
    {
      out, keys, batchable := BucketOne(cams, i, q, p, out, keys, batchable);
    }
    assert cams[..|cams|] == cams;
  }

  /** Slice one bucket into consecutive groups of at most `max`. */
  method Slice(key: string, members: seq<Camera>, max: nat) returns (out: seq<GroupPlan>)
    requires max >= 1
    ensures out == Chunks(key, members, max, 0, 0)
  {
    out := [];
    var chunk, off := 0, 0;
    while off < |members|
      invariant Chunks(key, members, max, 0, 0) == out + Chunks(key, members, max, chunk, off)
    {
      var end := Min(|members|, off + max);
      out := out + [GroupPlan(key + "-" + Dec(chunk), members[off..end], false)];
      chunk, off := chunk + 1, off + max;
    }
  }

  /** The groups as they are pushed: single ones, then each bucket's slices in key order. */
  method PushGroups(cams: seq<Camera>, q: set<string>, p: set<string>, groupMax: int) returns (out: seq<GroupPlan>)
    requires DistinctIds(cams)
    ensures out == Unsorted(cams, q, p, groupMax)
  {
    var max := if groupMax < 1 then 1 else groupMax;
    var keys, batchable;
    out, keys, batchable := Bucket(cams, q, p);
    ghost var unsorted := Unsorted(cams, q, p, groupMax);
    for j := 0 to |keys|
      invariant unsorted == out + BatchPlans(keys[j..], cams, q, p, max)
    {
      var key := keys[j];
      var members := Members(batchable[key]);
      SharedSorted(cams, key, q, p, members);
      assert keys[j..][1..] == keys[j + 1..];
      var slices := Slice(key, members, max);
      out := out + slices;
    }
    assert keys[|keys|..] == [];
  }

  /** PlanGroups: bucket, then sort and slice each bucket in key order, then sort by group id. The list is determined
      but for the order of groups that share an id, and no two do unless a shape key clashes. */
  method PlanGroups(cams: seq<Camera>, q: set<string>, p: set<string>, groupMax: int) returns (out: seq<GroupPlan>)
    requires DistinctIds(cams)
    ensures Sorted(PlanLess, out) && multiset(out) == multiset(Plan(cams, q, p, groupMax))
    ensures NoClash(cams) ==> out == Plan(cams, q, p, groupMax) && StrictlySorted(PlanLess, out)
  {
    var pushed := PushGroups(cams, q, p, groupMax);
    PlanLessIsWeak();
    out := Sort(PlanLess, pushed);
    if NoClash(cams) {
      SortGivesPlan(cams, q, p, groupMax, out);
      PlanStrict(cams, q, p, groupMax);
    }
  }

  method Members(bucket: seq<Camera>) returns (r: seq<Camera>)
    ensures Sorted(CamLess, r) && multiset(r) == multiset(bucket)
  {
    CamLessIsWeak();
    r := Sort(CamLess, bucket);
  }
}
