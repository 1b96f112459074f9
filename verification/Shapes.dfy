/** Which cameras run alone and which share a group, in terms of the cameras' own settings. */
module Shapes {
  import opened Ordering
  import opened Text
  import opened Arithmetic
  import opened Grouping
  import opened GroupingProofs
  import opened Signature

  ghost predicate SameDetectors(a: Camera, b: Camera) { forall d :: d in a.detectors <==> d in b.detectors }

  /** The list names one detector, once or more. */
  ghost predicate Only(c: Camera, name: string) { c.detectors != [] && forall d :: d in c.detectors ==> d == name }

  /** Rotated and proxied cameras need their own transcoding; "none" has no detector to share. A detector called
      "transcode" would be taken for the former. */
  ghost predicate RunsAlone(c: Camera) {
    c.rotation != 0 || c.mtxProxy || Only(c, "none") || Only(c, "transcode")
  }

  function Named(c: Camera, name: string): Camera { c.(detectors := [name]) }

  lemma KeyOfOne(c: Camera, name: string)
    requires name != "all" && name != "" && '+' !in name && Plain(name) && CleanDetectors(c.detectors)
    ensures DetectorsKey(c) == name <==> Only(c, name)
  {
    var one := Named(c, name);
    DetectorsKeyExact(c, one);
    KeyShape([name]);
    assert SetOf([name]) == [name] by {
      SetOfOne(name);
    }
    assert DetectorsKey(one) == name;
    if c.detectors == [] { assert name !in c.detectors; }
    assert (forall d :: d in c.detectors <==> d in [name]) <==> Only(c, name) by {
      assert name in [name];
      if Only(c, name) { assert c.detectors[0] in c.detectors; }
    }
  }

  lemma SetOfOne(name: string)
    ensures SetOf([name]) == [name]
  {
    StrLessIsOrder();
    SortedUnique(StrLess, SetOf([name]), [name]);
  }

  lemma ShapeExact(c: Camera)
    requires CleanCamera(c)
    ensures BespokeKey(ShapeKey(c)) <==> RunsAlone(c)
  {
    KeyOfOne(c, "none");
    KeyOfOne(c, "transcode");
    if IsNone(c) { assert c.detectors == ["none"]; }
  }

  /** Main result: a camera outside quarantine and probation runs alone exactly when its settings ask for it. */
  lemma SoloExactly(cams: seq<Camera>, q: set<string>, p: set<string>, groupMax: int, c: Camera, g: GroupPlan)
    requires DistinctIds(cams) && NoClash(cams) && c in cams && CleanCamera(c) && c.id !in q && c.id !in p
    requires g in Plan(cams, q, p, groupMax) && c in g.members
    ensures g == GroupPlan("solo-" + c.id, [c], false) <==> RunsAlone(c)
    ensures g.groupId == "solo-" + c.id <==> RunsAlone(c)
  {
    ShapeExact(c);
    PlanAreGroups(cams, q, p, groupMax, g);
    if Batchable(c, q, p) {
      NotBespoke(cams, q, p, c, g);
      var k := BatchOf(cams, q, p, GroupMax(groupMax), c, g);
      if g.groupId == "solo-" + c.id {
        ChunkKeyOk(cams, q, p, g, ShapeKey(c), k, GroupMax(groupMax));
        ChunkIdNotPrefixed(ShapeKey(c), k, "solo-", c.id);
      }
    } else {
      var h := HomeGroup(cams, q, p, groupMax, c);
      assert IsSingle(Single(c, p), c, q, p);
      assert IsGroup(Single(c, p), cams, q, p, groupMax);
    }
  }

  /** Cameras that share a group are plain, off probation and run the same detectors. */
  lemma TogetherAlike(cams: seq<Camera>, q: set<string>, p: set<string>, groupMax: int, g: GroupPlan, c: Camera,
                      d: Camera)
    requires DistinctIds(cams) && g in Plan(cams, q, p, groupMax) && c in g.members && d in g.members && c != d
    requires CleanCamera(c) && CleanCamera(d)
    ensures !RunsAlone(c) && c.id !in p && SameDetectors(c, d)
  {
    PlanAreGroups(cams, q, p, groupMax, g);
    GroupMembers(cams, q, p, groupMax, g);
    var i, j :| 0 <= i < |g.members| && 0 <= j < |g.members| && g.members[i] == c && g.members[j] == d;
    assert i != j;
    AlikeKeys(c, d);
  }

  lemma AlikeKeys(c: Camera, d: Camera)
    requires CleanCamera(c) && CleanCamera(d) && !BespokeKey(ShapeKey(c)) && ShapeKey(c) == ShapeKey(d)
    ensures !RunsAlone(c) && SameDetectors(c, d)
  {
    ShapeExact(c);
    ShapeExact(d);
    DetectorsKeyExact(c, d);
  }

  /** How many cameras a group may hold. */
  function Limit(groupMax: int): int { if groupMax >= 1 then groupMax else 1 }

  /** All of g come before all of h by id. */
  ghost predicate Before(g: GroupPlan, h: GroupPlan) {
    forall c, d :: c in g.members && d in h.members ==> StrLess(c.id, d.id)
  }

  /** Main result: plain cameras with the same detectors share groups as far as the limit allows: of two groups that
      hold such cameras, the one with the smaller ids is full. */
  lemma AlikePacked(cams: seq<Camera>, q: set<string>, p: set<string>, groupMax: int, g: GroupPlan, h: GroupPlan,
                    c: Camera, d: Camera)
    requires DistinctIds(cams) && c in cams && d in cams && CleanCamera(c) && CleanCamera(d)
    requires !RunsAlone(c) && !RunsAlone(d) && c.id !in p && d.id !in p && SameDetectors(c, d)
    requires g in Plan(cams, q, p, groupMax) && h in Plan(cams, q, p, groupMax) && c in g.members && d in h.members
    ensures || g == h
            || (Before(g, h) && |g.members| == Limit(groupMax))
            || (Before(h, g) && |h.members| == Limit(groupMax))
    ensures 1 <= |g.members| <= Limit(groupMax)
  {
    var max := GroupMax(groupMax);
    PlanAreGroups(cams, q, p, groupMax, g);
    PlanAreGroups(cams, q, p, groupMax, h);
    GroupMembers(cams, q, p, groupMax, g);
    GroupMembers(cams, q, p, groupMax, h);
    ShapeExact(c);
    ShapeExact(d);
    DetectorsKeyExact(c, d);
    NotBespoke(cams, q, p, c, g);
    NotBespoke(cams, q, p, d, h);
    SameShapePacked(cams, q, p, max, g, h, c, d);
  }

  lemma SameShapePacked(cams: seq<Camera>, q: set<string>, p: set<string>, max: nat, g: GroupPlan, h: GroupPlan,
                        c: Camera, d: Camera)
    requires DistinctIds(cams) && max >= 1 && IsBatch(g, cams, q, p, max) && IsBatch(h, cams, q, p, max)
    requires c in g.members && d in h.members && ShapeKey(c) == ShapeKey(d)
    ensures g == h || (Before(g, h) && |g.members| == max) || (Before(h, g) && |h.members| == max)
  {
    var k := BatchOf(cams, q, p, max, c, g);
    var m := BatchOf(cams, q, p, max, d, h);
    var ms := MembersOf(cams, ShapeKey(c), q, p);
    MembersNoDuplicates(cams, ShapeKey(c), q, p);
    if k < m {
      EarlierFull(g, h, ShapeKey(c), k, m, ms, max);
    } else if m < k {
      EarlierFull(h, g, ShapeKey(c), m, k, ms, max);
    }
  }

  lemma EarlierFull(g: GroupPlan, h: GroupPlan, key: string, k: nat, m: nat, ms: seq<Camera>, max: nat)
    requires max >= 1 && k < m && StrictlySorted(CamLess, ms) && IsChunk(g, key, k, ms, max)
    requires IsChunk(h, key, m, ms, max)
    ensures Before(g, h) && |g.members| == max
  {
    var lo := ChunkSlice(g, key, k, ms, max);
    var mid := ChunkSlice(h, key, m, ms, max);
    ChunksStep(k, m, max);
    SliceBefore(g, h, ms, lo, mid, max);
  }

  lemma ChunksStep(k: nat, m: nat, max: nat)
    requires k < m
    ensures k * max + max <= m * max
  {
    MulMonotone(k + 1, m, max);
  }

  lemma ChunkSlice(g: GroupPlan, key: string, k: nat, ms: seq<Camera>, max: nat) returns (lo: nat)
    requires IsChunk(g, key, k, ms, max)
    ensures lo == k * max < |ms| && g.members == ms[lo..Min(|ms|, lo + max)]
  {
    MulMonotone(0, k, max);
    lo := k * max;
  }

  lemma SliceBefore(g: GroupPlan, h: GroupPlan, ms: seq<Camera>, lo: nat, mid: nat, max: nat)
    requires lo + max <= mid < |ms| && StrictlySorted(CamLess, ms)
    requires g.members == ms[lo..Min(|ms|, lo + max)] && h.members == ms[mid..Min(|ms|, mid + max)]
    ensures Before(g, h) && |g.members| == max
  {
    forall c, d | c in g.members && d in h.members ensures StrLess(c.id, d.id) {
      var i :| 0 <= i < |g.members| && g.members[i] == c;
      var j :| 0 <= j < |h.members| && h.members[j] == d;
      assert CamLess(ms[lo + i], ms[mid + j]);
    }
  }
}
