/** Camera to worker-group planning: the functions the planner's code is proved against. */
module Grouping {
  import opened Ordering
  import opened Text
  import opened Arithmetic

  datatype Camera = Camera(
    id: string, url: string, substream: string, recordingMode: string,
    rotation: int, mtxProxy: bool, detectors: seq<string>)

  datatype GroupPlan = GroupPlan(groupId: string, members: seq<Camera>, probation: bool)

  predicate IsNone(cam: Camera) { cam.detectors == ["none"] }

  predicate NeedsTranscode(cam: Camera) { cam.rotation != 0 || cam.mtxProxy }

  /** The separator goes in whenever the text so far is non-empty. */
  function JoinPlus(out: string, names: seq<string>): string
    decreases |names|
  {
    if names == [] then out
    else JoinPlus((if out != "" then out + "+" else out) + names[0], names[1..])
  }

  function DetectorsKey(cam: Camera): string {
    if cam.detectors == [] then "all" else JoinPlus("", SetOf(cam.detectors))
  }

  function ShapeKey(cam: Camera): string {
    if IsNone(cam) then "none"
    else if NeedsTranscode(cam) then "transcode"
    else DetectorsKey(cam)
  }

  predicate BespokeKey(key: string) { key == "none" || key == "transcode" }

  predicate Batchable(c: Camera, q: set<string>, p: set<string>) {
    c.id !in q && c.id !in p && !BespokeKey(ShapeKey(c))
  }

  function Single(c: Camera, p: set<string>): GroupPlan {
    if c.id in p then GroupPlan("probation-" + c.id, [c], true)
    else GroupPlan("solo-" + c.id, [c], false)
  }

  /** Probation and bespoke cameras, one plan each, in input order. */
  function Singles(cams: seq<Camera>, q: set<string>, p: set<string>): seq<GroupPlan> {
    if cams == [] then []
    else
      (if cams[0].id in q || Batchable(cams[0], q, p) then [] else [Single(cams[0], p)])
      + Singles(cams[1..], q, p)
  }

  predicate CamLess(a: Camera, b: Camera) { StrLess(a.id, b.id) }

  lemma CamLessIsWeak()
    ensures StrictWeak(CamLess)
  {
    StrLessIsOrder();
    forall a: Camera, b: Camera, c: Camera | CamLess(a, c)
      ensures CamLess(a, b) || CamLess(b, c)
    {
      StrLessTrichotomy(a.id, b.id);
      if StrLess(b.id, a.id) { StrLessTransitive(b.id, a.id, c.id); }
    }
  }

  predicate PlanLess(a: GroupPlan, b: GroupPlan) { StrLess(a.groupId, b.groupId) }

  lemma PlanLessIsWeak()
    ensures StrictWeak(PlanLess)
  {
    StrLessIsOrder();
    forall a: GroupPlan, b: GroupPlan, c: GroupPlan | PlanLess(a, c)
      ensures PlanLess(a, b) || PlanLess(b, c)
    {
      StrLessTrichotomy(a.groupId, b.groupId);
      if StrLess(b.groupId, a.groupId) { StrLessTransitive(b.groupId, a.groupId, c.groupId); }
    }
  }

  /** The cameras sharing a batched shape, before sorting. */
  function Shared(cams: seq<Camera>, key: string, q: set<string>, p: set<string>): seq<Camera> {
    Filter(c => Batchable(c, q, p) && ShapeKey(c) == key, cams)
  }

  function MembersOf(cams: seq<Camera>, key: string, q: set<string>, p: set<string>): (r: seq<Camera>)
    ensures Sorted(CamLess, r) && multiset(r) == multiset(Shared(cams, key, q, p))
    ensures forall c :: c in r <==> c in cams && Batchable(c, q, p) && ShapeKey(c) == key
  {
    CamLessIsWeak();
    SortBy(CamLess, Shared(cams, key, q, p))
  }

  /** Consecutive slices of at most `max`, numbered from `chunk`. */
  function Chunks(key: string, ms: seq<Camera>, max: nat, chunk: nat, off: nat): seq<GroupPlan>
    requires max >= 1
    decreases |ms| - off
  {
    if off >= |ms| then []
    else
      [GroupPlan(key + "-" + Dec(chunk), ms[off..Min(|ms|, off + max)], false)]
      + Chunks(key, ms, max, chunk + 1, off + max)
  }

  function BatchKeys(cams: seq<Camera>, q: set<string>, p: set<string>): seq<string> {
    if cams == [] then []
    else
      var c := cams[|cams| - 1];
      BatchKeys(cams[..|cams| - 1], q, p) + (if Batchable(c, q, p) then [ShapeKey(c)] else [])
  }

  function BatchPlans(keys: seq<string>, cams: seq<Camera>, q: set<string>, p: set<string>, max: nat): seq<GroupPlan>
    requires max >= 1
  {
    if keys == [] then []
    else Chunks(keys[0], MembersOf(cams, keys[0], q, p), max, 0, 0) + BatchPlans(keys[1..], cams, q, p, max)
  }

  function GroupMax(groupMax: int): (m: nat)
    ensures m >= 1
  {
    if groupMax < 1 then 1 else groupMax
  }

  function Unsorted(cams: seq<Camera>, q: set<string>, p: set<string>, groupMax: int): seq<GroupPlan> {
    Singles(cams, q, p) + BatchPlans(SetOf(BatchKeys(cams, q, p)), cams, q, p, GroupMax(groupMax))
  }

  function Plan(cams: seq<Camera>, q: set<string>, p: set<string>, groupMax: int): (r: seq<GroupPlan>)
    ensures multiset(r) == multiset(Unsorted(cams, q, p, groupMax))
    ensures forall g :: g in r <==> g in Unsorted(cams, q, p, groupMax)
    ensures Sorted(PlanLess, r)
  {
    PlanLessIsWeak();
    SortBy(PlanLess, Unsorted(cams, q, p, groupMax))
  }

  /** Camera ids are the primary key of the cameras table. */
  ghost predicate DistinctIds(cams: seq<Camera>) {
    forall i, j :: 0 <= i < j < |cams| ==> cams[i].id != cams[j].id
  }

  /** A shape key whose chunk ids can be mistaken for a bespoke or probation id. */
  predicate KeyClash(key: string) {
    "solo-" <= key + "-" || "probation-" <= key + "-"
  }

  ghost predicate NoClash(cams: seq<Camera>) {
    forall c :: c in cams ==> !KeyClash(ShapeKey(c))
  }
}
