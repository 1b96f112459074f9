/** What a reconcile pass achieves, and what runs of uninterrupted passes keep. */
module FleetReconcile {
  import opened Ordering
  import opened Grouping
  import opened GroupingProofs
  import opened Signature
  import opened FleetSteps

  ghost predicate DistinctGroups(plans: seq<GroupPlan>) {
    forall i, j :: 0 <= i < j < |plans| ==> plans[i].groupId != plans[j].groupId
  }

  lemma PlansDistinct(f: Fleet, cams: seq<Camera>, now: int)
    requires DistinctIds(cams) && NoClash(cams)
    ensures DistinctGroups(PlansFor(f, cams, now))
  {
    var plans := PlansFor(f, cams, now);
    PlanStrict(cams, BackingOff(f.quarantine, now), Expired(f.quarantine, now), f.groupMax);
    forall i, j | 0 <= i < j < |plans| ensures plans[i].groupId != plans[j].groupId {
      assert PlanLess(plans[i], plans[j]);
      StrLessTrichotomy(plans[i].groupId, plans[j].groupId);
    }
  }

  ghost predicate NewWorker(w: Worker, plan: GroupPlan, serial: nat) {
    w.plan == plan && w.signature == Sig(plan) && w.strikes == map[] && !w.hit && !w.retired && w.serial >= serial
  }

  lemma PlannedFirst(plans: seq<GroupPlan>, gid: string)
    requires plans != []
    ensures Planned(plans, gid) <==> plans[0].groupId == gid || Planned(plans[1..], gid)
  {
    var rest := plans[1..];
    if Planned(rest, gid) {
      var i :| 0 <= i < |rest| && rest[i].groupId == gid;
      assert plans[i + 1].groupId == gid;
    }
    if Planned(plans, gid) {
      var i :| 0 <= i < |plans| && plans[i].groupId == gid;
      assert i > 0 ==> rest[i - 1].groupId == gid;
    }
  }

  /** The start loop leaves running groups alone and starts a fresh worker for every other plan. */
  lemma {:induction false} StartMissingExact(f: Fleet, plans: seq<GroupPlan>)
    requires DistinctGroups(plans)
    ensures var r := StartMissing(f, plans);
            && r == f.(workers := r.workers, nextSerial := r.nextSerial)
            && (forall gid :: gid in r.workers <==> gid in f.workers || Planned(plans, gid))
            && (forall gid :: gid in f.workers ==> r.workers[gid] == f.workers[gid])
            && (forall i :: 0 <= i < |plans| && plans[i].groupId !in f.workers ==>
                  NewWorker(r.workers[plans[i].groupId], plans[i], f.nextSerial))
    decreases |plans|
  {
    if plans != [] {
      var rest := plans[1..];
      var g := if plans[0].groupId in f.workers then f else Start(f, plans[0]);
      assert forall i :: 0 <= i < |rest| ==> rest[i] == plans[i + 1];
      StartMissingExact(g, rest);
      var r := StartMissing(g, rest);
      forall gid ensures gid in r.workers <==> gid in f.workers || Planned(plans, gid) { PlannedFirst(plans, gid); }
      forall i | 0 <= i < |plans| && plans[i].groupId !in f.workers
        ensures NewWorker(r.workers[plans[i].groupId], plans[i], f.nextSerial)
      {
        if i > 0 { assert rest[i - 1] == plans[i]; }
      }
    }
  }

  ghost predicate FreshSerials(f: Fleet) {
    forall gid :: gid in f.workers ==> f.workers[gid].serial < f.nextSerial
  }

  /** The running groups are exactly the planned ones, live and under the planned signatures. */
  ghost predicate Matches(f: Fleet, plans: seq<GroupPlan>) {
    && (forall gid :: gid in f.workers <==> Planned(plans, gid))
    && forall i :: 0 <= i < |plans| ==>
         f.workers[plans[i].groupId].signature == Sig(plans[i]) && !f.workers[plans[i].groupId].retired
  }

  lemma ApplyMatches(f: Fleet, plans: seq<GroupPlan>)
    requires DistinctGroups(plans) && FreshSerials(f)
    ensures var f' := Apply(f, plans);
            && Matches(f', plans)
            && f' == f.(workers := f'.workers, nextSerial := f'.nextSerial)
            && forall gid :: gid in f.workers && gid in f'.workers ==>
                 (f'.workers[gid] == f.workers[gid] <==> Keeps(plans, gid, f.workers[gid]))
  {
    var g := StopOthers(f, plans);
    StartMissingExact(g, plans);
    var f' := Apply(f, plans);
    forall gid | gid in f.workers && gid in f'.workers
      ensures f'.workers[gid] == f.workers[gid] <==> Keeps(plans, gid, f.workers[gid])
    {
      if !Keeps(plans, gid, f.workers[gid]) {
        assert gid !in g.workers && Planned(plans, gid);
        var i :| 0 <= i < |plans| && plans[i].groupId == gid;
        assert f'.workers[gid].serial >= f.nextSerial;
      }
    }
    forall i | 0 <= i < |plans|
      ensures var w := f'.workers[plans[i].groupId]; w.signature == Sig(plans[i]) && !w.retired
    {
      var gid := plans[i].groupId;
      if gid in g.workers {
        var j :| 0 <= j < |plans| && plans[j].groupId == gid && Sig(plans[j]) == f.workers[gid].signature;
        assert i == j;
      }
    }
  }

  /** Main result: after a pass the running groups are the plan, with matching signatures and live
      workers; a worker survives it exactly when its group is planned unchanged and it had not retired. */
  lemma PassMatchesPlan(f: Fleet, cams: seq<Camera>, now: int)
    requires DistinctIds(cams) && NoClash(cams) && FreshSerials(f)
    ensures var f' := Reconcile(f, cams, now);
            var plans := PlansFor(f, cams, now);
            && Matches(f', plans)
            && (forall gid :: gid in f.workers && gid in f'.workers ==>
                  (f'.workers[gid] == f.workers[gid] <==> Keeps(plans, gid, f.workers[gid])))
            && f'.quarantine == Resolve(f.quarantine, now)
            && f'.recentFaults == f.recentFaults && f'.groupMax == f.groupMax
  {
    PlansDistinct(f, cams, now);
    ApplyMatches(f.(quarantine := Resolve(f.quarantine, now)), PlansFor(f, cams, now));
  }

  lemma ResolveStable(q: map<string, Quarantine>, now: int, later: int)
    requires forall c :: c in q ==> (now < q[c].until <==> later < q[c].until)
    ensures var r := Resolve(q, now);
            Resolve(r, later) == r && BackingOff(r, later) == BackingOff(q, now) && Expired(r, later) == Expired(q, now)
  {
  }

  lemma {:induction false} StartNothing(f: Fleet, plans: seq<GroupPlan>)
    requires forall i :: 0 <= i < |plans| ==> plans[i].groupId in f.workers
    ensures StartMissing(f, plans) == f
    decreases |plans|
  {
    if plans != [] { StartNothing(f, plans[1..]); }
  }

  lemma ApplyNothing(f: Fleet, plans: seq<GroupPlan>)
    requires Matches(f, plans)
    ensures Apply(f, plans) == f
  {
    forall gid | gid in f.workers ensures Keeps(plans, gid, f.workers[gid]) {
      var i :| 0 <= i < |plans| && plans[i].groupId == gid;
    }
    assert StopOthers(f, plans).workers == f.workers;
    StartNothing(f, plans);
  }

  /** Repeating a pass before any further deadline changes nothing at all. */
  lemma PassIdempotent(f: Fleet, cams: seq<Camera>, now: int, later: int)
    requires DistinctIds(cams) && NoClash(cams) && FreshSerials(f)
    requires forall c :: c in f.quarantine ==> (now < f.quarantine[c].until <==> later < f.quarantine[c].until)
    ensures Reconcile(Reconcile(f, cams, now), cams, later) == Reconcile(f, cams, now)
  {
    var f' := Reconcile(f, cams, now);
    PassMatchesPlan(f, cams, now);
    ResolveStable(f.quarantine, now, later);
    ApplyNothing(f', PlansFor(f, cams, now));
    assert f'.(quarantine := Resolve(f'.quarantine, later)) == f';
  }

  // ---- Which cameras run ---------------------------------------------------------------------

  ghost predicate HasMember(plan: GroupPlan, id: string) {
    exists j :: 0 <= j < |plan.members| && plan.members[j].id == id
  }

  ghost predicate Clean(cams: seq<Camera>) {
    DistinctIds(cams) && NoClash(cams) && forall c :: c in cams ==> CleanCamera(c)
  }

  /** Every worker runs a clean plan of its own group under that plan's signature. */
  ghost predicate Sound(f: Fleet) {
    forall gid :: gid in f.workers ==>
      var w := f.workers[gid];
      w.plan.groupId == gid && w.signature == Sig(w.plan) && CleanPlan(w.plan) && w.serial < f.nextSerial
  }

  lemma SameMembersRun(a: GroupPlan, b: GroupPlan, id: string)
    requires SamePlan(a, b)
    ensures HasMember(a, id) <==> HasMember(b, id)
    ensures |a.members| == |b.members|
  {
    if HasMember(a, id) {
      var j :| 0 <= j < |a.members| && a.members[j].id == id;
      assert SameConfig(a.members[j], b.members[j]);
      assert b.members[j].id == id;
    }
    if HasMember(b, id) {
      var j :| 0 <= j < |b.members| && b.members[j].id == id;
      assert SameConfig(a.members[j], b.members[j]);
      assert a.members[j].id == id;
    }
  }

  ghost predicate CleanPlans(plans: seq<GroupPlan>) {
    DistinctGroups(plans) && forall g :: g in plans ==> CleanPlan(g)
  }

  lemma PlansClean(f: Fleet, cams: seq<Camera>, now: int)
    requires Clean(cams)
    ensures CleanPlans(PlansFor(f, cams, now))
  {
    PlansDistinct(f, cams, now);
    forall g | g in PlansFor(f, cams, now) ensures CleanPlan(g) {
      PlannedIsClean(cams, BackingOff(f.quarantine, now), Expired(f.quarantine, now), f.groupMax, g);
    }
  }

  lemma {:induction false} StartMissingSerials(f: Fleet, plans: seq<GroupPlan>)
    requires FreshSerials(f)
    ensures FreshSerials(StartMissing(f, plans))
    decreases |plans|
  {
    if plans != [] {
      if plans[0].groupId in f.workers {
        StartMissingSerials(f, plans[1..]);
      } else {
        StartMissingSerials(Start(f, plans[0]), plans[1..]);
      }
    }
  }

  lemma ApplySound(f: Fleet, plans: seq<GroupPlan>)
    requires Sound(f) && CleanPlans(plans)
    ensures Sound(Apply(f, plans))
  {
    var f', g := Apply(f, plans), StopOthers(f, plans);
    StartMissingSerials(g, plans);
    StartMissingExact(g, plans);
    forall gid | gid in f'.workers
      ensures var w := f'.workers[gid]; w.plan.groupId == gid && w.signature == Sig(w.plan) && CleanPlan(w.plan)
    {
      if gid !in g.workers {
        var i :| 0 <= i < |plans| && plans[i].groupId == gid;
        assert NewWorker(f'.workers[gid], plans[i], g.nextSerial);
      }
    }
  }

  lemma PassSound(f: Fleet, cams: seq<Camera>, now: int)
    requires Sound(f) && Clean(cams)
    ensures Sound(Reconcile(f, cams, now))
  {
    PlansClean(f, cams, now);
    ApplySound(f.(quarantine := Resolve(f.quarantine, now)), PlansFor(f, cams, now));
  }

  /** A worker of a matching fleet runs, configuration for configuration, the plan of its group. */
  lemma WorkerRunsPlan(f: Fleet, plans: seq<GroupPlan>, gid: string) returns (g: GroupPlan)
    requires Sound(f) && Matches(f, plans) && CleanPlans(plans) && gid in f.workers
    ensures g in plans && g.groupId == gid && SamePlan(f.workers[gid].plan, g)
  {
    var i :| 0 <= i < |plans| && plans[i].groupId == gid;
    g := plans[i];
    SignatureExact(f.workers[gid].plan, g);
  }

  ghost predicate RunsOnce(f: Fleet, id: string) {
    exists gid :: gid in f.workers && HasMember(f.workers[gid].plan, id)
                  && forall h :: h in f.workers && HasMember(f.workers[h].plan, id) ==> h == gid
  }

  lemma MemberById(cams: seq<Camera>, q: set<string>, p: set<string>, groupMax: int, g: GroupPlan, c: Camera)
    requires DistinctIds(cams) && c in cams && g in Plan(cams, q, p, groupMax)
    ensures HasMember(g, c.id) <==> c in g.members
  {
    PlanAreGroups(cams, q, p, groupMax, g);
    GroupMembers(cams, q, p, groupMax, g);
    if HasMember(g, c.id) {
      var j :| 0 <= j < |g.members| && g.members[j].id == c.id;
      assert g.members[j] in g.members;
      assert g.members[j] == c;
    }
    if c in g.members {
      var j :| 0 <= j < |g.members| && g.members[j] == c;
      assert g.members[j].id == c.id;
    }
  }

  lemma MatchingRuns(f: Fleet, plans: seq<GroupPlan>, id: string, gid: string) returns (g: GroupPlan)
    requires Sound(f) && Matches(f, plans) && CleanPlans(plans) && gid in f.workers
    ensures g in plans && g.groupId == gid
    ensures HasMember(f.workers[gid].plan, id) <==> HasMember(g, id)
    ensures |f.workers[gid].plan.members| == |g.members|
  {
    g := WorkerRunsPlan(f, plans, gid);
    SameMembersRun(f.workers[gid].plan, g, id);
  }

  lemma MatchingRunsOnce(f: Fleet, plans: seq<GroupPlan>, id: string, i: nat)
    requires Sound(f) && Matches(f, plans) && CleanPlans(plans)
    requires i < |plans| && HasMember(plans[i], id)
    requires forall j :: 0 <= j < |plans| && HasMember(plans[j], id) ==> j == i
    ensures RunsOnce(f, id)
  {
    var gid := plans[i].groupId;
    assert Planned(plans, gid);
    var g := MatchingRuns(f, plans, id, gid);
    var k :| 0 <= k < |plans| && plans[k] == g;
    assert k == i;
    forall h | h in f.workers && HasMember(f.workers[h].plan, id) ensures h == gid {
      var g' := MatchingRuns(f, plans, id, h);
      var j :| 0 <= j < |plans| && plans[j] == g';
    }
  }

  ghost predicate RunsNowhere(f: Fleet, id: string) {
    forall gid :: gid in f.workers ==> !HasMember(f.workers[gid].plan, id)
  }

  /** Where a camera runs after a pass that found quarantine q. */
  ghost predicate Placed(q: map<string, Quarantine>, now: int, f': Fleet, id: string) {
    if id in q && now < q[id].until then RunsNowhere(f', id) else RunsOnce(f', id)
  }

  lemma PassRunsCamera(f: Fleet, cams: seq<Camera>, now: int, c: Camera)
    requires Sound(f) && Clean(cams) && c in cams
    ensures Placed(f.quarantine, now, Reconcile(f, cams, now), c.id)
  {
    PassMatchesPlan(f, cams, now);
    PlansClean(f, cams, now);
    PassSound(f, cams, now);
    CameraPlannedOnce(f, cams, now, c);
    if c.id in f.quarantine && now < f.quarantine[c.id].until {
      MatchingRunsNowhere(Reconcile(f, cams, now), PlansFor(f, cams, now), c.id);
    } else {
      MatchingRunsPlanned(Reconcile(f, cams, now), PlansFor(f, cams, now), c.id);
    }
  }

  lemma MatchingRunsNowhere(f: Fleet, plans: seq<GroupPlan>, id: string)
    requires Sound(f) && Matches(f, plans) && CleanPlans(plans) && forall g :: g in plans ==> !HasMember(g, id)
    ensures RunsNowhere(f, id)
  {
    forall gid | gid in f.workers ensures !HasMember(f.workers[gid].plan, id) {
      var g := MatchingRuns(f, plans, id, gid);
    }
  }

  lemma MatchingRunsPlanned(f: Fleet, plans: seq<GroupPlan>, id: string)
    requires Sound(f) && Matches(f, plans) && CleanPlans(plans) && PlannedOnce(plans, id)
    ensures RunsOnce(f, id)
  {
    var i :| 0 <= i < |plans| && OnlyPlan(plans, id, i);
    MatchingRunsOnce(f, plans, id, i);
  }

  ghost predicate OnlyPlan(plans: seq<GroupPlan>, id: string, i: nat)
    requires i < |plans|
  {
    HasMember(plans[i], id) && forall j :: 0 <= j < |plans| && HasMember(plans[j], id) ==> j == i
  }

  /** Exactly one plan of the list has the camera. */
  ghost predicate PlannedOnce(plans: seq<GroupPlan>, id: string) {
    exists i :: 0 <= i < |plans| && OnlyPlan(plans, id, i)
  }

  lemma OnceById(plans: seq<GroupPlan>, c: Camera, has: GroupPlan -> bool)
    requires forall i :: 0 <= i < |plans| ==> (has(plans[i]) <==> c in plans[i].members)
    requires InExactlyOne(plans, c)
    ensures exists i :: 0 <= i < |plans| && has(plans[i]) && forall j :: 0 <= j < |plans| && has(plans[j]) ==> j == i
  {
    var i :| 0 <= i < |plans| && c in plans[i].members &&
             forall j :: 0 <= j < |plans| && c in plans[j].members ==> j == i;
    assert has(plans[i]);
  }

  lemma CameraPlannedOnce(f: Fleet, cams: seq<Camera>, now: int, c: Camera)
    requires Clean(cams) && c in cams
    ensures var plans := PlansFor(f, cams, now);
            if c.id in f.quarantine && now < f.quarantine[c.id].until
            then forall g :: g in plans ==> !HasMember(g, c.id)
            else PlannedOnce(plans, c.id)
  {
    var q, p := BackingOff(f.quarantine, now), Expired(f.quarantine, now);
    PlanPartitions(cams, q, p, f.groupMax, c);
    forall g | g in PlansFor(f, cams, now) ensures HasMember(g, c.id) <==> c in g.members {
      MemberById(cams, q, p, f.groupMax, g, c);
    }
    if c.id !in q {
      var plans, has := PlansFor(f, cams, now), (g: GroupPlan) => HasMember(g, c.id);
      forall i | 0 <= i < |plans| ensures has(plans[i]) <==> c in plans[i].members { assert plans[i] in plans; }
      OnceById(plans, c, has);
      var i :| 0 <= i < |plans| && has(plans[i]) && forall j :: 0 <= j < |plans| && has(plans[j]) ==> j == i;
      assert OnlyPlan(plans, c.id, i);
    }
  }

  /** Passes see fleets of clean cameras, and groups are started from clean plans; markers, retirements, graduations
      and the order of everything are arbitrary. */
  ghost predicate Tidy(s: Step) {
    (s.Pass? ==> Clean(s.cams)) && (s.Started? ==> CleanPlan(s.plan))
  }

  /** The workers, plans and serials are those of f. */
  ghost predicate SameWorkers(f: Fleet, f': Fleet) {
    && f'.workers.Keys == f.workers.Keys && f'.nextSerial == f.nextSerial
    && forall g :: g in f.workers ==>
         && f'.workers[g].plan == f.workers[g].plan && f'.workers[g].retired == f.workers[g].retired
         && f'.workers[g].signature == f.workers[g].signature && f'.workers[g].serial == f.workers[g].serial
  }

  lemma MarkerKeepsPlans(f: Fleet, gid: string, camera: string, nowt: int, now: int)
    requires gid in f.workers
    ensures SameWorkers(f, HandleMarker(f, gid, camera, nowt, now))
  {
  }

  lemma SameShape(f: Fleet, f': Fleet)
    requires SameWorkers(f, f') && Sound(f)
    ensures Sound(f')
  {
  }

  lemma QuietSound(f: Fleet, s: Step)
    requires Enabled(f, s) && Sound(f) && (s.BatchDone? || s.Healthy? || s.Resolved? || s.Stopped?)
    ensures Sound(Do(f, s))
  {
  }

  lemma StepSound(f: Fleet, s: Step)
    requires Enabled(f, s) && Tidy(s) && Sound(f)
    ensures Sound(Do(f, s))
  {
    match s
    case Marker(gid, camera, nowt, now) =>
      MarkerKeepsPlans(f, gid, camera, nowt, now);
      SameShape(f, Do(f, s));
    case Pass(cams, at) => PassSound(f, cams, at);
    case Started(plan) =>
    case _ => QuietSound(f, s);
  }

  lemma {:induction false} RunSound(groupMax: int, steps: seq<Step>, states: seq<Fleet>, n: nat)
    requires IsRun(groupMax, steps, states) && n <= |steps|
    requires forall i :: 0 <= i < |steps| ==> Tidy(steps[i])
    ensures Sound(states[n])
  {
    if n > 0 {
      RunSound(groupMax, steps, states, n - 1);
      StepSound(states[n - 1], steps[n - 1]);
    }
  }

  /** Main result, in every run over clean fleets: after a pass every enabled camera runs in exactly one worker,
      unless it is backing off, when none runs it; so a camera is back at the first pass after its deadline. */
  lemma PassRunsEveryCamera(groupMax: int, steps: seq<Step>, states: seq<Fleet>, n: nat, c: Camera)
    requires IsRun(groupMax, steps, states) && n < |steps|
    requires forall i :: 0 <= i < |steps| ==> Tidy(steps[i])
    requires steps[n].Pass? && c in steps[n].cams
    ensures Placed(states[n].quarantine, steps[n].at, states[n + 1], c.id)
  {
    RunSound(groupMax, steps, states, n);
    assert Tidy(steps[n]);
    PassRunsCamera(states[n], steps[n].cams, steps[n].at, c);
    DoneByPass(groupMax, steps, states, n);
  }

  lemma DoneByPass(groupMax: int, steps: seq<Step>, states: seq<Fleet>, n: nat)
    requires IsRun(groupMax, steps, states) && n < |steps| && steps[n].Pass?
    ensures states[n + 1] == Reconcile(states[n], steps[n].cams, steps[n].at)
  {
    assert states[n + 1] == Do(states[n], steps[n]);
  }
}
