/** How a quarantine back-off does double: runs that keep to all conditions of an ordinary run but one. */
module EscalationRuns {
  import opened Ordering
  import opened Arithmetic
  import opened Text
  import opened Grouping
  import opened GroupingProofs
  import opened Signature
  import opened FleetSteps
  import opened FleetReconcile
  import opened FleetEscalation

  // ---- Runs that miss one condition --------------------------------------------------------------

  /** A step over the fleet `cams` that keeps to every condition of an ordinary step but `missing`. */
  ghost predicate AllBut(missing: Condition, cams: seq<Camera>, f: Fleet, s: Step) {
    && (s.Pass? ==> s.cams == cams)
    && (missing.FromSeveral? || Meets(FromSeveral, f, s))
    && (missing.OwnMembers? || Meets(OwnMembers, f, s))
    && (missing.Uninterrupted? || Meets(Uninterrupted, f, s))
  }

  /** A worker reads the batch clock once: a marker carries that of every earlier marker from its group, unless a batch
      of that group has ended in between. */
  ghost predicate SharesClock(steps: seq<Step>, s: Step) {
    s.Marker? ==>
      forall i :: 0 <= i < |steps| && OtherClock(steps[i], s) ==> BatchDone(s.gid) in steps[i..]
  }

  predicate OtherClock(a: Step, b: Step) {
    a.Marker? && b.Marker? && a.gid == b.gid && a.nowt != b.nowt
  }

  ghost predicate OneClockPerBatch(steps: seq<Step>) {
    forall n :: 0 <= n < |steps| ==> SharesClock(steps[..n], steps[n])
  }

  /** A run over the fleet `cams` whose steps are ordinary but for one condition. */
  ghost predicate NearlyOrdinary(missing: Condition, groupMax: int, cams: seq<Camera>, steps: seq<Step>,
                                 states: seq<Fleet>)
  {
    && IsRun(groupMax, steps, states)
    && OneClockPerBatch(steps)
    && forall i :: 0 <= i < |steps| ==> AllBut(missing, cams, states[i], steps[i])
  }

  lemma ExtendRun(groupMax: int, steps: seq<Step>, states: seq<Fleet>, s: Step)
    requires IsRun(groupMax, steps, states) && Enabled(states[|steps|], s)
    ensures IsRun(groupMax, steps + [s], states + [Do(states[|steps|], s)])
  {
    var steps', states' := steps + [s], states + [Do(states[|steps|], s)];
    forall i | 0 <= i < |steps'| ensures Enabled(states'[i], steps'[i]) && states'[i + 1] == Do(states'[i], steps'[i]) {
      if i < |steps| { RunStep(groupMax, steps, states, i, states'[i], states'[i + 1], steps'[i]); }
    }
  }

  lemma RunStep(groupMax: int, steps: seq<Step>, states: seq<Fleet>, i: nat, f: Fleet, f': Fleet, s: Step)
    requires IsRun(groupMax, steps, states) && i < |steps|
    requires f == states[i] && f' == states[i + 1] && s == steps[i]
    ensures Enabled(f, s) && f' == Do(f, s)
  {
  }

  lemma ExtendClock(steps: seq<Step>, s: Step)
    requires OneClockPerBatch(steps) && SharesClock(steps, s)
    ensures OneClockPerBatch(steps + [s])
  {
    var steps' := steps + [s];
    forall n | 0 <= n < |steps'| ensures SharesClock(steps'[..n], steps'[n]) {
      if n < |steps| {
        assert steps'[..n] == steps[..n];
      } else {
        assert steps'[..n] == steps;
      }
    }
  }

  lemma ExtendAllBut(missing: Condition, cams: seq<Camera>, steps: seq<Step>, states: seq<Fleet>, s: Step, f: Fleet)
    requires |states| == |steps| + 1 && AllBut(missing, cams, states[|steps|], s)
    requires forall i :: 0 <= i < |steps| ==> AllBut(missing, cams, states[i], steps[i])
    ensures forall i :: 0 <= i < |steps + [s]| ==> AllBut(missing, cams, (states + [f])[i], (steps + [s])[i])
  {
    forall i | 0 <= i < |steps + [s]| ensures AllBut(missing, cams, (states + [f])[i], (steps + [s])[i]) {
      if i < |steps| { assert (states + [f])[i] == states[i] && (steps + [s])[i] == steps[i]; }
    }
  }

  lemma Extend(missing: Condition, groupMax: int, cams: seq<Camera>, steps: seq<Step>, states: seq<Fleet>, s: Step)
    returns (steps': seq<Step>, states': seq<Fleet>)
    requires NearlyOrdinary(missing, groupMax, cams, steps, states)
    requires Enabled(states[|steps|], s) && AllBut(missing, cams, states[|steps|], s) && SharesClock(steps, s)
    ensures NearlyOrdinary(missing, groupMax, cams, steps', states')
    ensures steps' == steps + [s] && states' == states + [Do(states[|steps|], s)]
  {
    var f := Do(states[|steps|], s);
    ExtendRun(groupMax, steps, states, s);
    ExtendClock(steps, s);
    ExtendAllBut(missing, cams, steps, states, s, f);
    steps', states' := steps + [s], states + [f];
  }

  lemma NearlySound(missing: Condition, groupMax: int, cams: seq<Camera>, steps: seq<Step>, states: seq<Fleet>)
    requires NearlyOrdinary(missing, groupMax, cams, steps, states) && Clean(cams) && !missing.Uninterrupted?
    ensures Sound(states[|steps|])
  {
    forall i | 0 <= i < |steps| ensures Tidy(steps[i]) { assert AllBut(missing, cams, states[i], steps[i]); }
    RunSound(groupMax, steps, states, |steps|);
  }

  // ---- Three markers ----------------------------------------------------------------------------------

  /** The storm window holds faults of this camera alone. */
  ghost predicate OnlyFaulter(f: Fleet, camera: string, now: int) {
    forall x :: x in f.recentFaults ==> x.camera == camera && 0 <= x.at && now - x.at <= STORM_SPAN
  }

  /** What markers for one camera from group gid leave alone. */
  ghost predicate SameButStrikes(f: Fleet, f': Fleet, gid: string) {
    && f'.groupMax == f.groupMax && f'.workers.Keys == f.workers.Keys && Alive(f', gid)
    && f'.workers[gid].plan == f.workers[gid].plan
    && forall h :: h in f.workers && h != gid ==> f'.workers[h] == f.workers[h]
  }

  /** A marker while only this camera has been faulting: no storm, so it counts. */
  ghost predicate CountsAs(f: Fleet, f': Fleet, gid: string, camera: string, now: int, hist: seq<int>)
    requires Alive(f, gid)
  {
    && SameButStrikes(f, f', gid) && OnlyFaulter(f', camera, now)
    && Strikes(f'.workers[gid], camera) == (if |hist| >= 3 then [] else hist)
    && f'.quarantine == if |hist| >= 3 then QuarantineCamera(f.quarantine, camera, now) else f.quarantine
  }

  lemma LoneFaulter(f: Fleet, gid: string, camera: string, nowt: int, now: int)
    requires Alive(f, gid) && OnlyFaulter(f, camera, now) && now >= 0
    requires forall s :: s in Strikes(f.workers[gid], camera) ==> nowt - s <= STRIKE_SPAN
    ensures CountsAs(f, HandleMarker(f, gid, camera, nowt, now), gid, camera, now,
      Strikes(f.workers[gid], camera) + [nowt])
  {
    var recent, h := f.recentFaults + [Fault(now, camera)], Strikes(f.workers[gid], camera) + [nowt];
    assert recent[0] in f.recentFaults || recent[0] == Fault(now, camera);
    assert NoteFault(f.recentFaults, camera, now) == recent;
    assert Cameras(recent) == {camera};
    assert h[0] in Strikes(f.workers[gid], camera) || h[0] == nowt;
    assert AddStrike(Strikes(f.workers[gid], camera), nowt) == h;
  }

  /** Worker m.gid has counted only strikes of this batch against the camera of m, and no other camera faulted. */
  ghost predicate Ready(missing: Condition, cams: seq<Camera>, f: Fleet, m: Step, strikes: seq<int>) {
    && m.Marker? && Alive(f, m.gid) && AllBut(missing, cams, f, m) && OnlyFaulter(f, m.camera, m.now) && m.now >= 0
    && Strikes(f.workers[m.gid], m.camera) == strikes && forall t :: t in strikes ==> t == m.nowt
  }

  /** The step m leads from f to f' and keeps to all conditions but one. */
  ghost predicate Takes(missing: Condition, cams: seq<Camera>, f: Fleet, m: Step, f': Fleet) {
    Enabled(f, m) && AllBut(missing, cams, f, m) && f' == Do(f, m)
  }

  lemma TakesMarker(missing: Condition, cams: seq<Camera>, f: Fleet, m: Step, strikes: seq<int>)
    requires Ready(missing, cams, f, m, strikes)
    ensures Takes(missing, cams, f, m, Do(f, m))
    ensures CountsAs(f, Do(f, m), m.gid, m.camera, m.now, strikes + [m.nowt])
    ensures |strikes| < 2 ==> Ready(missing, cams, Do(f, m), m, strikes + [m.nowt])
  {
    LoneFaulter(f, m.gid, m.camera, m.nowt, m.now);
  }

  /** What three markers leave behind: a condemned camera. */
  ghost predicate Convicted(f: Fleet, f': Fleet, gid: string, camera: string, now: int) {
    && f'.quarantine == QuarantineCamera(f.quarantine, camera, now)
    && SameButStrikes(f, f', gid) && Strikes(f'.workers[gid], camera) == [] && OnlyFaulter(f', camera, now)
  }

  lemma ThirdConvicts(f0: Fleet, f1: Fleet, f2: Fleet, f3: Fleet, gid: string, camera: string, nowt: int, now: int)
    requires Alive(f0, gid) && CountsAs(f0, f1, gid, camera, now, [nowt])
    requires CountsAs(f1, f2, gid, camera, now, [nowt, nowt])
    requires CountsAs(f2, f3, gid, camera, now, [nowt, nowt, nowt])
    ensures Convicted(f0, f3, gid, camera, now)
  {
  }

  /** Three markers of a batch that this camera alone has filled. */
  lemma TakesThree(missing: Condition, cams: seq<Camera>, f: Fleet, m: Step) returns (f1: Fleet, f2: Fleet, f3: Fleet)
    requires Ready(missing, cams, f, m, [])
    ensures Takes(missing, cams, f, m, f1) && Takes(missing, cams, f1, m, f2) && Takes(missing, cams, f2, m, f3)
    ensures Convicted(f, f3, m.gid, m.camera, m.now)
  {
    var one, two := [m.nowt], [m.nowt, m.nowt];
    TakesMarker(missing, cams, f, m, []);
    f1 := Do(f, m);
    TakesMarker(missing, cams, f1, m, one);
    f2 := Do(f1, m);
    TakesMarker(missing, cams, f2, m, two);
    f3 := Do(f2, m);
    ThirdConvicts(f, f1, f2, f3, m.gid, m.camera, m.nowt, m.now);
  }

  lemma SharesStill(steps: seq<Step>, m: Step)
    requires m.Marker? && SharesClock(steps, m)
    ensures SharesClock(steps + [m], m)
  {
    var steps' := steps + [m];
    forall i | 0 <= i < |steps'| && OtherClock(steps'[i], m) ensures BatchDone(m.gid) in steps'[i..] {
      assert steps'[i..] == steps[i..] + [m];
    }
  }

  /** One more marker of the same batch. */
  lemma NextMarker(missing: Condition, groupMax: int, cams: seq<Camera>, steps: seq<Step>, states: seq<Fleet>, m: Step,
                   f': Fleet)
    requires NearlyOrdinary(missing, groupMax, cams, steps, states) && m.Marker? && SharesClock(steps, m)
    requires Takes(missing, cams, states[|steps|], m, f')
    ensures NearlyOrdinary(missing, groupMax, cams, steps + [m], states + [f']) && SharesClock(steps + [m], m)
  {
    var _, _ := Extend(missing, groupMax, cams, steps, states, m);
    SharesStill(steps, m);
  }

  /** The run goes on with three markers for one camera from a live group: the third one condemns it. */
  lemma ThreeMarkers(missing: Condition, groupMax: int, cams: seq<Camera>, steps: seq<Step>, states: seq<Fleet>,
                     m: Step)
    returns (steps': seq<Step>, states': seq<Fleet>)
    requires NearlyOrdinary(missing, groupMax, cams, steps, states) && SharesClock(steps, m)
    requires Ready(missing, cams, states[|steps|], m, [])
    ensures NearlyOrdinary(missing, groupMax, cams, steps', states')
    ensures steps' == steps + [m, m, m] && |states'| == |steps'| + 1
    ensures Convicted(states[|steps|], states'[|steps'|], m.gid, m.camera, m.now)
  {
    var f1, f2, f3 := TakesThree(missing, cams, states[|steps|], m);
    NextMarker(missing, groupMax, cams, steps, states, m, f1);
    NextMarker(missing, groupMax, cams, steps + [m], states + [f1], m, f2);
    NextMarker(missing, groupMax, cams, steps + [m] + [m], states + [f1] + [f2], m, f3);
    steps', states' := steps + [m] + [m] + [m], states + [f1] + [f2] + [f3];
  }

  // ---- The first offence --------------------------------------------------------------------------------

  /** g is the group that camera x is in while nothing is quarantined. */
  ghost predicate Natural(groupMax: int, cams: seq<Camera>, x: Camera, g: GroupPlan) {
    Clean(cams) && g in Plan(cams, {}, {}, groupMax) && x in g.members
  }

  const LATER: int := 61 * SECOND

  ghost function FirstSteps(cams: seq<Camera>, x: string, gid: string): seq<Step> {
    var m := Marker(gid, x, 0, 0);
    [Pass(cams, 0), m, m, m]
  }

  /** No worker has counted a strike against camera x. */
  ghost predicate Unblamed(f: Fleet, x: string) { forall gid :: gid in f.workers ==> Strikes(f.workers[gid], x) == [] }

  /** The group of camera x is live and no worker has anything against x. */
  ghost predicate Housed(f: Fleet, g: GroupPlan, x: string) {
    Alive(f, g.groupId) && f.workers[g.groupId].plan == g && HasMember(g, x) && Unblamed(f, x)
  }

  lemma MemberOf(g: GroupPlan, x: Camera)
    requires x in g.members
    ensures HasMember(g, x.id)
  {
    var j :| 0 <= j < |g.members| && g.members[j] == x;
  }

  lemma StartedFresh(f: Fleet, plans: seq<GroupPlan>, gid: string)
    requires DistinctGroups(plans) && f.workers == map[] && gid in Apply(f, plans).workers
    ensures Apply(f, plans).workers[gid].strikes == map[]
    ensures forall g :: g in plans && g.groupId == gid ==> NewWorker(Apply(f, plans).workers[gid], g, 0)
  {
    StartMissingExact(StopOthers(f, plans), plans);
    var i :| 0 <= i < |plans| && plans[i].groupId == gid;
    assert NewWorker(Apply(f, plans).workers[gid], plans[i], 0);
  }

  /** On the first pass every planned group gets a fresh worker. */
  lemma FirstApply(f: Fleet, plans: seq<GroupPlan>, x: Camera, g: GroupPlan)
    requires DistinctGroups(plans) && f.workers == map[] && g in plans && x in g.members
    ensures var f' := Apply(f, plans);
            Housed(f', g, x.id) && f' == f.(workers := f'.workers, nextSerial := f'.nextSerial)
  {
    StartMissingExact(StopOthers(f, plans), plans);
    forall gid | gid in Apply(f, plans).workers ensures Apply(f, plans).workers[gid].strikes == map[] {
      StartedFresh(f, plans, gid);
    }
    var i :| 0 <= i < |plans| && plans[i] == g;
    assert Planned(plans, g.groupId);
    StartedFresh(f, plans, g.groupId);
    MemberOf(g, x);
  }

  lemma FirstPass(groupMax: int, cams: seq<Camera>, x: Camera, g: GroupPlan)
    requires Natural(groupMax, cams, x, g)
    ensures FirstHoused(Reconcile(Initial(groupMax), cams, 0), groupMax, g, x.id)
  {
    var f := Initial(groupMax);
    assert BackingOff(map[], 0) == {} && Expired(map[], 0) == {} && Resolve(map[], 0) == map[];
    PlansDistinct(f, cams, 0);
    FirstApply(f, PlansFor(f, cams, 0), x, g);
  }

  ghost predicate FirstHoused(f: Fleet, groupMax: int, g: GroupPlan, x: string) {
    Housed(f, g, x) && f.quarantine == map[] && f.recentFaults == [] && f.groupMax == groupMax
  }

  lemma FirstRun(missing: Condition, groupMax: int, cams: seq<Camera>, x: Camera, g: GroupPlan)
    returns (steps: seq<Step>, states: seq<Fleet>)
    requires Natural(groupMax, cams, x, g)
    ensures NearlyOrdinary(missing, groupMax, cams, steps, states) && steps == [Pass(cams, 0)]
    ensures |states| == |steps| + 1 && FirstHoused(states[|steps|], groupMax, g, x.id)
  {
    FirstPass(groupMax, cams, x, g);
    assert Do(Initial(groupMax), Pass(cams, 0)) == Reconcile(Initial(groupMax), cams, 0);
    steps, states := Extend(missing, groupMax, cams, [], [Initial(groupMax)], Pass(cams, 0));
  }

  ghost predicate Accused(f: Fleet, x: string, until: int, probation: bool) {
    && f.quarantine == map[x := Quarantine(until, 60, probation)]
    && OnlyFaulter(f, x, 0) && Unblamed(f, x)
  }

  ghost predicate FirstAccused(f: Fleet, groupMax: int, g: GroupPlan, x: string) {
    Housed(f, g, x) && Accused(f, x, 60 * SECOND, false) && f.groupMax == groupMax
  }

  lemma ConvictedFirst(f: Fleet, f': Fleet, groupMax: int, g: GroupPlan, x: string)
    requires FirstHoused(f, groupMax, g, x) && Convicted(f, f', g.groupId, x, 0)
    ensures FirstAccused(f', groupMax, g, x)
  {
  }

  lemma FirstMarkers(missing: Condition, cams: seq<Camera>, f: Fleet, groupMax: int, g: GroupPlan, x: string, m: Step)
    requires FirstHoused(f, groupMax, g, x) && (missing.FromSeveral? || |g.members| > 1)
    requires m == Marker(g.groupId, x, 0, 0)
    ensures Ready(missing, cams, f, m, [])
  {
  }

  lemma FirstConviction(missing: Condition, groupMax: int, cams: seq<Camera>, x: Camera, g: GroupPlan)
    returns (steps: seq<Step>, states: seq<Fleet>)
    requires Natural(groupMax, cams, x, g) && (missing.FromSeveral? || |g.members| > 1)
    ensures NearlyOrdinary(missing, groupMax, cams, steps, states) && steps == FirstSteps(cams, x.id, g.groupId)
    ensures |states| == |steps| + 1 && FirstAccused(states[|steps|], groupMax, g, x.id)
  {
    var m := Marker(g.groupId, x.id, 0, 0);
    steps, states := FirstRun(missing, groupMax, cams, x, g);
    var f := states[|steps|];
    FirstMarkers(missing, cams, f, groupMax, g, x.id, m);
    steps, states := ThreeMarkers(missing, groupMax, cams, steps, states, m);
    ConvictedFirst(f, states[|steps|], groupMax, g, x.id);
  }

  // ---- Markers while the camera is on probation -----------------------------------------------------------

  ghost function UntilProbation(cams: seq<Camera>, x: string, gid: string): seq<Step> {
    FirstSteps(cams, x, gid) + [BatchDone(gid), Pass(cams, 1), Pass(cams, LATER)]
  }

  lemma PassUnblamed(f: Fleet, cams: seq<Camera>, now: int, x: string)
    requires Clean(cams) && Unblamed(f, x)
    ensures Unblamed(Reconcile(f, cams, now), x)
  {
    var plans := PlansFor(f, cams, now);
    PlansDistinct(f, cams, now);
    ApplyUnblamed(f.(quarantine := Resolve(f.quarantine, now)), plans, x);
  }

  lemma ApplyUnblamed(f: Fleet, plans: seq<GroupPlan>, x: string)
    requires DistinctGroups(plans) && Unblamed(f, x)
    ensures Unblamed(Apply(f, plans), x)
  {
    var kept, f' := StopOthers(f, plans), Apply(f, plans);
    StartMissingExact(kept, plans);
    forall gid | gid in f'.workers ensures Strikes(f'.workers[gid], x) == [] {
      if gid !in kept.workers {
        var i :| 0 <= i < |plans| && plans[i].groupId == gid;
        assert NewWorker(f'.workers[gid], plans[i], kept.nextSerial);
      }
    }
  }

  lemma Expiry(q: map<string, Quarantine>, x: string, now: int)
    requires q == map[x := Quarantine(60 * SECOND, 60, false)]
    ensures now < 60 * SECOND ==> Resolve(q, now) == q
    ensures now >= 60 * SECOND ==> BackingOff(q, now) == {} && Expired(q, now) == {x}
    ensures now >= 60 * SECOND ==> Resolve(q, now) == map[x := Quarantine(60 * SECOND, 60, true)]
  {
  }

  /** A camera with one offence behind it, backing off. */
  ghost predicate Waiting(f: Fleet, groupMax: int, x: string) {
    Accused(f, x, 60 * SECOND, false) && Sound(f) && f.groupMax == groupMax
  }

  /** The camera is on probation and every planned group is live. */
  ghost predicate Probing(f: Fleet, groupMax: int, cams: seq<Camera>, x: string) {
    && Accused(f, x, 60 * SECOND, true) && Sound(f) && f.groupMax == groupMax
    && Matches(f, Plan(cams, {}, {x}, groupMax)) && CleanPlans(Plan(cams, {}, {x}, groupMax))
  }

  lemma PassWaiting(f: Fleet, groupMax: int, cams: seq<Camera>, x: string)
    requires Clean(cams) && Waiting(f, groupMax, x)
    ensures Waiting(Reconcile(f, cams, 1), groupMax, x)
  {
    Expiry(f.quarantine, x, 1);
    PassMatchesPlan(f, cams, 1);
    PassSound(f, cams, 1);
    PassUnblamed(f, cams, 1, x);
  }

  lemma PassProbing(f: Fleet, groupMax: int, cams: seq<Camera>, x: string)
    requires Clean(cams) && Waiting(f, groupMax, x)
    ensures Probing(Reconcile(f, cams, LATER), groupMax, cams, x)
  {
    Expiry(f.quarantine, x, LATER);
    PassMatchesPlan(f, cams, LATER);
    PassSound(f, cams, LATER);
    PlansClean(f, cams, LATER);
    PassUnblamed(f, cams, LATER, x);
  }

  lemma EndBatchWaiting(f: Fleet, groupMax: int, g: GroupPlan, x: string)
    requires FirstAccused(f, groupMax, g, x) && Sound(f)
    ensures Waiting(EndBatch(f, g.groupId), groupMax, x)
  {
  }

  lemma AddBatchDone(missing: Condition, groupMax: int, cams: seq<Camera>, steps: seq<Step>, states: seq<Fleet>,
                     g: GroupPlan, x: string)
    returns (steps': seq<Step>, states': seq<Fleet>)
    requires NearlyOrdinary(missing, groupMax, cams, steps, states) && Clean(cams) && !missing.Uninterrupted?
    requires FirstAccused(states[|steps|], groupMax, g, x)
    ensures NearlyOrdinary(missing, groupMax, cams, steps', states') && |states'| == |steps'| + 1
    ensures steps' == steps + [BatchDone(g.groupId)] && Waiting(states'[|steps'|], groupMax, x)
  {
    NearlySound(missing, groupMax, cams, steps, states);
    EndBatchWaiting(states[|steps|], groupMax, g, x);
    steps', states' := Extend(missing, groupMax, cams, steps, states, BatchDone(g.groupId));
  }

  lemma AddPass(missing: Condition, groupMax: int, cams: seq<Camera>, steps: seq<Step>, states: seq<Fleet>, at: int)
    returns (steps': seq<Step>, states': seq<Fleet>)
    requires NearlyOrdinary(missing, groupMax, cams, steps, states) && Clean(cams)
    ensures NearlyOrdinary(missing, groupMax, cams, steps', states') && |states'| == |steps'| + 1
    ensures steps' == steps + [Pass(cams, at)] && states'[|steps'|] == Reconcile(states[|steps|], cams, at)
  {
    assert Do(states[|steps|], Pass(cams, at)) == Reconcile(states[|steps|], cams, at);
    steps', states' := Extend(missing, groupMax, cams, steps, states, Pass(cams, at));
  }

  lemma AddPasses(missing: Condition, groupMax: int, cams: seq<Camera>, steps: seq<Step>, states: seq<Fleet>, x: string)
    returns (steps': seq<Step>, states': seq<Fleet>)
    requires NearlyOrdinary(missing, groupMax, cams, steps, states) && Clean(cams)
    requires Waiting(states[|steps|], groupMax, x)
    ensures NearlyOrdinary(missing, groupMax, cams, steps', states') && |states'| == |steps'| + 1
    ensures steps' == steps + [Pass(cams, 1), Pass(cams, LATER)] && Probing(states'[|steps'|], groupMax, cams, x)
  {
    var f := states[|steps|];
    PassWaiting(f, groupMax, cams, x);
    PassProbing(Reconcile(f, cams, 1), groupMax, cams, x);
    steps', states' := AddPass(missing, groupMax, cams, steps, states, 1);
    steps', states' := AddPass(missing, groupMax, cams, steps', states', LATER);
  }

  lemma ReachProbation(missing: Condition, groupMax: int, cams: seq<Camera>, x: Camera, g: GroupPlan)
    returns (steps: seq<Step>, states: seq<Fleet>)
    requires Natural(groupMax, cams, x, g) && !missing.Uninterrupted? && (missing.FromSeveral? || |g.members| > 1)
    ensures NearlyOrdinary(missing, groupMax, cams, steps, states) && |states| == |steps| + 1
    ensures steps == UntilProbation(cams, x.id, g.groupId) && Probing(states[|steps|], groupMax, cams, x.id)
  {
    steps, states := FirstConviction(missing, groupMax, cams, x, g);
    steps, states := AddBatchDone(missing, groupMax, cams, steps, states, g, x.id);
    steps, states := AddPasses(missing, groupMax, cams, steps, states, x.id);
  }

  lemma NewBatch(cams: seq<Camera>, x: string, gid: string, h: string)
    ensures SharesClock(UntilProbation(cams, x, gid), Marker(h, x, LATER, LATER))
  {
    var steps := UntilProbation(cams, x, gid);
    forall i | 0 <= i < |steps| && OtherClock(steps[i], Marker(h, x, LATER, LATER)) ensures BatchDone(h) in steps[i..] {
      assert steps[i..][4 - i] == BatchDone(gid);
    }
  }

  /** The third group of markers comes from any live group h that the missing condition lets report. */
  ghost predicate MayReport(missing: Condition, h: GroupPlan, x: string) {
    (missing.FromSeveral? || |h.members| > 1) && (missing.OwnMembers? || HasMember(h, x))
  }

  /** A planned group runs, under its plan. */
  ghost predicate Runs(f: Fleet, h: GroupPlan) {
    Alive(f, h.groupId) && SamePlan(f.workers[h.groupId].plan, h)
  }

  lemma PlannedRuns(f: Fleet, plans: seq<GroupPlan>, h: GroupPlan)
    requires Sound(f) && Matches(f, plans) && CleanPlans(plans) && h in plans
    ensures Runs(f, h)
  {
    var i :| 0 <= i < |plans| && plans[i] == h;
    SignatureExact(f.workers[h.groupId].plan, h);
  }

  lemma RunsReports(missing: Condition, f: Fleet, cams: seq<Camera>, h: GroupPlan, x: string)
    requires Runs(f, h) && MayReport(missing, h, x) && OnlyFaulter(f, x, 0) && Unblamed(f, x)
    ensures Ready(missing, cams, f, Marker(h.groupId, x, LATER, LATER), [])
  {
    SameMembersRun(f.workers[h.groupId].plan, h, x);
  }

  lemma ReadyAgain(missing: Condition, f: Fleet, groupMax: int, cams: seq<Camera>, x: string, h: GroupPlan)
    requires Probing(f, groupMax, cams, x) && h in Plan(cams, {}, {x}, groupMax) && MayReport(missing, h, x)
    ensures Ready(missing, cams, f, Marker(h.groupId, x, LATER, LATER), []) && Runs(f, h)
  {
    PlannedRuns(f, Plan(cams, {}, {x}, groupMax), h);
    RunsReports(missing, f, cams, h, x);
  }

  /** Group h runs, and the back-off of camera x has doubled. */
  ghost predicate DoubledBy(f: Fleet, h: GroupPlan, x: string) {
    && h.groupId in f.workers && SamePlan(f.workers[h.groupId].plan, h)
    && x in f.quarantine && f.quarantine[x].backoffSec == 120
  }

  lemma ConvictedAgain(f: Fleet, f': Fleet, h: GroupPlan, x: string)
    requires Accused(f, x, 60 * SECOND, true) && Runs(f, h)
    requires Convicted(f, f', h.groupId, x, LATER)
    ensures DoubledBy(f', h, x)
  {
  }

  /** Whatever the fleet, its camera and the group that reports it: three markers while on probation double. */
  lemma ReportedOnProbation(missing: Condition, groupMax: int, cams: seq<Camera>, x: Camera, g: GroupPlan, h: GroupPlan)
    returns (steps: seq<Step>, states: seq<Fleet>)
    requires Natural(groupMax, cams, x, g) && !missing.Uninterrupted? && (missing.FromSeveral? || |g.members| > 1)
    requires h in Plan(cams, {}, {x.id}, groupMax) && MayReport(missing, h, x.id)
    ensures NearlyOrdinary(missing, groupMax, cams, steps, states)
    ensures var l := Marker(h.groupId, x.id, LATER, LATER); steps == UntilProbation(cams, x.id, g.groupId) + [l, l, l]
    ensures |states| == |steps| + 1 && DoubledBy(states[|steps|], h, x.id)
  {
    var l := Marker(h.groupId, x.id, LATER, LATER);
    steps, states := ReachProbation(missing, groupMax, cams, x, g);
    var f := states[|steps|];
    NewBatch(cams, x.id, g.groupId, h.groupId);
    ReadyAgain(missing, f, groupMax, cams, x.id, h);
    steps, states := ThreeMarkers(missing, groupMax, cams, steps, states, l);
    ConvictedAgain(f, states[|steps|], h, x.id);
  }

  /** But for the condition on group size: for every clean fleet and each of its cameras, three markers from the
      camera's own probation group. No child of a group of one writes any, so these are an input from elsewhere. */
  lemma LoneMarkersEscalate(groupMax: int, cams: seq<Camera>, x: Camera, g: GroupPlan)
    returns (steps: seq<Step>, states: seq<Fleet>)
    requires Natural(groupMax, cams, x, g)
    ensures NearlyOrdinary(FromSeveral, groupMax, cams, steps, states)
    ensures var l := Marker("probation-" + x.id, x.id, LATER, LATER);
            steps == UntilProbation(cams, x.id, g.groupId) + [l, l, l]
    ensures |states| == |steps| + 1 && DoubledBy(states[|steps|], Single(x, {x.id}), x.id)
  {
    var h := Single(x, {x.id});
    var i :| 0 <= i < |g.members| && g.members[i] == x;
    PlanAreGroups(cams, {}, {}, groupMax, g);
    GroupMembers(cams, {}, {}, groupMax, g);
    assert IsSingle(h, x, {}, {x.id});
    PlanAreGroups(cams, {}, {x.id}, groupMax, h);
    MemberOf(h, x);
    steps, states := ReportedOnProbation(FromSeveral, groupMax, cams, x, g, h);
  }

  // ---- Markers for a former member --------------------------------------------------------------------------

  lemma WithoutOne(ms: seq<Camera>, rest: seq<Camera>, x: Camera)
    requires StrictlySorted(CamLess, ms) && StrictlySorted(CamLess, rest)
    requires x in ms && forall c :: c in rest <==> c in ms && c != x
    ensures |rest| == |ms| - 1
  {
    var i :| 0 <= i < |ms| && ms[i] == x;
    var cut := ms[..i] + ms[i + 1..];
    StrLessIsOrder();
    SortedDiffer(ms);
    forall j | 0 <= j < |cut| ensures cut[j] == ms[if j < i then j else j + 1] {}
    forall c | c in rest ensures c in cut {
      var j :| 0 <= j < |ms| && ms[j] == c;
      assert c == cut[if j < i then j else j - 1];
    }
    forall j, k | 0 <= j < k < |cut| ensures CamLess(cut[j], cut[k]) {}
    SortedUnique(CamLess, cut, rest);
  }

  lemma SortedDiffer(ms: seq<Camera>)
    requires StrictlySorted(CamLess, ms)
    ensures forall i, j :: 0 <= i < j < |ms| ==> ms[i] != ms[j]
  {
    StrLessIsOrder();
    forall i, j | 0 <= i < j < |ms| ensures ms[i] != ms[j] { assert CamLess(ms[i], ms[j]); }
  }

  lemma MembersWithoutOne(cams: seq<Camera>, key: string, x: Camera)
    requires DistinctIds(cams) && x in MembersOf(cams, key, {}, {})
    ensures |MembersOf(cams, key, {}, {x.id})| == |MembersOf(cams, key, {}, {})| - 1
  {
    MembersNoDuplicates(cams, key, {}, {});
    MembersNoDuplicates(cams, key, {}, {x.id});
    var ms, rest := MembersOf(cams, key, {}, {}), MembersOf(cams, key, {}, {x.id});
    forall c ensures c in rest <==> c in ms && c != x {
      if c in ms && c.id == x.id { SameIdSame(cams, c, x); }
    }
    WithoutOne(ms, rest, x);
  }

  lemma SameIdSame(cams: seq<Camera>, c: Camera, d: Camera)
    requires DistinctIds(cams) && c in cams && d in cams && c.id == d.id
    ensures c == d
  {
    var i, j :| 0 <= i < |cams| && cams[i] == c && 0 <= j < |cams| && cams[j] == d;
  }

  lemma SliceWithoutOne(key: string, k: nat, ms: seq<Camera>, rest: seq<Camera>, max: nat, g: GroupPlan)
    returns (h: GroupPlan)
    requires IsChunk(g, key, k, ms, max) && |g.members| >= 3 && |rest| == |ms| - 1
    ensures IsChunk(h, key, k, rest, max) && h.groupId == g.groupId && |h.members| > 1
  {
    MulMonotone(0, k, max);
    h := GroupPlan(key + "-" + Dec(k), rest[k * max..Min(|rest|, k * max + max)], false);
  }

  /** When camera x leaves a group of three or more for probation, a group of several keeps the id. */
  lemma GroupStays(groupMax: int, cams: seq<Camera>, x: Camera, g: GroupPlan) returns (h: GroupPlan)
    requires Natural(groupMax, cams, x, g) && |g.members| >= 3
    ensures h in Plan(cams, {}, {x.id}, groupMax) && h.groupId == g.groupId && |h.members| > 1 && !HasMember(h, x.id)
  {
    var max := GroupMax(groupMax);
    PlanAreGroups(cams, {}, {}, groupMax, g);
    assert IsBatch(g, cams, {}, {}, max);
    var k := BatchOf(cams, {}, {}, max, x, g);
    var key := ShapeKey(x);
    SliceHolds(cams, key, k, max, g, x);
    MembersWithoutOne(cams, key, x);
    h := SliceWithoutOne(key, k, MembersOf(cams, key, {}, {}), MembersOf(cams, key, {}, {x.id}), max, g);
    StaysWithout(groupMax, cams, x, key, k, h);
  }

  lemma SliceHolds(cams: seq<Camera>, key: string, k: nat, max: nat, g: GroupPlan, x: Camera)
    requires max >= 1 && DistinctIds(cams) && IsChunk(g, key, k, MembersOf(cams, key, {}, {}), max) && x in g.members
    ensures x in MembersOf(cams, key, {}, {})
  {
    MembersNoDuplicates(cams, key, {}, {});
    ChunkFacts(g, key, k, MembersOf(cams, key, {}, {}), max);
  }

  lemma StaysWithout(groupMax: int, cams: seq<Camera>, x: Camera, key: string, k: nat, h: GroupPlan)
    requires DistinctIds(cams) && IsChunk(h, key, k, MembersOf(cams, key, {}, {x.id}), GroupMax(groupMax))
    ensures h in Plan(cams, {}, {x.id}, groupMax) && !HasMember(h, x.id)
  {
    PlanAreGroups(cams, {}, {x.id}, groupMax, h);
    assert IsBatch(h, cams, {}, {x.id}, GroupMax(groupMax));
    BatchMembersBatchable(cams, {}, {x.id}, GroupMax(groupMax), h);
    forall j | 0 <= j < |h.members| ensures h.members[j].id != x.id { assert h.members[j] in h.members; }
  }

  /** But for the condition on membership: the group of several that keeps the id of a camera's group, but not the
      camera, reports it three times. Workers do not look at membership, and the next worker of a group id finds the
      markers a stopped one left unread. */
  lemma FormerMemberEscalates(groupMax: int, cams: seq<Camera>, x: Camera, g: GroupPlan)
    returns (steps: seq<Step>, states: seq<Fleet>, h: GroupPlan)
    requires Natural(groupMax, cams, x, g) && |g.members| >= 3
    ensures NearlyOrdinary(OwnMembers, groupMax, cams, steps, states)
    ensures var l := Marker(g.groupId, x.id, LATER, LATER); steps == UntilProbation(cams, x.id, g.groupId) + [l, l, l]
    ensures h.groupId == g.groupId && |h.members| > 1 && !HasMember(h, x.id)
    ensures |states| == |steps| + 1 && DoubledBy(states[|steps|], h, x.id)
  {
    h := GroupStays(groupMax, cams, x, g);
    steps, states := ReportedOnProbation(OwnMembers, groupMax, cams, x, g, h);
  }

  // ---- Markers during an interrupted pass -----------------------------------------------------------------------

  lemma ReadyResolved(f: Fleet, cams: seq<Camera>, groupMax: int, g: GroupPlan, x: string)
    requires FirstAccused(f, groupMax, g, x) && |g.members| > 1
    ensures ReadyOnProbation(Do(f, Resolved(LATER)), cams, g, x)
  {
    Expiry(f.quarantine, x, LATER);
  }

  ghost predicate ReadyOnProbation(f: Fleet, cams: seq<Camera>, g: GroupPlan, x: string) {
    && Accused(f, x, 60 * SECOND, true) && Alive(f, g.groupId) && f.workers[g.groupId].plan == g
    && Ready(Uninterrupted, cams, f, Marker(g.groupId, x, 0, LATER), [])
  }

  lemma SameBatch(cams: seq<Camera>, x: string, gid: string)
    ensures SharesClock(FirstSteps(cams, x, gid) + [Resolved(LATER)], Marker(gid, x, 0, LATER))
  {
  }

  lemma ReachResolved(groupMax: int, cams: seq<Camera>, x: Camera, g: GroupPlan)
    returns (steps: seq<Step>, states: seq<Fleet>)
    requires Natural(groupMax, cams, x, g) && |g.members| > 1
    ensures NearlyOrdinary(Uninterrupted, groupMax, cams, steps, states) && |states| == |steps| + 1
    ensures steps == FirstSteps(cams, x.id, g.groupId) + [Resolved(LATER)]
    ensures ReadyOnProbation(states[|steps|], cams, g, x.id)
  {
    steps, states := FirstConviction(Uninterrupted, groupMax, cams, x, g);
    ReadyResolved(states[|steps|], cams, groupMax, g, x.id);
    steps, states := Extend(Uninterrupted, groupMax, cams, steps, states, Resolved(LATER));
  }

  lemma ThirdOffence(f: Fleet, f': Fleet, cams: seq<Camera>, g: GroupPlan, x: string)
    requires ReadyOnProbation(f, cams, g, x) && Convicted(f, f', g.groupId, x, LATER)
    ensures DoubledBy(f', g, x)
  {
    ConvictedAgain(f, f', g, x);
  }

  /** But for the condition on passes: while the group of a camera still works through a batch of markers, the first
      part of a reconcile pass puts the condemned camera on probation, and three more markers of that batch double the
      back-off. The batch clock of all six is 0. */
  lemma InterruptedPassEscalates(groupMax: int, cams: seq<Camera>, x: Camera, g: GroupPlan)
    returns (steps: seq<Step>, states: seq<Fleet>)
    requires Natural(groupMax, cams, x, g) && |g.members| > 1
    ensures NearlyOrdinary(Uninterrupted, groupMax, cams, steps, states)
    ensures var l := Marker(g.groupId, x.id, 0, LATER);
            steps == FirstSteps(cams, x.id, g.groupId) + [Resolved(LATER)] + [l, l, l]
    ensures |states| == |steps| + 1 && DoubledBy(states[|steps|], g, x.id)
  {
    steps, states := ReachResolved(groupMax, cams, x, g);
    var f := states[|steps|];
    SameBatch(cams, x.id, g.groupId);
    steps, states := ThreeMarkers(Uninterrupted, groupMax, cams, steps, states, Marker(g.groupId, x.id, 0, LATER));
    ThirdOffence(f, states[|steps|], cams, g, x.id);
  }
}
