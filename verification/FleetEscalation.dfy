/** When a quarantine back-off doubles: exactly when a camera is condemned while its entry is on probation. */
module FleetEscalation {
  import opened Grouping
  import opened GroupingProofs
  import opened FleetSteps
  import opened FleetHistory
  import opened FleetReconcile

  // ---- The exact condition -----------------------------------------------------------------------

  /** The step takes the quarantining branch of the strike loop. */
  ghost predicate Condemns(f: Fleet, s: Step)
    requires Enabled(f, s)
  {
    && s.Marker? && !Storm(NoteFault(f.recentFaults, s.camera, s.now))
    && |AddStrike(Strikes(f.workers[s.gid], s.camera), s.nowt)| >= STRIKES_OUT
  }

  /** The camera's entry is on probation. */
  ghost predicate OnProbation(f: Fleet, camera: string) { camera in f.quarantine && f.quarantine[camera].inProbation }

  lemma CondemnedQuarantine(f: Fleet, s: Step)
    requires Enabled(f, s)
    ensures if Condemns(f, s) then Do(f, s).quarantine == QuarantineCamera(f.quarantine, s.camera, s.now)
            else NoNewQuarantine(f.quarantine, Do(f, s).quarantine)
  {
    if !s.Marker? { OtherStepsQuarantineNothing(f, s); }
  }

  /** The branch is the third strike of the history. */
  lemma CondemnsExactly(groupMax: int, steps: seq<Step>, states: seq<Fleet>, n: nat)
    requires IsRun(groupMax, steps, states) && n < |steps|
    requires WellTimed(Log(groupMax, steps, states, |steps|))
    ensures Condemns(states[n], steps[n]) <==> steps[n].Marker? && Convicts(Log(groupMax, steps, states, n + 1))
  {
    RunRefinesHistory(groupMax, steps, states, n);
    WellTimedPrefix(groupMax, steps, states, n + 1, |steps|);
    var f, log, s := states[n], Log(groupMax, steps, states, n), steps[n];
    if s.Marker? {
      assert Log(groupMax, steps, states, n + 1) == log + Recorded(f, s);
      var e := Entry(f.workers[s.gid].serial, s.camera, s.nowt, s.now);
      StormRefines(log, e, f.recentFaults);
      ThisWorker(f.workers[s.gid], log, e, AddStrike(Strikes(f.workers[s.gid], s.camera), s.nowt));
      ThisCamera(f.workers[s.gid], log, e, AddStrike(Strikes(f.workers[s.gid], s.camera), s.nowt));
    }
  }

  ghost predicate AllFirst(f: Fleet) { forall c :: c in f.quarantine ==> f.quarantine[c].backoffSec == 60 }

  ghost predicate Doubled(f: Fleet, c: string) { c in f.quarantine && f.quarantine[c].backoffSec > 60 }

  lemma FirstStep(f: Fleet, s: Step)
    requires Enabled(f, s) && AllFirst(f) && !(Condemns(f, s) && OnProbation(f, s.camera))
    ensures AllFirst(Do(f, s))
  {
    CondemnedQuarantine(f, s);
  }

  /** Condemned on probation: the back-off is past 60 s from then on. */
  lemma DoubledStep(f: Fleet, s: Step)
    requires Enabled(f, s) && Laddered(f) && Condemns(f, s) && OnProbation(f, s.camera)
    ensures Doubled(Do(f, s), s.camera)
  {
    CondemnedQuarantine(f, s);
    assert OnLadder(f.quarantine[s.camera].backoffSec);
  }

  ghost predicate EscalatesAt(steps: seq<Step>, states: seq<Fleet>, m: nat)
    requires m < |steps| && m < |states| && Enabled(states[m], steps[m])
  {
    Condemns(states[m], steps[m]) && OnProbation(states[m], steps[m].camera)
  }

  lemma {:induction false} FirstUntil(groupMax: int, steps: seq<Step>, states: seq<Fleet>, n: nat)
    requires IsRun(groupMax, steps, states) && n <= |steps|
    requires forall m :: 0 <= m < n ==> !EscalatesAt(steps, states, m)
    ensures AllFirst(states[n])
  {
    if n > 0 {
      FirstUntil(groupMax, steps, states, n - 1);
      assert !EscalatesAt(steps, states, n - 1);
      FirstStep(states[n - 1], steps[n - 1]);
    }
  }

  /** Main result, for every run and every interleaving: some back-off exceeds 60 s by step n exactly when some step
      before n condemned a camera whose entry was then on probation. */
  lemma EscalatesExactly(groupMax: int, steps: seq<Step>, states: seq<Fleet>, n: nat)
    requires IsRun(groupMax, steps, states) && n <= |steps|
    ensures (exists m, c :: 0 <= m <= n && Doubled(states[m], c)) <==>
      (exists m :: 0 <= m < n && EscalatesAt(steps, states, m))
  {
    if m :| 0 <= m < n && EscalatesAt(steps, states, m) {
      BackoffLadder(groupMax, steps, states, m);
      DoubledStep(states[m], steps[m]);
      assert Doubled(states[m + 1], steps[m].camera);
    }
    if m, c :| 0 <= m <= n && Doubled(states[m], c) {
      if forall k :: 0 <= k < m ==> !EscalatesAt(steps, states, k) { FirstUntil(groupMax, steps, states, m); }
    }
  }

  // ---- Ordinary runs -------------------------------------------------------------------------------

  /** What an ordinary step keeps to: only groups of several report markers, as a child of a group of one writes none;
      each marker names a current member of the group that reports it; no pass is interrupted. */
  datatype Condition = FromSeveral | OwnMembers | Uninterrupted

  ghost predicate Meets(c: Condition, f: Fleet, s: Step) {
    match c
    case FromSeveral => s.Marker? ==> s.gid in f.workers && |f.workers[s.gid].plan.members| > 1
    case OwnMembers => s.Marker? ==> s.gid in f.workers && HasMember(f.workers[s.gid].plan, s.camera)
    case Uninterrupted => !s.Resolved? && !s.Stopped? && !s.Started?
  }

  ghost predicate Ordinary(f: Fleet, s: Step) {
    (s.Pass? ==> Clean(s.cams)) && Meets(FromSeveral, f, s) && Meets(OwnMembers, f, s) && Meets(Uninterrupted, f, s)
  }

  /** A camera on probation runs in no live group of several. */
  ghost predicate ProbationAlone(f: Fleet) {
    forall c, gid :: OnProbation(f, c) && Alive(f, gid) && HasMember(f.workers[gid].plan, c) ==>
      |f.workers[gid].plan.members| <= 1
  }

  lemma PassKeepsSolo(f: Fleet, cams: seq<Camera>, now: int, id: string, gid: string)
    requires Sound(f) && Clean(cams) && id in f.quarantine
    requires gid in Reconcile(f, cams, now).workers && HasMember(Reconcile(f, cams, now).workers[gid].plan, id)
    ensures |Reconcile(f, cams, now).workers[gid].plan.members| <= 1
  {
    PassMatchesPlan(f, cams, now);
    PlansClean(f, cams, now);
    PassSound(f, cams, now);
    var g := MatchingRuns(Reconcile(f, cams, now), PlansFor(f, cams, now), id, gid);
    EntryPlannedSolo(f, cams, now, id, g);
  }

  lemma EntryPlannedSolo(f: Fleet, cams: seq<Camera>, now: int, id: string, g: GroupPlan)
    requires Clean(cams) && id in f.quarantine && g in PlansFor(f, cams, now) && HasMember(g, id)
    ensures |g.members| <= 1
  {
    var q, p := BackingOff(f.quarantine, now), Expired(f.quarantine, now);
    var j :| 0 <= j < |g.members| && g.members[j].id == id;
    assert g.members[j] in g.members;
    PlanAreGroups(cams, q, p, f.groupMax, g);
    GroupMembers(cams, q, p, f.groupMax, g);
  }

  lemma AloneMarker(f: Fleet, gid: string, camera: string, nowt: int, now: int)
    requires gid in f.workers && ProbationAlone(f)
    ensures ProbationAlone(HandleMarker(f, gid, camera, nowt, now))
  {
    var f' := HandleMarker(f, gid, camera, nowt, now);
    MarkerKeepsPlans(f, gid, camera, nowt, now);
    forall c, g | OnProbation(f', c) && Alive(f', g) && HasMember(f'.workers[g].plan, c)
      ensures |f'.workers[g].plan.members| <= 1
    {
      assert OnProbation(f, c) && Alive(f, g);
    }
  }

  lemma AlonePass(f: Fleet, cams: seq<Camera>, now: int)
    requires Clean(cams) && Sound(f)
    ensures ProbationAlone(Reconcile(f, cams, now))
  {
    PassMatchesPlan(f, cams, now);
    var f' := Reconcile(f, cams, now);
    forall c, gid | OnProbation(f', c) && Alive(f', gid) && HasMember(f'.workers[gid].plan, c)
      ensures |f'.workers[gid].plan.members| <= 1
    {
      PassKeepsSolo(f, cams, now, c, gid);
    }
  }

  lemma AloneBatchDone(f: Fleet, gid: string)
    requires Alive(f, gid) && ProbationAlone(f)
    ensures ProbationAlone(EndBatch(f, gid))
  {
    var f' := EndBatch(f, gid);
    forall c, g | OnProbation(f', c) && Alive(f', g) && HasMember(f'.workers[g].plan, c)
      ensures |f'.workers[g].plan.members| <= 1
    {
      assert OnProbation(f, c) && Alive(f, g);
    }
  }

  lemma AloneHealthy(f: Fleet, gid: string)
    requires Alive(f, gid) && f.workers[gid].plan.members != [] && ProbationAlone(f)
    ensures ProbationAlone(Graduate(f, gid))
  {
    var f' := Graduate(f, gid);
    forall c, g | OnProbation(f', c) && Alive(f', g) && HasMember(f'.workers[g].plan, c)
      ensures |f'.workers[g].plan.members| <= 1
    {
      assert OnProbation(f, c) && Alive(f, g);
    }
  }

  lemma AloneStep(f: Fleet, s: Step)
    requires Enabled(f, s) && Ordinary(f, s) && Sound(f) && ProbationAlone(f)
    ensures ProbationAlone(Do(f, s)) && !(Condemns(f, s) && OnProbation(f, s.camera))
  {
    match s
    case Pass(cams, now) => AlonePass(f, cams, now);
    case Marker(gid, camera, nowt, now) => AloneMarker(f, gid, camera, nowt, now);
    case BatchDone(gid) => AloneBatchDone(f, gid);
    case Healthy(gid) => AloneHealthy(f, gid);
  }

  lemma {:induction false} AloneUntil(groupMax: int, steps: seq<Step>, states: seq<Fleet>, n: nat)
    requires IsRun(groupMax, steps, states) && n <= |steps|
    requires forall i :: 0 <= i < |steps| ==> Ordinary(states[i], steps[i])
    ensures ProbationAlone(states[n])
    ensures forall m :: 0 <= m < n ==> !EscalatesAt(steps, states, m)
  {
    if n > 0 {
      AloneUntil(groupMax, steps, states, n - 1);
      forall i | 0 <= i < |steps| ensures Tidy(steps[i]) { assert Ordinary(states[i], steps[i]); }
      RunSound(groupMax, steps, states, n - 1);
      AloneStep(states[n - 1], steps[n - 1]);
    }
  }

  /** So the promised doubling never happens while passes are not interrupted and every marker comes from a group of
      several and names one of its members: a camera on probation runs alone, and graduation erases its entry. */
  lemma OrdinaryRunsNeverEscalate(groupMax: int, steps: seq<Step>, states: seq<Fleet>, n: nat)
    requires IsRun(groupMax, steps, states) && n <= |steps|
    requires forall i :: 0 <= i < |steps| ==> Ordinary(states[i], steps[i])
    ensures forall c :: c in states[n].quarantine ==> states[n].quarantine[c].backoffSec == 60
  {
    AloneUntil(groupMax, steps, states, n);
    FirstUntil(groupMax, steps, states, n);
  }
}
