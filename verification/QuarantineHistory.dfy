/** What a quarantine entry remembers, over every run: the last condemnation, the repeat offences and whether the wait
    is over; and that graduation lifts it for good. */
module QuarantineHistory {
  import opened Arithmetic
  import opened Grouping
  import opened GroupingProofs
  import opened Signature
  import opened FleetSteps
  import opened FleetHistory
  import opened FleetReconcile
  import opened FleetEscalation

  // ---- One step --------------------------------------------------------------------------------------

  /** The step condemns camera c. */
  ghost predicate CondemnsCamera(f: Fleet, s: Step, c: string)
    requires Enabled(f, s)
  {
    Condemns(f, s) && s.camera == c
  }

  /** The step graduates a worker whose first member is camera c. */
  ghost predicate Lifts(f: Fleet, s: Step, c: string)
    requires Enabled(f, s)
  {
    s.Healthy? && f.workers[s.gid].plan.members[0].id == c
  }

  /** The step looks at deadlines, at or past `until`. */
  predicate Reaches(s: Step, until: int) { (s.Pass? || s.Resolved?) && s.at >= until }

  /** A repeat offender's wait doubles, up to ten minutes; one is a repeat offender when condemned on probation, and
      from then on. */
  function Doubled(b: int): int { if b >= 300 then 600 else 2 * b }

  lemma EntryStep(f: Fleet, s: Step, c: string)
    requires Enabled(f, s)
    ensures var q, q' := f.quarantine, Do(f, s).quarantine;
            && (c in q' <==> CondemnsCamera(f, s, c) || (c in q && !Lifts(f, s, c)))
            && (CondemnsCamera(f, s, c) ==>
                  var b := if c !in q then 60
                           else if q[c].inProbation || q[c].backoffSec > 60 then Doubled(q[c].backoffSec)
                           else q[c].backoffSec;
                  q'[c] == Quarantine(s.now + b * 1_000_000_000, b, false))
            && (c in q' && !CondemnsCamera(f, s, c) ==>
                  q'[c] == q[c].(inProbation := q[c].inProbation || Reaches(s, q[c].until)))
  {
    if s.Pass? { PassQuarantine(f, s.cams, s.at); }
  }

  /** Graduation erases the camera's entry, retires the worker and leaves everything else as it was. */
  lemma HealthyLifts(groupMax: int, steps: seq<Step>, states: seq<Fleet>, n: nat)
    requires IsRun(groupMax, steps, states) && n < |steps| && steps[n].Healthy?
    ensures var f, gid := states[n], steps[n].gid;
            && gid in f.workers && f.workers[gid].plan.members != []
            && states[n + 1] == Fleet(f.quarantine - {f.workers[gid].plan.members[0].id}, f.recentFaults,
                                      f.workers[gid := f.workers[gid].(retired := true)], f.nextSerial, f.groupMax)
  {
    assert Enabled(states[n], steps[n]) && states[n + 1] == Do(states[n], steps[n]);
  }

  // ---- Whole runs ------------------------------------------------------------------------------------

  ghost predicate Condemned(groupMax: int, steps: seq<Step>, states: seq<Fleet>, m: nat, c: string)
    requires IsRun(groupMax, steps, states) && m < |steps|
  {
    CondemnsCamera(states[m], steps[m], c)
  }

  ghost predicate Lifted(groupMax: int, steps: seq<Step>, states: seq<Fleet>, m: nat, c: string)
    requires IsRun(groupMax, steps, states) && m < |steps|
  {
    Lifts(states[m], steps[m], c)
  }

  /** Step m is the last before n to condemn camera c, and nothing has lifted that. */
  ghost predicate LastOffence(groupMax: int, steps: seq<Step>, states: seq<Fleet>, m: nat, n: nat, c: string)
    requires IsRun(groupMax, steps, states) && m < n <= |steps|
  {
    && Condemned(groupMax, steps, states, m, c)
    && forall k :: m < k < n ==> !Condemned(groupMax, steps, states, k, c) && !Lifted(groupMax, steps, states, k, c)
  }

  ghost predicate Overdue(steps: seq<Step>, m: nat, n: nat, until: int)
    requires m < n <= |steps|
  {
    exists k :: m < k < n && Reaches(steps[k], until)
  }

  /** The entry of camera c as its last offence, step m, left it. */
  ghost predicate Remembers(groupMax: int, steps: seq<Step>, states: seq<Fleet>, m: nat, n: nat, c: string)
    requires IsRun(groupMax, steps, states) && m < n <= |steps| && c in states[n].quarantine
  {
    var e := states[n].quarantine[c];
    && LastOffence(groupMax, steps, states, m, n, c)
    && e.until == steps[m].now + e.backoffSec * 1_000_000_000
    && (e.inProbation <==> Overdue(steps, m, n, e.until))
  }

  lemma RunAt(groupMax: int, steps: seq<Step>, states: seq<Fleet>, p: nat)
    requires IsRun(groupMax, steps, states) && p < |steps|
    ensures Enabled(states[p], steps[p]) && states[p + 1] == Do(states[p], steps[p])
  {
  }

  /** Main result, for every run and every interleaving: a camera has an entry exactly if it was condemned and no
      graduation has lifted that. Then its deadline is one back-off after the last condemnation, and it is on probation
      exactly if a later step that looks at deadlines found it past. */
  lemma {:induction false} EntryIsLastOffence(groupMax: int, steps: seq<Step>, states: seq<Fleet>, n: nat, c: string)
    requires IsRun(groupMax, steps, states) && n <= |steps|
    ensures c in states[n].quarantine <==> exists m :: 0 <= m < n && LastOffence(groupMax, steps, states, m, n, c)
    ensures c in states[n].quarantine ==> exists m :: 0 <= m < n && Remembers(groupMax, steps, states, m, n, c)
  {
    if n > 0 {
      var p := n - 1;
      EntryIsLastOffence(groupMax, steps, states, p, c);
      RunAt(groupMax, steps, states, p);
      EntryStep(states[p], steps[p], c);
      if Condemned(groupMax, steps, states, p, c) {
        assert LastOffence(groupMax, steps, states, p, n, c);
        assert Remembers(groupMax, steps, states, p, n, c);
      } else if c in states[n].quarantine {
        var m :| 0 <= m < p && Remembers(groupMax, steps, states, m, p, c);
        OffenceGoesOn(groupMax, steps, states, m, p, c);
        assert Remembers(groupMax, steps, states, m, n, c);
      } else if m :| 0 <= m < n && LastOffence(groupMax, steps, states, m, n, c) {
        assert m < p && LastOffence(groupMax, steps, states, m, p, c);
        assert Lifted(groupMax, steps, states, p, c);
      }
    }
  }

  lemma OffenceGoesOn(groupMax: int, steps: seq<Step>, states: seq<Fleet>, m: nat, p: nat, c: string)
    requires IsRun(groupMax, steps, states) && m < p < |steps| && LastOffence(groupMax, steps, states, m, p, c)
    requires !Condemned(groupMax, steps, states, p, c) && !Lifted(groupMax, steps, states, p, c)
    ensures LastOffence(groupMax, steps, states, m, p + 1, c)
    ensures forall until :: Overdue(steps, m, p + 1, until) <==> Overdue(steps, m, p, until) || Reaches(steps[p], until)
  {
    forall until ensures Overdue(steps, m, p + 1, until) <==> Overdue(steps, m, p, until) || Reaches(steps[p], until) {
      if k :| m < k < p && Reaches(steps[k], until) { assert Overdue(steps, m, p + 1, until); }
      if Reaches(steps[p], until) { assert Overdue(steps, m, p + 1, until); }
      if k :| m < k < p + 1 && Reaches(steps[k], until) { if k < p { assert Overdue(steps, m, p, until); } }
    }
  }

  // ---- Repeat offences -------------------------------------------------------------------------------

  /** How often camera c was condemned since its entry was made, from the first time that found it on probation on. */
  ghost function Repeats(groupMax: int, steps: seq<Step>, states: seq<Fleet>, n: nat, c: string): nat
    requires IsRun(groupMax, steps, states) && n <= |steps|
  {
    if n == 0 || c !in states[n].quarantine then 0
    else
      var r := Repeats(groupMax, steps, states, n - 1, c);
      if Condemned(groupMax, steps, states, n - 1, c) && (OnProbation(states[n - 1], c) || r > 0) then r + 1 else r
  }

  /** One minute, doubled for each repeat offence, and no more than ten. */
  function Wait(r: nat): int {
    if r == 0 then 60 else if r == 1 then 120 else if r == 2 then 240 else if r == 3 then 480 else 600
  }

  /** Main result: in every run the back-off of an entry is the wait its repeat offences have earned. */
  lemma {:induction false} BackoffCountsOffences(groupMax: int, steps: seq<Step>, states: seq<Fleet>, n: nat, c: string)
    requires IsRun(groupMax, steps, states) && n <= |steps| && c in states[n].quarantine
    ensures states[n].quarantine[c].backoffSec == Wait(Repeats(groupMax, steps, states, n, c))
  {
    if n > 0 {
      var p := n - 1;
      RunAt(groupMax, steps, states, p);
      EntryStep(states[p], steps[p], c);
      if c in states[p].quarantine { BackoffCountsOffences(groupMax, steps, states, p, c); }
    }
  }

  // ---- After graduation ------------------------------------------------------------------------------

  lemma ProbationPlanned(f: Fleet, cams: seq<Camera>, now: int, c: Camera, g: GroupPlan)
    requires Clean(cams) && c in cams && g in PlansFor(f, cams, now) && HasMember(g, c.id)
    ensures g.probation <==> c.id in f.quarantine
  {
    var q, p := BackingOff(f.quarantine, now), Expired(f.quarantine, now);
    MemberById(cams, q, p, f.groupMax, g, c);
    PlanAreGroups(cams, q, p, f.groupMax, g);
    GroupMembers(cams, q, p, f.groupMax, g);
    if d :| d in g.members && d.id in p {
      var i, j :| 0 <= i < |g.members| && g.members[i] == c && 0 <= j < |g.members| && g.members[j] == d;
      assert |g.members| > 1 ==> Batchable(d, q, p);
      assert i == j;
    }
  }

  /** After a pass over a clean fleet the group that runs a camera is a probation group exactly if the camera has an
      entry. */
  lemma ProbationExactly(groupMax: int, steps: seq<Step>, states: seq<Fleet>, n: nat, c: Camera, gid: string)
    requires IsRun(groupMax, steps, states) && n < |steps|
    requires forall i :: 0 <= i < |steps| ==> Tidy(steps[i])
    requires steps[n].Pass? && c in steps[n].cams
    requires gid in states[n + 1].workers && HasMember(states[n + 1].workers[gid].plan, c.id)
    ensures states[n + 1].workers[gid].plan.probation <==> c.id in states[n].quarantine
  {
    RunSound(groupMax, steps, states, n);
    assert Tidy(steps[n]);
    DoneByPass(groupMax, steps, states, n);
    PassGroups(states[n], steps[n].cams, steps[n].at, c, gid);
  }

  lemma PassGroups(f: Fleet, cams: seq<Camera>, now: int, c: Camera, gid: string)
    requires Sound(f) && Clean(cams) && c in cams
    requires gid in Reconcile(f, cams, now).workers && HasMember(Reconcile(f, cams, now).workers[gid].plan, c.id)
    ensures Reconcile(f, cams, now).workers[gid].plan.probation <==> c.id in f.quarantine
  {
    var f' := Reconcile(f, cams, now);
    PassMatchesPlan(f, cams, now);
    PassSound(f, cams, now);
    PlansClean(f, cams, now);
    var g := WorkerRunsPlan(f', PlansFor(f, cams, now), gid);
    SameMembersRun(f'.workers[gid].plan, g, c.id);
    ProbationPlanned(f, cams, now, c, g);
  }

  lemma OneRunner(f: Fleet, id: string) returns (gid: string)
    requires RunsOnce(f, id)
    ensures gid in f.workers && HasMember(f.workers[gid].plan, id)
    ensures forall h :: h in f.workers && HasMember(f.workers[h].plan, id) ==> h == gid
  {
    gid :| gid in f.workers && HasMember(f.workers[gid].plan, id)
           && forall h :: h in f.workers && HasMember(f.workers[h].plan, id) ==> h == gid;
  }

  /** Main result: a camera that graduated runs in exactly one group after the next pass, which is no probation group,
      unless it has been condemned again by then. */
  lemma GraduateRejoins(groupMax: int, steps: seq<Step>, states: seq<Fleet>, m: nat, n: nat, c: Camera)
    returns (gid: string)
    requires IsRun(groupMax, steps, states) && m < n < |steps|
    requires forall i :: 0 <= i < |steps| ==> Tidy(steps[i])
    requires Lifted(groupMax, steps, states, m, c.id) && steps[n].Pass? && c in steps[n].cams
    requires forall k :: m < k < n ==> !Condemned(groupMax, steps, states, k, c.id)
    ensures var ws := states[n + 1].workers;
            && gid in ws && HasMember(ws[gid].plan, c.id) && !ws[gid].plan.probation
            && forall h :: h in ws && HasMember(ws[h].plan, c.id) ==> h == gid
  {
    EntryIsLastOffence(groupMax, steps, states, n, c.id);
    assert c.id !in states[n].quarantine;
    PassRunsEveryCamera(groupMax, steps, states, n, c);
    gid := OneRunner(states[n + 1], c.id);
    ProbationExactly(groupMax, steps, states, n, c, gid);
  }
}
