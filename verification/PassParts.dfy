/** An undisturbed reconcile pass is its parts, one after another: the deadlines are resolved, groups are stopped one by
    one, and missing groups are started one by one. */
module PassParts {
  import opened Grouping
  import opened FleetSteps

  /** The actions, each of them possible where it is taken, lead from s to t. */
  ghost predicate Leads<S, A>(can: (S, A) -> bool, act: (S, A) -> S, s: S, actions: seq<A>, t: S) {
    if actions == [] then t == s
    else can(s, actions[0]) && Leads(can, act, act(s, actions[0]), actions[1..], t)
  }

  lemma {:induction false} LeadsOn<S, A>(can: (S, A) -> bool, act: (S, A) -> S, s: S, a: seq<A>, t: S, b: seq<A>, u: S)
    requires Leads(can, act, s, a, t) && Leads(can, act, t, b, u)
    ensures Leads(can, act, s, a + b, u)
  {
    if a == [] {
      assert a + b == b;
    } else {
      LeadsOn(can, act, act(s, a[0]), a[1..], t, b, u);
      assert (a + b)[1..] == a[1..] + b;
    }
  }

  lemma LeadsFirst<S, A>(can: (S, A) -> bool, act: (S, A) -> S, s: S, a: A, t: S, rest: seq<A>, u: S)
    requires can(s, a) && act(s, a) == t && Leads(can, act, t, rest, u)
    ensures Leads(can, act, s, [a] + rest, u)
  {
    assert ([a] + rest)[1..] == rest;
  }

  ghost function Can(): (Fleet, Step) -> bool { (f, s) => Enabled(f, s) }

  ghost function Go(): (Fleet, Step) -> Fleet { (f, s) => if Enabled(f, s) then Do(f, s) else f }

  ghost predicate Follows(f: Fleet, steps: seq<Step>, f': Fleet) { Leads(Can(), Go(), f, steps, f') }

  ghost function Stop(f: Fleet, gid: string): Fleet { f.(workers := f.workers - {gid}) }

  lemma StopStep(f: Fleet, gid: string)
    requires gid in f.workers
    ensures Can()(f, Stopped(gid)) && Go()(f, Stopped(gid)) == Stop(f, gid)
  {
  }

  lemma StartStep(f: Fleet, plan: GroupPlan)
    requires plan.groupId !in f.workers
    ensures Can()(f, Started(plan)) && Go()(f, Started(plan)) == Start(f, plan)
  {
  }

  lemma StopOne(f: Fleet, plans: seq<GroupPlan>, gid: string)
    requires gid in f.workers && !Keeps(plans, gid, f.workers[gid])
    ensures StopOthers(Stop(f, gid), plans) == StopOthers(f, plans)
  {
    assert StopOthers(Stop(f, gid), plans).workers == StopOthers(f, plans).workers;
  }

  lemma StopNone(f: Fleet, plans: seq<GroupPlan>)
    requires forall gid :: gid in f.workers ==> Keeps(plans, gid, f.workers[gid])
    ensures StopOthers(f, plans) == f
  {
    assert StopOthers(f, plans).workers == f.workers;
  }

  /** Stopping the groups that are not kept, in whatever order. */
  lemma {:induction false} StopsLead(f: Fleet, plans: seq<GroupPlan>, gone: set<string>) returns (steps: seq<Step>)
    requires forall gid :: gid in gone <==> gid in f.workers && !Keeps(plans, gid, f.workers[gid])
    ensures forall i :: 0 <= i < |steps| ==> steps[i].Stopped?
    ensures Follows(f, steps, StopOthers(f, plans))
    decreases gone
  {
    if gone == {} {
      steps := [];
      StopNone(f, plans);
    } else {
      var gid :| gid in gone;
      var rest := StopsLead(Stop(f, gid), plans, gone - {gid});
      StopOne(f, plans, gid);
      StopStep(f, gid);
      LeadsFirst(Can(), Go(), f, Stopped(gid), Stop(f, gid), rest, StopOthers(f, plans));
      steps := [Stopped(gid)] + rest;
    }
  }

  /** Starting the missing groups, in plan order. */
  lemma {:induction false} StartsLead(f: Fleet, plans: seq<GroupPlan>) returns (steps: seq<Step>)
    ensures forall i :: 0 <= i < |steps| ==> steps[i].Started? && steps[i].plan in plans
    ensures Follows(f, steps, StartMissing(f, plans))
    decreases |plans|
  {
    if plans == [] {
      steps := [];
    } else if plans[0].groupId in f.workers {
      steps := StartsLead(f, plans[1..]);
    } else {
      var rest := StartsLead(Start(f, plans[0]), plans[1..]);
      StartStep(f, plans[0]);
      LeadsFirst(Can(), Go(), f, Started(plans[0]), Start(f, plans[0]), rest, StartMissing(f, plans));
      steps := [Started(plans[0])] + rest;
    }
  }

  lemma ResolveStep(f: Fleet, now: int)
    ensures Can()(f, Resolved(now)) && Go()(f, Resolved(now)) == f.(quarantine := Resolve(f.quarantine, now))
  {
  }

  /** Main result: for every fleet state and camera list, resolving the deadlines, then stopping some groups, then
      starting planned ones leads where the pass leads. */
  lemma PassIsItsParts(f: Fleet, cams: seq<Camera>, now: int) returns (stops: seq<Step>, starts: seq<Step>)
    requires Enabled(f, Pass(cams, now))
    ensures forall i :: 0 <= i < |stops| ==> stops[i].Stopped?
    ensures forall i :: 0 <= i < |starts| ==> starts[i].Started? && starts[i].plan in PlansFor(f, cams, now)
    ensures Follows(f, [Resolved(now)] + (stops + starts), Do(f, Pass(cams, now)))
  {
    var plans, g := PlansFor(f, cams, now), f.(quarantine := Resolve(f.quarantine, now));
    var kept := StopOthers(g, plans);
    stops := StopsLead(g, plans, set gid | gid in g.workers && !Keeps(plans, gid, g.workers[gid]));
    starts := StartsLead(kept, plans);
    LeadsOn(Can(), Go(), g, stops, kept, starts, StartMissing(kept, plans));
    ResolveStep(f, now);
    LeadsFirst(Can(), Go(), f, Resolved(now), g, stops + starts, StartMissing(kept, plans));
  }
}
