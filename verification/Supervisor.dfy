/** The supervisor object: its methods, each proved to perform the matching step of Fleet. */
module Supervisor {
  import opened Ordering
  import opened Arithmetic
  import opened Grouping
  import opened Planner
  import opened Signature
  import opened Windows
  import opened FleetSteps

  class Supervisor {
    var quarantine: map<string, Quarantine>
    var recentFaults: seq<Fault>
    var workers: map<string, Worker>
    var nextSerial: nat
    var groupMax: int

    ghost function View(): Fleet
      reads this
    {
      Fleet(quarantine, recentFaults, workers, nextSerial, groupMax)
    }

    constructor (groupMax: int)
      ensures View() == Initial(groupMax)
    {
      quarantine, recentFaults, workers, nextSerial := map[], [], map[], 0;
      this.groupMax := groupMax;
    }

    method NoteFaultAndCheckStorm(camera: string, now: int) returns (storm: bool)
      modifies this`recentFaults
      ensures recentFaults == NoteFault(old(recentFaults), camera, now)
      ensures storm <==> Storm(recentFaults)
    {
      recentFaults := TrimFront(FaultAt, recentFaults + [Fault(now, camera)], now, STORM_SPAN);
      var distinct: set<string> := {};
      for i := 0 to |recentFaults|
        invariant distinct == Cameras(recentFaults[..i])
      {
        assert recentFaults[..i + 1] == recentFaults[..i] + [recentFaults[i]];
        distinct := distinct + {recentFaults[i].camera};
      }
      assert recentFaults[..|recentFaults|] == recentFaults;
      storm := |distinct| >= STORM_CAMERAS;
    }

    method QuarantineMember(camera: string, now: int)
      modifies this`quarantine
      ensures quarantine == QuarantineCamera(old(quarantine), camera, now)
    {
      var e := if camera in quarantine then quarantine[camera] else Quarantine(0, 60, false);
      var backoff := e.backoffSec;
      if e.inProbation || backoff > 60 {
        backoff := Min(backoff * 2, 600);
      }
      quarantine := quarantine[camera := Quarantine(now + backoff * SECOND, backoff, false)];
    }

    method GraduateProbation(gid: string)
      requires gid in workers && workers[gid].plan.members != []
      modifies this`quarantine, this`workers
      ensures View() == Graduate(old(View()), gid)
      ensures quarantine == old(quarantine) - {old(workers)[gid].plan.members[0].id}
      ensures workers == old(workers)[gid := old(workers)[gid].(retired := true)]
    {
      var w := workers[gid];
      quarantine := quarantine - {w.plan.members[0].id};
      workers := workers[gid := w.(retired := true)];
    }

    /** One turn of the strike-counting loop. */
    method StrikeMember(gid: string, camera: string, nowt: int, now: int)
      requires gid in workers
      modifies this`quarantine, this`recentFaults, this`workers
      ensures View() == HandleMarker(old(View()), gid, camera, nowt, now)
    {
      var storm := NoteFaultAndCheckStorm(camera, now);
      if storm { return; }
      var w := workers[gid];
      var hist := if camera in w.strikes then w.strikes[camera] else [];
      hist := TrimFront(Tick, hist + [nowt], nowt, STRIKE_SPAN);
      if |hist| >= STRIKES_OUT {
        QuarantineMember(camera, now);
        hist := [];
        w := w.(hit := true);
      }
      workers := workers[gid := w.(strikes := w.strikes[camera := hist])];
    }

    /** A child exit: count a strike for every consumed marker, then retire if any member was
        quarantined. nows[i] is the clock when marker i is handled. */
    method HandleChildExit(gid: string, markers: seq<string>, nowt: int, nows: seq<int>)
      requires gid in workers && |nows| == |markers|
      modifies this`quarantine, this`recentFaults, this`workers
      ensures View() == EndBatch(HandleAll(old(View()), gid, markers, nowt, nows), gid)
    {
      for i := 0 to |markers|
        invariant gid in workers
        invariant View() == HandleAll(old(View()), gid, markers[..i], nowt, nows[..i])
      {
        assert markers[..i + 1][..i] == markers[..i] && nows[..i + 1][..i] == nows[..i];
        StrikeMember(gid, markers[i], nowt, nows[i]);
      }
      assert markers[..|markers|] == markers && nows[..|nows|] == nows;
      if workers[gid].hit {
        workers := workers[gid := workers[gid].(retired := true)];
      }
    }

    /** One reconcile pass: resolve quarantine, plan, stop what no longer matches, start what is missing. Only when
        a shape key clashes is there a choice, of the order of the groups that then share an id. */
    method ReconcileOnce(cams: seq<Camera>, now: int)
      requires DistinctIds(cams)
      modifies this`quarantine, this`workers, this`nextSerial
      ensures PassResult(old(View()), cams, now, View())
      ensures NoClash(cams) ==> View() == Reconcile(old(View()), cams, now)
    {
      ghost var f0 := View();
      var quarantined, probation := ResolveQuarantine(now);
      ghost var f1 := View();
      assert f1 == f0.(quarantine := Resolve(f0.quarantine, now));
      var plans := PlanGroups(cams, quarantined, probation, groupMax);
      assert PlanOrder(f0, cams, now, plans);
      ApplyPlans(plans);
      PassReached(f0, cams, now, plans, View());
    }

    /** The diff of the running workers against the plan list. */
    method ApplyPlans(plans: seq<GroupPlan>)
      modifies this`workers, this`nextSerial
      ensures View() == ApplyTable(old(View()), plans)
    {
      var sigs := Signatures(plans);
      StopGroups(sigs);
      forall i | 0 <= i < |plans| ensures plans[i].groupId in sigs { InTable(plans, i); }
      StartGroups(plans, sigs);
    }

    method ResolveQuarantine(now: int) returns (quarantined: set<string>, probation: set<string>)
      modifies this`quarantine
      ensures quarantine == Resolve(old(quarantine), now)
      ensures quarantined == BackingOff(old(quarantine), now) && probation == Expired(old(quarantine), now)
    {
      ghost var q0 := quarantine;
      quarantined, probation := {}, {};
      var todo := quarantine.Keys;
      while todo != {}
        invariant todo <= q0.Keys && quarantine.Keys == q0.Keys
        invariant forall c :: c in q0 ==> quarantine[c] == if c in todo then q0[c] else ResolveEntry(q0[c], now)
        invariant forall c :: c in quarantined <==> c in q0 && c !in todo && now < q0[c].until
        invariant forall c :: c in probation <==> c in q0 && c !in todo && !(now < q0[c].until)
        decreases |todo|
      {
        var c :| c in todo;
        todo := todo - {c};
        if now < quarantine[c].until {
          quarantined := quarantined + {c};
        } else {
          quarantine := quarantine[c := quarantine[c].(inProbation := true)];
          probation := probation + {c};
        }
      }
    }

    /** The erasing walk over the worker map. */
    method StopGroups(sigs: map<string, string>)
      modifies this`workers
      ensures workers == Survivors(old(workers), sigs)
    {
      ghost var ws := workers;
      var todo := workers.Keys;
      while todo != {}
        invariant todo <= workers.Keys <= ws.Keys
        invariant forall gid :: gid in workers ==> workers[gid] == ws[gid]
        invariant forall gid :: gid in ws && gid !in todo ==> (gid in workers <==> Survives(sigs, gid, ws[gid]))
        decreases |todo|
      {
        var gid :| gid in todo;
        todo := todo - {gid};
        var gone := gid !in sigs;
        var changed := !gone && sigs[gid] != workers[gid].signature;
        if gone || changed || workers[gid].retired {
          workers := workers - {gid};
        }
      }
    }

    method StartGroup(plan: GroupPlan, sig: string)
      modifies this`workers, this`nextSerial
      ensures View() == StartSigned(old(View()), plan, sig)
    {
      workers := workers[plan.groupId := Worker(nextSerial, plan, sig, map[], false, false)];
      nextSerial := nextSerial + 1;
    }

    method StartGroups(plans: seq<GroupPlan>, sigs: map<string, string>)
      requires forall i :: 0 <= i < |plans| ==> plans[i].groupId in sigs
      modifies this`workers, this`nextSerial
      ensures View() == StartTable(old(View()), plans, sigs)
    {
      ghost var f0 := View();
      for i := 0 to |plans|
        invariant StartTable(View(), plans[i..], sigs) == StartTable(f0, plans, sigs)
        invariant quarantine == f0.quarantine && recentFaults == f0.recentFaults && groupMax == f0.groupMax
      {
        StartTableStep(View(), plans, sigs, i);
        if plans[i].groupId !in workers {
          StartGroup(plans[i], sigs[plans[i].groupId]);
        }
      }
      assert plans[|plans|..] == [];
    }
  }

  // ---- Passes by signature table -----------------------------------------------------------------

  function StartSigned(f: Fleet, plan: GroupPlan, sig: string): Fleet {
    f.(workers := f.workers[plan.groupId := Worker(f.nextSerial, plan, sig, map[], false, false)],
       nextSerial := f.nextSerial + 1)
  }

  function StartTable(f: Fleet, plans: seq<GroupPlan>, sigs: map<string, string>): Fleet
    decreases |plans|
  {
    if plans == [] then f
    else
      var id := plans[0].groupId;
      StartTable(if id in f.workers || id !in sigs then f else StartSigned(f, plans[0], sigs[id]), plans[1..], sigs)
  }

  /** sig_by_id: of groups that share an id the last one counts. */
  function Table(plans: seq<GroupPlan>): (t: map<string, string>)
    ensures forall gid :: gid in t <==> Planned(plans, gid)
  {
    if plans == [] then map[]
    else
      var n := |plans| - 1;
      PlannedLast(plans);
      Table(plans[..n])[plans[n].groupId := Sig(plans[n])]
  }

  lemma PlannedLast(plans: seq<GroupPlan>)
    requires plans != []
    ensures forall gid :: Planned(plans, gid) <==>
      Planned(plans[..|plans| - 1], gid) || gid == plans[|plans| - 1].groupId
  {
    var n := |plans| - 1;
    forall gid ensures Planned(plans, gid) <==> Planned(plans[..n], gid) || gid == plans[n].groupId {
      if Planned(plans[..n], gid) {
        var i :| 0 <= i < n && plans[..n][i].groupId == gid;
        assert plans[i].groupId == gid;
      }
      if Planned(plans, gid) {
        var i :| 0 <= i < |plans| && plans[i].groupId == gid;
        assert i < n ==> plans[..n][i].groupId == gid;
      }
    }
  }

  lemma InTable(plans: seq<GroupPlan>, i: nat)
    requires i < |plans|
    ensures plans[i].groupId in Table(plans)
  {
    assert Planned(plans, plans[i].groupId);
  }

  ghost function ApplyTable(f: Fleet, plans: seq<GroupPlan>): Fleet {
    StartTable(f.(workers := Survivors(f.workers, Table(plans))), plans, Table(plans))
  }

  lemma StartTableStep(f: Fleet, plans: seq<GroupPlan>, sigs: map<string, string>, i: nat)
    requires i < |plans| && plans[i].groupId in sigs
    ensures var id := plans[i].groupId;
            StartTable(f, plans[i..], sigs) ==
              StartTable(if id in f.workers then f else StartSigned(f, plans[i], sigs[id]), plans[i + 1..], sigs)
  {
    assert plans[i..][0] == plans[i] && plans[i..][1..] == plans[i + 1..];
  }

  lemma {:induction false} TableExact(plans: seq<GroupPlan>, i: nat)
    requires i < |plans| && forall j, k :: 0 <= j < k < |plans| ==> plans[j].groupId != plans[k].groupId
    ensures plans[i].groupId in Table(plans) && Table(plans)[plans[i].groupId] == Sig(plans[i])
  {
    var n := |plans| - 1;
    if i < n {
      assert plans[..n][i] == plans[i];
      TableExact(plans[..n], i);
    }
  }

  lemma {:induction false} StartTableIsMissing(f: Fleet, plans: seq<GroupPlan>, sigs: map<string, string>)
    requires forall i :: 0 <= i < |plans| ==> plans[i].groupId in sigs && sigs[plans[i].groupId] == Sig(plans[i])
    ensures StartTable(f, plans, sigs) == StartMissing(f, plans)
    decreases |plans|
  {
    if plans != [] {
      StartTableIsMissing(if plans[0].groupId in f.workers then f else Start(f, plans[0]), plans[1..], sigs);
    }
  }

  /** Without shared ids the table is the plan list's, and the pass is the specified one. */
  lemma TableIsPlan(f: Fleet, plans: seq<GroupPlan>)
    requires StrictlySorted(PlanLess, plans)
    ensures ApplyTable(f, plans) == Apply(f, plans)
  {
    StrictIdsDiffer(plans);
    forall i | 0 <= i < |plans|
      ensures plans[i].groupId in Table(plans) && Table(plans)[plans[i].groupId] == Sig(plans[i])
    {
      TableExact(plans, i);
    }
    SurvivorsAreKept(plans, Table(plans), f.workers);
    assert StopOthers(f, plans) == f.(workers := Survivors(f.workers, Table(plans)));
    StartTableIsMissing(StopOthers(f, plans), plans, Table(plans));
  }

  /** What a pass may lead to: some order of the plan list, sorted by id, applied by signature table. */
  ghost predicate PassResult(f: Fleet, cams: seq<Camera>, now: int, f': Fleet) {
    exists plans :: PlanOrder(f, cams, now, plans)
      && f' == ApplyTable(f.(quarantine := Resolve(f.quarantine, now)), plans)
  }

  ghost predicate PlanOrder(f: Fleet, cams: seq<Camera>, now: int, plans: seq<GroupPlan>) {
    Sorted(PlanLess, plans) && multiset(plans) == multiset(PlansFor(f, cams, now))
  }

  lemma PassReached(f: Fleet, cams: seq<Camera>, now: int, plans: seq<GroupPlan>, f': Fleet)
    requires PlanOrder(f, cams, now, plans) && f' == ApplyTable(f.(quarantine := Resolve(f.quarantine, now)), plans)
    requires NoClash(cams) ==> plans == PlansFor(f, cams, now) && StrictlySorted(PlanLess, plans)
    ensures PassResult(f, cams, now, f')
    ensures NoClash(cams) ==> f' == Reconcile(f, cams, now)
  {
    if NoClash(cams) { PassDetermined(f, cams, now, plans); }
  }

  lemma PassDetermined(f: Fleet, cams: seq<Camera>, now: int, plans: seq<GroupPlan>)
    requires plans == PlansFor(f, cams, now) && StrictlySorted(PlanLess, plans)
    ensures ApplyTable(f.(quarantine := Resolve(f.quarantine, now)), plans) == Reconcile(f, cams, now)
  {
    TableIsPlan(f.(quarantine := Resolve(f.quarantine, now)), plans);
  }

  /** sig_by_id, which also tells which ids are planned. */
  ghost predicate SignatureTable(plans: seq<GroupPlan>, sigs: map<string, string>) {
    && (forall i :: 0 <= i < |plans| ==> plans[i].groupId in sigs && sigs[plans[i].groupId] == Sig(plans[i]))
    && forall gid :: gid in sigs ==> Planned(plans, gid)
  }

  method Signatures(plans: seq<GroupPlan>) returns (sigs: map<string, string>)
    ensures sigs == Table(plans)
  {
    sigs := map[];
    for i := 0 to |plans|
      invariant sigs == Table(plans[..i])
    {
      var sig := SignatureOf(plans[i]);
      assert plans[..i + 1][..i] == plans[..i];
      sigs := sigs[plans[i].groupId := sig];
    }
    assert plans[..|plans|] == plans;
  }

  lemma StrictIdsDiffer(plans: seq<GroupPlan>)
    requires StrictlySorted(PlanLess, plans)
    ensures forall i, j :: 0 <= i < j < |plans| ==> plans[i].groupId != plans[j].groupId
  {
    forall i, j | 0 <= i < j < |plans| ensures plans[i].groupId != plans[j].groupId {
      assert PlanLess(plans[i], plans[j]);
      StrLessTrichotomy(plans[i].groupId, plans[j].groupId);
    }
  }

  predicate Survives(sigs: map<string, string>, gid: string, w: Worker) {
    gid in sigs && sigs[gid] == w.signature && !w.retired
  }

  ghost function Survivors(ws: map<string, Worker>, sigs: map<string, string>): map<string, Worker> {
    map gid | gid in ws && Survives(sigs, gid, ws[gid]) :: ws[gid]
  }

  lemma SurvivorsAreKept(plans: seq<GroupPlan>, sigs: map<string, string>, ws: map<string, Worker>)
    requires SignatureTable(plans, sigs)
    ensures Survivors(ws, sigs) == map gid | gid in ws && Keeps(plans, gid, ws[gid]) :: ws[gid]
  {
    forall gid | gid in ws ensures Keeps(plans, gid, ws[gid]) <==> Survives(sigs, gid, ws[gid]) {
      if gid in sigs {
        assert Planned(plans, gid);
        var i :| 0 <= i < |plans| && plans[i].groupId == gid;
        assert sigs[gid] == Sig(plans[i]);
      }
    }
  }

  ghost function HandleAll(f: Fleet, gid: string, markers: seq<string>, nowt: int, nows: seq<int>): (r: Fleet)
    requires gid in f.workers && |nows| == |markers|
    ensures gid in r.workers
  {
    if markers == [] then f
    else
      var n := |markers| - 1;
      HandleMarker(HandleAll(f, gid, markers[..n], nowt, nows[..n]), gid, markers[n], nowt, nows[n])
  }
}
