/** What the supervisor's trimmed deques say about the whole fault history, over every run. */
module FleetHistory {
  import opened Grouping
  import opened Windows
  import opened FleetSteps

  /** A handled marker: by which worker thread, for which camera, in a batch begun at `nowt`, at `now`. */
  datatype Entry = Entry(serial: nat, camera: string, nowt: int, now: int)

  ghost function Recorded(f: Fleet, s: Step): seq<Entry>
    requires Enabled(f, s)
  {
    if s.Marker? then [Entry(f.workers[s.gid].serial, s.camera, s.nowt, s.now)] else []
  }

  /** All markers handled in the first n steps. */
  ghost function Log(groupMax: int, steps: seq<Step>, states: seq<Fleet>, n: nat): seq<Entry>
    requires IsRun(groupMax, steps, states) && n <= |steps|
  {
    if n == 0 then [] else Log(groupMax, steps, states, n - 1) + Recorded(states[n - 1], steps[n - 1])
  }

  /** The steady clock: fleet-wide readings never go back, nor do a thread's own batch readings. */
  ghost predicate WellTimed(log: seq<Entry>) {
    forall i, j :: 0 <= i < j < |log| ==>
      log[i].now <= log[j].now && (log[i].serial == log[j].serial ==> log[i].nowt <= log[j].nowt)
  }

  // ---- The history-level rules ---------------------------------------------------------------

  ghost function Last(log: seq<Entry>): Entry
    requires log != []
  {
    log[|log| - 1]
  }

  /** Cameras that faulted anywhere in the fleet within two minutes of the last marker. */
  ghost function RecentCameras(log: seq<Entry>): set<string>
    requires log != []
  {
    set e | e in log && Last(log).now - e.now <= 120_000_000_000 :: e.camera
  }

  ghost predicate InStorm(log: seq<Entry>)
    requires log != []
  {
    |RecentCameras(log)| >= 3
  }

  /** Times of the markers one thread has counted against one camera: those outside storms. */
  ghost function Counted(log: seq<Entry>, serial: nat, camera: string): seq<int> {
    if log == [] then []
    else
      var e := Last(log);
      Counted(log[..|log| - 1], serial, camera)
      + (if e.serial == serial && e.camera == camera && !InStorm(log) then [e.nowt] else [])
  }

  /** How many counted markers earlier quarantines have used up. */
  ghost function Spent(h: seq<int>): (b: nat)
    ensures b <= |h|
  {
    if h == [] then 0
    else
      var n, b := |h|, Spent(h[..|h| - 1]);
      if n - b >= 3 && h[n - 1] - h[n - 3] <= 600_000_000_000 then n else b
  }

  /** The last counted marker is a third one within ten minutes. */
  ghost predicate ThirdStrike(h: seq<int>) {
    h != [] && |h| - Spent(h[..|h| - 1]) >= 3 && h[|h| - 1] - h[|h| - 3] <= 600_000_000_000
  }

  /** The rule for the last marker of a history. */
  ghost predicate Convicts(log: seq<Entry>) {
    log != [] && !InStorm(log) && ThirdStrike(Counted(log, Last(log).serial, Last(log).camera))
  }

  // ---- Refinement ------------------------------------------------------------------------------

  ghost function Faults(log: seq<Entry>): seq<Fault> {
    seq(|log|, i requires 0 <= i < |log| => Fault(log[i].now, log[i].camera))
  }

  ghost function FaultWindow(log: seq<Entry>): seq<Fault> {
    if log == [] then [] else Recent(FaultAt, Faults(log), Last(log).now, STORM_SPAN)
  }

  ghost function Pending(h: seq<int>): seq<int> {
    if h == [] then [] else Recent(Tick, h[Spent(h)..], h[|h| - 1], STRIKE_SPAN)
  }

  /** The entries of a worker that convict its camera. */
  ghost function Convictions(log: seq<Entry>, serial: nat): nat -> bool {
    (k: nat) => k < |log| && log[k].serial == serial && Convicts(log[..k + 1])
  }

  ghost predicate HasConvicted(log: seq<Entry>, serial: nat) {
    exists k: nat :: Convictions(log, serial)(k)
  }

  ghost predicate WorkerRefines(w: Worker, log: seq<Entry>) {
    && (forall camera :: Strikes(w, camera) == Pending(Counted(log, w.serial, camera)))
    && (w.hit <==> HasConvicted(log, w.serial))
  }

  ghost predicate Fresh(f: Fleet, log: seq<Entry>) {
    && (forall gid :: gid in f.workers ==> f.workers[gid].serial < f.nextSerial)
    && (forall g, h :: g in f.workers && h in f.workers && g != h ==> f.workers[g].serial != f.workers[h].serial)
    && (forall e :: e in log ==> e.serial < f.nextSerial)
  }

  ghost predicate Refines(f: Fleet, log: seq<Entry>) {
    && Fresh(f, log)
    && f.recentFaults == FaultWindow(log)
    && forall gid :: gid in f.workers ==> WorkerRefines(f.workers[gid], log)
  }

  lemma StormRefines(log: seq<Entry>, e: Entry, recent: seq<Fault>)
    requires WellTimed(log + [e]) && recent == FaultWindow(log)
    ensures NoteFault(recent, e.camera, e.now) == FaultWindow(log + [e])
    ensures Storm(NoteFault(recent, e.camera, e.now)) <==> InStorm(log + [e])
  {
    var log' := log + [e];
    var fs := Faults(log);
    assert Faults(log') == fs + [Fault(e.now, e.camera)];
    forall i, j | 0 <= i < j < |log'| ensures FaultAt(Faults(log')[i]) <= FaultAt(Faults(log')[j]) {
      assert log'[i].now <= log'[j].now;
    }
    assert Monotone(FaultAt, fs + [Fault(e.now, e.camera)]);
    if log != [] {
      assert log'[|log| - 1].now <= log'[|log|].now;
      WindowRefines(FaultAt, fs, Last(log).now, Fault(e.now, e.camera), e.now, STORM_SPAN);
    } else {
      assert fs == [];
      WindowRefines(FaultAt, fs, e.now, Fault(e.now, e.camera), e.now, STORM_SPAN);
    }
    WindowCameras(log');
  }

  lemma WindowCameras(log: seq<Entry>)
    requires log != []
    ensures Cameras(FaultWindow(log)) == RecentCameras(log)
  {
    var w, now := FaultWindow(log), Last(log).now;
    forall c | c in RecentCameras(log) ensures c in Cameras(w) {
      var e :| e in log && now - e.now <= STORM_SPAN && e.camera == c;
      var i :| 0 <= i < |log| && log[i] == e;
      var f := Faults(log)[i];
      RecentHas(FaultAt, Faults(log), now, STORM_SPAN, f);
      assert f in w;
    }
    forall c | c in Cameras(w) ensures c in RecentCameras(log) {
      var f :| f in w && f.camera == c;
      RecentHas(FaultAt, Faults(log), now, STORM_SPAN, f);
      var i :| 0 <= i < |log| && Faults(log)[i] == f;
      assert log[i] in log;
    }
  }

  ghost predicate Ascending(h: seq<int>) { Monotone(Tick, h) }

  lemma PushStrike(s: seq<int>, before: int, t: int)
    requires Ascending(s + [t]) && before <= t
    ensures AddStrike(Recent(Tick, s, before, STRIKE_SPAN), t) == Recent(Tick, s + [t], t, STRIKE_SPAN)
    ensures |Recent(Tick, s + [t], t, STRIKE_SPAN)| >= 3 <==> |s| >= 2 && t - s[|s| - 2] <= STRIKE_SPAN
  {
    WindowRefines(Tick, s, before, t, t, STRIKE_SPAN);
    RecentCount(Tick, s + [t], t, STRIKE_SPAN, 3);
  }

  lemma PendingIs(h: seq<int>, before: int)
    requires h != [] ==> before == h[|h| - 1]
    ensures Pending(h) == Recent(Tick, h[Spent(h)..], before, STRIKE_SPAN)
  {
  }

  /** One strike: the deque convicts exactly when the history does, and stays the history's window. */
  lemma StrikeRefines(h: seq<int>, t: int)
    requires Ascending(h + [t])
    ensures |AddStrike(Pending(h), t)| >= STRIKES_OUT <==> ThirdStrike(h + [t])
    ensures ThirdStrike(h + [t]) ==> Pending(h + [t]) == []
    ensures !ThirdStrike(h + [t]) ==> Pending(h + [t]) == AddStrike(Pending(h), t)
  {
    var h', b := h + [t], Spent(h);
    ThirdAfter(h, t);
    StrikeWindow(h, t);
    PendingIs(h', t);
    assert h'[b..] == h[b..] + [t];
    assert h'[|h'|..] == [];
  }

  lemma StrikeWindow(h: seq<int>, t: int)
    requires Ascending(h + [t])
    ensures AddStrike(Pending(h), t) == Recent(Tick, h[Spent(h)..] + [t], t, STRIKE_SPAN)
    ensures |AddStrike(Pending(h), t)| >= STRIKES_OUT <==> |h| - Spent(h) >= 2 && t - h[|h| - 2] <= STRIKE_SPAN
  {
    var h', b := h + [t], Spent(h);
    var s := h[b..];
    assert h'[b..] == s + [t];
    SuffixAscending(h', b);
    var before := if h == [] then t else h[|h| - 1];
    if h != [] { assert Tick(h'[|h| - 1]) <= Tick(h'[|h|]); }
    PendingIs(h, before);
    PushStrike(s, before, t);
    assert |s| >= 2 ==> s[|s| - 2] == h[|h| - 2];
  }

  lemma ThirdAfter(h: seq<int>, t: int)
    ensures ThirdStrike(h + [t]) <==> |h| - Spent(h) >= 2 && t - h[|h| - 2] <= STRIKE_SPAN
    ensures Spent(h + [t]) == if ThirdStrike(h + [t]) then |h| + 1 else Spent(h)
  {
    assert (h + [t])[..|h|] == h;
  }

  lemma SuffixAscending(h: seq<int>, b: nat)
    requires Ascending(h) && b <= |h|
    ensures Ascending(h[b..])
  {
    forall i, j | 0 <= i < j < |h[b..]| ensures Tick(h[b..][i]) <= Tick(h[b..][j]) {
      assert Tick(h[b + i]) <= Tick(h[b + j]);
    }
  }

  lemma AscendingAppend(h: seq<int>, t: int)
    requires Ascending(h) && forall x :: x in h ==> x <= t
    ensures Ascending(h + [t])
  {
    var h' := h + [t];
    forall i, j | 0 <= i < j < |h'| ensures Tick(h'[i]) <= Tick(h'[j]) {
      if j < |h| { assert Tick(h[i]) <= Tick(h[j]); } else { assert h[i] in h; }
    }
  }

  lemma {:induction false} CountedAscending(log: seq<Entry>, serial: nat, camera: string)
    requires WellTimed(log)
    ensures Ascending(Counted(log, serial, camera))
    ensures forall t :: t in Counted(log, serial, camera) ==> exists e :: e in log && e.serial == serial && e.nowt == t
  {
    if log != [] {
      var n := |log| - 1;
      assert forall i :: 0 <= i < n ==> log[..n][i] == log[i];
      CountedAscending(log[..n], serial, camera);
      var h := Counted(log[..n], serial, camera);
      if Last(log).serial == serial {
        forall t | t in h ensures t <= Last(log).nowt {
          var e :| e in log[..n] && e.serial == serial && e.nowt == t;
          var i :| 0 <= i < n && log[i] == e;
        }
        AscendingAppend(h, Last(log).nowt);
      }
      assert h + [] == h;
      forall t | t in Counted(log, serial, camera) ensures exists e :: e in log && e.serial == serial && e.nowt == t {
        if t in h {
          var e :| e in log[..n] && e.serial == serial && e.nowt == t;
          assert e in log;
        } else {
          assert Last(log) in log;
        }
      }
    }
  }

  lemma CountedGrows(log: seq<Entry>, e: Entry, serial: nat, camera: string)
    ensures Counted(log + [e], serial, camera) ==
            if e.serial == serial && e.camera == camera && !InStorm(log + [e])
            then Counted(log, serial, camera) + [e.nowt]
            else Counted(log, serial, camera)
  {
    assert (log + [e])[..|log|] == log;
    assert Counted(log, serial, camera) + [] == Counted(log, serial, camera);
  }

  lemma ConvictedGrows(log: seq<Entry>, e: Entry, serial: nat)
    ensures HasConvicted(log + [e], serial) <==>
            HasConvicted(log, serial) || (e.serial == serial && Convicts(log + [e]))
  {
    var before, after := Convictions(log, serial), Convictions(log + [e], serial);
    forall k: nat ensures k < |log| ==> (after(k) <==> before(k)) { ConvictedPrefix(log, e, serial, k); }
    NewestConviction(log, e, serial);
    forall k: nat ensures after(k) ==> k <= |log| {}
    forall k: nat ensures before(k) ==> k < |log| {}
    if HasConvicted(log, serial) {
      var k: nat :| before(k);
      assert after(k);
    }
    if k: nat :| after(k) { assert k < |log| ==> before(k); }
  }

  lemma NewestConviction(log: seq<Entry>, e: Entry, serial: nat)
    ensures Convictions(log + [e], serial)(|log|) <==> e.serial == serial && Convicts(log + [e])
  {
    assert (log + [e])[..|log| + 1] == log + [e];
  }

  lemma ConvictedPrefix(log: seq<Entry>, e: Entry, serial: nat, k: nat)
    ensures k < |log| ==> (Convictions(log + [e], serial)(k) <==> Convictions(log, serial)(k))
  {
    assert k < |log| ==> (log + [e])[..k + 1] == log[..k + 1];
  }

  /** A worker other than the one handling the marker is untouched by it. */
  lemma OtherWorker(w: Worker, log: seq<Entry>, e: Entry)
    requires WorkerRefines(w, log) && w.serial != e.serial
    ensures WorkerRefines(w, log + [e])
  {
    forall camera { CountedGrows(log, e, w.serial, camera); }
    ConvictedGrows(log, e, w.serial);
  }

  /** The worker handling the marker, one camera at a time. */
  lemma ThisCamera(w: Worker, log: seq<Entry>, e: Entry, hist: seq<int>)
    requires WellTimed(log + [e]) && WorkerRefines(w, log) && w.serial == e.serial
    requires hist == AddStrike(Strikes(w, e.camera), e.nowt)
    ensures !InStorm(log + [e]) ==>
              && (|hist| >= STRIKES_OUT <==> Convicts(log + [e]))
              && Pending(Counted(log + [e], w.serial, e.camera)) == if |hist| >= STRIKES_OUT then [] else hist
    ensures InStorm(log + [e]) ==>
              Pending(Counted(log + [e], w.serial, e.camera)) == Strikes(w, e.camera)
  {
    CountedGrows(log, e, w.serial, e.camera);
    CountedAscending(log + [e], w.serial, e.camera);
    assert Last(log + [e]) == e;
    if !InStorm(log + [e]) {
      StrikeRefines(Counted(log, w.serial, e.camera), e.nowt);
    }
  }

  ghost function AfterMarker(w: Worker, e: Entry, storm: bool, hist: seq<int>): Worker {
    if storm then w
    else if |hist| >= STRIKES_OUT then w.(strikes := w.strikes[e.camera := []], hit := true)
    else w.(strikes := w.strikes[e.camera := hist])
  }

  lemma ThisWorker(w: Worker, log: seq<Entry>, e: Entry, hist: seq<int>)
    requires WellTimed(log + [e]) && WorkerRefines(w, log) && w.serial == e.serial
    requires hist == AddStrike(Strikes(w, e.camera), e.nowt)
    ensures WorkerRefines(AfterMarker(w, e, InStorm(log + [e]), hist), log + [e])
    ensures Convicts(log + [e]) <==> !InStorm(log + [e]) && |hist| >= STRIKES_OUT
  {
    ThisCamera(w, log, e, hist);
    ConvictedGrows(log, e, w.serial);
    forall camera { EachCamera(w, log, e, hist, camera); }
  }

  lemma EachCamera(w: Worker, log: seq<Entry>, e: Entry, hist: seq<int>, camera: string)
    requires WellTimed(log + [e]) && WorkerRefines(w, log) && w.serial == e.serial
    requires hist == AddStrike(Strikes(w, e.camera), e.nowt)
    ensures Strikes(AfterMarker(w, e, InStorm(log + [e]), hist), camera) ==
      Pending(Counted(log + [e], w.serial, camera))
  {
    if camera == e.camera {
      ThisCamera(w, log, e, hist);
    } else {
      CountedGrows(log, e, w.serial, camera);
    }
  }

  lemma MarkerRefines(f: Fleet, log: seq<Entry>, gid: string, camera: string, nowt: int, now: int)
    requires gid in f.workers && Refines(f, log)
    requires WellTimed(log + [Entry(f.workers[gid].serial, camera, nowt, now)])
    ensures var e := Entry(f.workers[gid].serial, camera, nowt, now);
            var f' := HandleMarker(f, gid, camera, nowt, now);
            && Refines(f', log + [e])
            && f'.quarantine ==
              if Convicts(log + [e]) then QuarantineCamera(f.quarantine, camera, now) else f.quarantine
  {
    var w := f.workers[gid];
    var e := Entry(w.serial, camera, nowt, now);
    var f' := HandleMarker(f, gid, camera, nowt, now);
    var hist := AddStrike(Strikes(w, camera), nowt);
    StormRefines(log, e, f.recentFaults);
    ThisWorker(w, log, e, hist);
    assert f'.workers == f.workers[gid := AfterMarker(w, e, InStorm(log + [e]), hist)];
    OthersRefine(f, log, e, gid, AfterMarker(w, e, InStorm(log + [e]), hist));
  }

  lemma OthersRefine(f: Fleet, log: seq<Entry>, e: Entry, gid: string, w': Worker)
    requires gid in f.workers && Refines(f, log) && e.serial == f.workers[gid].serial
    requires w'.serial == e.serial && WorkerRefines(w', log + [e])
    ensures var ws := f.workers[gid := w'];
            && Fresh(f.(workers := ws), log + [e])
            && forall g :: g in ws ==> WorkerRefines(ws[g], log + [e])
  {
    var ws := f.workers[gid := w'];
    forall g | g in ws ensures WorkerRefines(ws[g], log + [e]) {
      if g != gid { OtherWorker(f.workers[g], log, e); }
    }
  }

  // ---- Steps that only start and stop workers --------------------------------------------------

  lemma {:induction false} CountedNothing(log: seq<Entry>, serial: nat, camera: string)
    requires forall e :: e in log ==> e.serial != serial
    ensures Counted(log, serial, camera) == [] && !HasConvicted(log, serial)
  {
    if log != [] {
      var n := |log| - 1;
      assert forall e :: e in log[..n] ==> e in log;
      assert Last(log) in log;
      CountedNothing(log[..n], serial, camera);
      forall k | 0 <= k < |log| ensures log[k].serial != serial { assert log[k] in log; }
    }
  }

  lemma StartRefines(f: Fleet, log: seq<Entry>, plan: GroupPlan)
    requires Refines(f, log) && plan.groupId !in f.workers
    ensures Refines(Start(f, plan), log)
  {
    forall camera ensures Counted(log, f.nextSerial, camera) == [] && !HasConvicted(log, f.nextSerial) {
      CountedNothing(log, f.nextSerial, camera);
    }
    assert !HasConvicted(log, f.nextSerial) by { CountedNothing(log, f.nextSerial, ""); }
    var f' := Start(f, plan);
    assert WorkerRefines(f'.workers[plan.groupId], log);
  }

  lemma {:induction false} StartMissingRefines(f: Fleet, log: seq<Entry>, plans: seq<GroupPlan>)
    requires Refines(f, log)
    ensures Refines(StartMissing(f, plans), log)
    ensures StartMissing(f, plans).quarantine == f.quarantine
    decreases |plans|
  {
    if plans != [] {
      if plans[0].groupId in f.workers {
        StartMissingRefines(f, log, plans[1..]);
      } else {
        StartRefines(f, log, plans[0]);
        StartMissingRefines(Start(f, plans[0]), log, plans[1..]);
      }
    }
  }

  lemma StepRefines(f: Fleet, log: seq<Entry>, s: Step)
    requires Enabled(f, s) && Refines(f, log) && WellTimed(log + Recorded(f, s))
    ensures Refines(Do(f, s), log + Recorded(f, s))
  {
    if s.Marker? {
      MarkerRefines(f, log, s.gid, s.camera, s.nowt, s.now);
    } else {
      assert log + [] == log;
      match s {
        case Started(plan) => StartRefines(f, log, plan);
        case Pass(cams, at) => PassRefines(f, log, cams, at);
        case _ => QuietRefines(f, log, s);
      }
    }
  }

  /** Steps that touch neither the markers nor which workers are new. */
  lemma QuietRefines(f: Fleet, log: seq<Entry>, s: Step)
    requires Enabled(f, s) && Refines(f, log) && !s.Marker? && !s.Started? && !s.Pass?
    ensures Refines(Do(f, s), log)
  {
    var f' := Do(f, s);
    forall gid | gid in f'.workers ensures WorkerRefines(f'.workers[gid], log) {
      QuietWorker(f, log, s, gid);
    }
  }

  lemma QuietWorker(f: Fleet, log: seq<Entry>, s: Step, gid: string)
    requires Enabled(f, s) && Refines(f, log) && !s.Marker? && !s.Started? && !s.Pass? && gid in Do(f, s).workers
    ensures WorkerRefines(Do(f, s).workers[gid], log)
  {
  }

  lemma PassRefines(f: Fleet, log: seq<Entry>, cams: seq<Camera>, at: int)
    requires Refines(f, log)
    ensures Refines(Reconcile(f, cams, at), log)
  {
    var plans := PlansFor(f, cams, at);
    StartMissingRefines(StopOthers(f.(quarantine := Resolve(f.quarantine, at)), plans), log, plans);
  }

  lemma LogIsPrefix(groupMax: int, steps: seq<Step>, states: seq<Fleet>, n: nat)
    requires IsRun(groupMax, steps, states) && n < |steps|
    ensures Log(groupMax, steps, states, n) <= Log(groupMax, steps, states, n + 1)
  {
  }

  lemma {:induction false} WellTimedPrefix(groupMax: int, steps: seq<Step>, states: seq<Fleet>, n: nat, m: nat)
    requires IsRun(groupMax, steps, states) && n <= m <= |steps|
    requires WellTimed(Log(groupMax, steps, states, m))
    ensures WellTimed(Log(groupMax, steps, states, n))
    decreases m - n
  {
    if n < m {
      LogIsPrefix(groupMax, steps, states, m - 1);
      var a, b := Log(groupMax, steps, states, m - 1), Log(groupMax, steps, states, m);
      assert forall i :: 0 <= i < |a| ==> a[i] == b[i];
      WellTimedPrefix(groupMax, steps, states, n, m - 1);
    }
  }

  /** In every run and interleaving the trimmed deques are windows of the full fault history. */
  lemma {:induction false} RunRefinesHistory(groupMax: int, steps: seq<Step>, states: seq<Fleet>, n: nat)
    requires IsRun(groupMax, steps, states) && n <= |steps|
    requires WellTimed(Log(groupMax, steps, states, |steps|))
    ensures Refines(states[n], Log(groupMax, steps, states, n))
  {
    if n > 0 {
      RunRefinesHistory(groupMax, steps, states, n - 1);
      WellTimedPrefix(groupMax, steps, states, n, |steps|);
      StepRefines(states[n - 1], Log(groupMax, steps, states, n - 1), steps[n - 1]);
    }
  }

  lemma PassQuarantine(f: Fleet, cams: seq<Camera>, at: int)
    ensures Reconcile(f, cams, at).quarantine == Resolve(f.quarantine, at)
  {
    var plans := PlansFor(f, cams, at);
    StartMissingQuarantine(StopOthers(f.(quarantine := Resolve(f.quarantine, at)), plans), plans);
  }

  /** Nothing is added and no deadline or backoff moves. */
  ghost predicate NoNewQuarantine(q: map<string, Quarantine>, q': map<string, Quarantine>) {
    forall c :: c in q' ==> c in q && q'[c].until == q[c].until && q'[c].backoffSec == q[c].backoffSec
  }

  lemma OtherStepsQuarantineNothing(f: Fleet, s: Step)
    requires Enabled(f, s) && !s.Marker?
    ensures NoNewQuarantine(f.quarantine, Do(f, s).quarantine)
  {
    if s.Pass? { PassQuarantine(f, s.cams, s.at); }
  }

  /** Main result: a step puts a camera in quarantine exactly when it handles that camera's marker and
      the marker is the third the thread has counted within ten minutes, none of them in a storm. No
      other step adds an entry or moves a deadline. */
  lemma QuarantinedExactlyOnThirdStrike(groupMax: int, steps: seq<Step>, states: seq<Fleet>, n: nat)
    requires IsRun(groupMax, steps, states) && n < |steps|
    requires WellTimed(Log(groupMax, steps, states, |steps|))
    ensures var q, q' := states[n].quarantine, states[n + 1].quarantine;
            if steps[n].Marker? && Convicts(Log(groupMax, steps, states, n + 1))
            then q' == QuarantineCamera(q, steps[n].camera, steps[n].now)
            else NoNewQuarantine(q, q')
  {
    RunRefinesHistory(groupMax, steps, states, n);
    WellTimedPrefix(groupMax, steps, states, n + 1, |steps|);
    var f, log, s := states[n], Log(groupMax, steps, states, n), steps[n];
    assert Log(groupMax, steps, states, n + 1) == log + Recorded(f, s);
    if s.Marker? {
      MarkerRefines(f, log, s.gid, s.camera, s.nowt, s.now);
    } else {
      OtherStepsQuarantineNothing(f, s);
    }
  }

  /** A worker retires at the end of a batch exactly when one of its own markers convicted. */
  lemma RetiresExactlyOnConviction(groupMax: int, steps: seq<Step>, states: seq<Fleet>, n: nat)
    requires IsRun(groupMax, steps, states) && n < |steps| && steps[n].BatchDone?
    requires WellTimed(Log(groupMax, steps, states, |steps|))
    ensures var gid := steps[n].gid;
            states[n + 1].workers[gid].retired <==>
            HasConvicted(Log(groupMax, steps, states, n), states[n].workers[gid].serial)
  {
    RunRefinesHistory(groupMax, steps, states, n);
    assert WorkerRefines(states[n].workers[steps[n].gid], Log(groupMax, steps, states, n));
  }

  // ---- The backoff ladder ------------------------------------------------------------------------

  predicate OnLadder(b: int) { b in {60, 120, 240, 480, 600} }

  ghost predicate Laddered(f: Fleet) {
    forall c :: c in f.quarantine ==> OnLadder(f.quarantine[c].backoffSec)
  }

  lemma {:induction false} StartMissingQuarantine(f: Fleet, plans: seq<GroupPlan>)
    ensures StartMissing(f, plans).quarantine == f.quarantine
    decreases |plans|
  {
    if plans != [] {
      StartMissingQuarantine(if plans[0].groupId in f.workers then f else Start(f, plans[0]), plans[1..]);
    }
  }

  /** In every run, whatever markers arrive, every backoff is 60, 120, 240, 480 or 600 seconds. */
  lemma {:induction false} BackoffLadder(groupMax: int, steps: seq<Step>, states: seq<Fleet>, n: nat)
    requires IsRun(groupMax, steps, states) && n <= |steps|
    ensures Laddered(states[n])
  {
    if n > 0 {
      BackoffLadder(groupMax, steps, states, n - 1);
      LadderStep(states[n - 1], steps[n - 1]);
    }
  }

  lemma LadderStep(f: Fleet, s: Step)
    requires Enabled(f, s) && Laddered(f)
    ensures Laddered(Do(f, s))
  {
    match s
    case Pass(cams, at) => PassQuarantine(f, cams, at);
    case Marker(gid, camera, nowt, now) => LadderMarker(f, gid, camera, nowt, now);
    case _ =>
  }

  lemma LadderMarker(f: Fleet, gid: string, camera: string, nowt: int, now: int)
    requires gid in f.workers && Laddered(f)
    ensures Laddered(HandleMarker(f, gid, camera, nowt, now))
  {
    assert OnLadder(NextBackoff(FleetSteps.Entry(f.quarantine, camera)));
  }
}
