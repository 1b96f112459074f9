/** The supervisor's state and what each of its atomic steps does to it. Times are steady_clock
    ticks; a step that reads the clock takes the reading as a parameter. */
module FleetSteps {
  import opened Arithmetic
  import opened Grouping
  import opened Signature
  import opened Windows

  const SECOND: int := 1_000_000_000
  const STORM_SPAN: int := 120 * SECOND
  const STRIKE_SPAN: int := 600 * SECOND
  const STORM_CAMERAS: nat := 3
  const STRIKES_OUT: nat := 3

  datatype Fault = Fault(at: int, camera: string)

  datatype Quarantine = Quarantine(until: int, backoffSec: int, inProbation: bool)

  /** One worker thread. `serial` is its identity: strikes live and die with the thread. */
  datatype Worker = Worker(
    serial: nat, plan: GroupPlan, signature: string,
    strikes: map<string, seq<int>>, hit: bool, retired: bool)

  datatype Fleet = Fleet(
    quarantine: map<string, Quarantine>, recentFaults: seq<Fault>,
    workers: map<string, Worker>, nextSerial: nat, groupMax: int)

  function FaultAt(f: Fault): int { f.at }

  // ---- Fault storms ------------------------------------------------------------------------

  function NoteFault(recent: seq<Fault>, camera: string, now: int): seq<Fault> {
    Trim(FaultAt, recent + [Fault(now, camera)], now, STORM_SPAN)
  }

  function Cameras(recent: seq<Fault>): set<string> { set f | f in recent :: f.camera }

  predicate Storm(recent: seq<Fault>) { |Cameras(recent)| >= STORM_CAMERAS }

  // ---- Strikes and quarantine --------------------------------------------------------------

  function Strikes(w: Worker, camera: string): seq<int> {
    if camera in w.strikes then w.strikes[camera] else []
  }

  function AddStrike(hist: seq<int>, nowt: int): seq<int> {
    Trim(Tick, hist + [nowt], nowt, STRIKE_SPAN)
  }

  /** The entry operator[] finds or default-constructs. */
  function Entry(q: map<string, Quarantine>, camera: string): Quarantine {
    if camera in q then q[camera] else Quarantine(0, 60, false)
  }

  function NextBackoff(e: Quarantine): int {
    if e.inProbation || e.backoffSec > 60 then Min(e.backoffSec * 2, 600) else e.backoffSec
  }

  function QuarantineCamera(q: map<string, Quarantine>, camera: string, now: int): map<string, Quarantine> {
    var b := NextBackoff(Entry(q, camera));
    q[camera := Quarantine(now + b * SECOND, b, false)]
  }

  /** One fault marker, read by the worker of group `gid` whose batch began at `nowt`. */
  function HandleMarker(f: Fleet, gid: string, camera: string, nowt: int, now: int): Fleet
    requires gid in f.workers
  {
    var recent := NoteFault(f.recentFaults, camera, now);
    if Storm(recent) then f.(recentFaults := recent)
    else
      var w := f.workers[gid];
      var hist := AddStrike(Strikes(w, camera), nowt);
      if |hist| >= STRIKES_OUT then
        f.(recentFaults := recent,
           quarantine := QuarantineCamera(f.quarantine, camera, now),
           workers := f.workers[gid := w.(strikes := w.strikes[camera := []], hit := true)])
      else
        f.(recentFaults := recent,
           workers := f.workers[gid := w.(strikes := w.strikes[camera := hist])])
  }

  /** The end of a marker batch: a worker that quarantined a member retires itself. */
  function EndBatch(f: Fleet, gid: string): Fleet
    requires gid in f.workers
  {
    var w := f.workers[gid];
    if w.hit then f.(workers := f.workers[gid := w.(retired := true)]) else f
  }

  function Graduate(f: Fleet, gid: string): Fleet
    requires gid in f.workers && f.workers[gid].plan.members != []
  {
    var w := f.workers[gid];
    f.(quarantine := f.quarantine - {w.plan.members[0].id},
       workers := f.workers[gid := w.(retired := true)])
  }

  // ---- Reconcile ---------------------------------------------------------------------------

  function BackingOff(q: map<string, Quarantine>, now: int): set<string> {
    set c | c in q && now < q[c].until
  }

  function Expired(q: map<string, Quarantine>, now: int): set<string> {
    set c | c in q && !(now < q[c].until)
  }

  /** Expired entries flip to probation. */
  function ResolveEntry(e: Quarantine, now: int): Quarantine {
    if now < e.until then e else e.(inProbation := true)
  }

  function Resolve(q: map<string, Quarantine>, now: int): map<string, Quarantine> {
    map c | c in q :: ResolveEntry(q[c], now)
  }

  function PlansFor(f: Fleet, cams: seq<Camera>, now: int): seq<GroupPlan> {
    Plan(cams, BackingOff(f.quarantine, now), Expired(f.quarantine, now), f.groupMax)
  }

  predicate Planned(plans: seq<GroupPlan>, gid: string) {
    exists i :: 0 <= i < |plans| && plans[i].groupId == gid
  }

  /** A running worker survives the pass when its group is planned with the same signature and it has
      not retired. */
  predicate Keeps(plans: seq<GroupPlan>, gid: string, w: Worker) {
    !w.retired && exists i :: 0 <= i < |plans| && plans[i].groupId == gid && Sig(plans[i]) == w.signature
  }

  function StopOthers(f: Fleet, plans: seq<GroupPlan>): Fleet {
    f.(workers := map gid | gid in f.workers && Keeps(plans, gid, f.workers[gid]) :: f.workers[gid])
  }

  function Start(f: Fleet, plan: GroupPlan): Fleet {
    f.(workers := f.workers[plan.groupId := Worker(f.nextSerial, plan, Sig(plan), map[], false, false)],
       nextSerial := f.nextSerial + 1)
  }

  function StartMissing(f: Fleet, plans: seq<GroupPlan>): Fleet
    decreases |plans|
  {
    if plans == [] then f
    else StartMissing(if plans[0].groupId in f.workers then f else Start(f, plans[0]), plans[1..])
  }

  /** The diff of the running workers against a plan list. */
  function Apply(f: Fleet, plans: seq<GroupPlan>): Fleet {
    StartMissing(StopOthers(f, plans), plans)
  }

  function Reconcile(f: Fleet, cams: seq<Camera>, now: int): Fleet {
    Apply(f.(quarantine := Resolve(f.quarantine, now)), PlansFor(f, cams, now))
  }

  // ---- Runs --------------------------------------------------------------------------------

  /** Worker threads and the reconcile thread interleave at these atomic steps. Resolve, Stop and
      Start are the parts of a pass that other threads can run between; Pass is a pass nothing
      interrupts. */
  datatype Step =
    | Marker(gid: string, camera: string, nowt: int, now: int)
    | BatchDone(gid: string)
    | Healthy(gid: string)
    | Resolved(at: int)
    | Stopped(gid: string)
    | Started(plan: GroupPlan)
    | Pass(cams: seq<Camera>, at: int)

  predicate Alive(f: Fleet, gid: string) { gid in f.workers && !f.workers[gid].retired }

  ghost predicate Enabled(f: Fleet, s: Step) {
    match s
    case Marker(gid, _, _, _) => Alive(f, gid)
    case BatchDone(gid) => Alive(f, gid)
    case Healthy(gid) => Alive(f, gid) && f.workers[gid].plan.probation && f.workers[gid].plan.members != []
    case Resolved(_) => true
    case Stopped(gid) => gid in f.workers
    case Started(plan) => plan.groupId !in f.workers
    case Pass(cams, _) => DistinctIds(cams) && NoClash(cams)
  }

  ghost function Do(f: Fleet, s: Step): Fleet
    requires Enabled(f, s)
  {
    match s
    case Marker(gid, camera, nowt, now) => HandleMarker(f, gid, camera, nowt, now)
    case BatchDone(gid) => EndBatch(f, gid)
    case Healthy(gid) => Graduate(f, gid)
    case Resolved(at) => f.(quarantine := Resolve(f.quarantine, at))
    case Stopped(gid) => f.(workers := f.workers - {gid})
    case Started(plan) => Start(f, plan)
    case Pass(cams, at) => Reconcile(f, cams, at)
  }

  ghost function Initial(groupMax: int): Fleet { Fleet(map[], [], map[], 0, groupMax) }

  /** `states` is a run: it starts empty and each state follows from the one before by an enabled step. */
  ghost predicate IsRun(groupMax: int, steps: seq<Step>, states: seq<Fleet>) {
    && |states| == |steps| + 1
    && states[0] == Initial(groupMax)
    && forall i :: 0 <= i < |steps| ==> Enabled(states[i], steps[i]) && states[i + 1] == Do(states[i], steps[i])
  }
}
