/** The restart loop of one worker thread: back-off between children, the heal-delay ladder, and the flap detector
    that reports a group's members as failed. Fault strikes are modelled with the fleet. */
module WorkerLoop {
  import opened Ordering
  import opened Windows

  const MS: int := 1_000_000
  const SECOND: int := 1_000_000_000
  const FLAP_SPAN: int := 60 * SECOND
  const LONG_LIFE: int := 600 * SECOND
  const BACKOFF_MAX: int := 30_000
  const CHRONIC: nat := 10

  datatype Settings = Settings(graceSec: int, hasBus: bool)

  /** One turn of the loop: the fork fails at `now`, or a child spawned at `spawned` is seen dead at `now`. */
  datatype Turn = ForkFails(now: int) | Exits(spawned: int, now: int, marker: bool, rc: int)

  datatype Loop = Loop(backoffMs: int, recentExits: seq<int>, heals: nat, fastExits: nat, beenHealthy: bool)

  const FRESH: Loop := Loop(1000, [], 0, 0, false)

  function Doubled(ms: int): int { if ms * 2 < BACKOFF_MAX then ms * 2 else BACKOFF_MAX }

  function HealthBar(p: Settings): int { if p.graceSec > 0 then p.graceSec else 60 }

  predicate RanHealthy(t: Turn, p: Settings)
    requires t.Exits?
  {
    t.marker && (t.now - t.spawned) / SECOND >= HealthBar(p)
  }

  predicate LivedLong(t: Turn)
    requires t.Exits?
  {
    !(t.now - t.spawned < LONG_LIFE)
  }

  /** What the loop sleeps after a turn, jitter aside. */
  function Slept(l: Loop, t: Turn, p: Settings): int {
    if t.Exits? && RanHealthy(t, p) then 1000 else l.backoffMs
  }

  function Heals(heals: nat, t: Turn): nat
    requires t.Exits?
  {
    if LivedLong(t) then 0 else if t.rc == 3 then heals + 1 else heals
  }

  function Next(l: Loop, t: Turn, p: Settings): Loop {
    if t.ForkFails? then l.(backoffMs := Doubled(l.backoffMs))
    else
      Loop(Doubled(Slept(l, t, p)), Trim(Tick, l.recentExits + [t.now], t.now, FLAP_SPAN), Heals(l.heals, t),
           if RanHealthy(t, p) then 0 else l.fastExits + 1, l.beenHealthy || RanHealthy(t, p))
  }

  /** Whether a turn that led to l reports the members as failed. */
  predicate Reports(l: Loop, t: Turn, p: Settings) {
    && t.Exits? && |l.recentExits| >= 3 && p.hasBus
    && !(p.graceSec > 0 && !l.beenHealthy && !(l.fastExits >= CHRONIC))
  }

  /** The heal delay handed to the next child, in seconds. */
  function HealDelay(heals: nat): int {
    if heals == 0 then 10 else if heals == 1 then 60 else if heals == 2 then 240 else 600
  }

  class Worker {
    var backoffMs: int
    var recentExits: seq<int>
    var heals: nat
    var fastExits: nat
    var beenHealthy: bool
    const p: Settings

    function View(): Loop
      reads this
    {
      Loop(backoffMs, recentExits, heals, fastExits, beenHealthy)
    }

    constructor (p: Settings)
      ensures View() == FRESH && this.p == p
    {
      backoffMs, recentExits, heals, fastExits, beenHealthy := 1000, [], 0, 0, false;
      this.p := p;
    }

    /** The heal delay put into the environment of the next child. */
    method NextHealDelay() returns (seconds: int)
      ensures seconds == HealDelay(heals)
    {
      var ladder := [10, 60, 240, 600];
      seconds := ladder[if heals < 3 then heals else 3];
    }

    method ForkFailed(now: int) returns (sleepMs: int)
      modifies this
      ensures View() == Next(old(View()), ForkFails(now), p)
      ensures sleepMs == Slept(old(View()), ForkFails(now), p)
    {
      sleepMs := backoffMs;
      backoffMs := if backoffMs * 2 < BACKOFF_MAX then backoffMs * 2 else BACKOFF_MAX;
    }

    method ChildExited(spawned: int, now: int, marker: bool, rc: int) returns (failed: bool, sleepMs: int)
      modifies this
      ensures View() == Next(old(View()), Exits(spawned, now, marker, rc), p)
      ensures failed == Reports(View(), Exits(spawned, now, marker, rc), p)
      ensures sleepMs == Slept(old(View()), Exits(spawned, now, marker, rc), p)
    {
      var uptime := (now - spawned) / SECOND;
      if marker && uptime >= (if p.graceSec > 0 then p.graceSec else 60) {
        beenHealthy := true;
        fastExits := 0;
        backoffMs := 1000;
      } else {
        fastExits := fastExits + 1;
      }
      var lived := now - spawned;
      if rc == 3 && lived < LONG_LIFE {
        heals := heals + 1;
      } else if lived >= LONG_LIFE {
        heals := 0;
      }
      recentExits := TrimFront(Tick, recentExits + [now], now, FLAP_SPAN);
      failed := false;
      if |recentExits| >= 3 && p.hasBus {
        var chronic := fastExits >= CHRONIC;
        if !(p.graceSec > 0 && !beenHealthy && !chronic) { failed := true; }
      }
      sleepMs := backoffMs;
      backoffMs := if backoffMs * 2 < BACKOFF_MAX then backoffMs * 2 else BACKOFF_MAX;
    }
  }

  // ---- Runs ------------------------------------------------------------------------------------------

  function Run(ts: seq<Turn>, p: Settings): Loop {
    if ts == [] then FRESH else Next(Run(ts[..|ts| - 1], p), ts[|ts| - 1], p)
  }

  function Begins(t: Turn): int { if t.ForkFails? then t.now else t.spawned }

  /** Every turn begins after the sleep of the one before, and a child lives for some time. */
  ghost predicate Timed(ts: seq<Turn>, p: Settings) {
    && (forall i :: 0 <= i < |ts| && ts[i].Exits? ==> ts[i].spawned < ts[i].now)
    && forall i :: 1 <= i < |ts| ==> Begins(ts[i]) >= ts[i - 1].now + Slept(Run(ts[..i - 1], p), ts[i - 1], p) * MS
  }

  lemma TimedPrefix(ts: seq<Turn>, p: Settings)
    requires ts != [] && Timed(ts, p)
    ensures Timed(ts[..|ts| - 1], p)
  {
    var us := ts[..|ts| - 1];
    forall i | 1 <= i < |us| ensures Begins(us[i]) >= us[i - 1].now + Slept(Run(us[..i - 1], p), us[i - 1], p) * MS {
      assert us[..i - 1] == ts[..i - 1];
    }
  }

  /** The child left its healthy marker and lived as long as the startup grace, or a minute where there is none. */
  predicate HealthyExit(t: Turn, p: Settings) {
    t.Exits? && t.marker && t.now - t.spawned >= (if p.graceSec >= 1 then p.graceSec else 60) * 1_000_000_000
  }

  /** The child lived ten minutes. */
  predicate LongLife(t: Turn) { t.Exits? && t.now - t.spawned >= 600_000_000_000 }

  lemma LivesExact(t: Turn, p: Settings)
    requires t.Exits?
    ensures RanHealthy(t, p) <==> HealthyExit(t, p)
    ensures LivedLong(t) <==> LongLife(t)
  {
  }

  // ---- Back-off and heal delay -------------------------------------------------------------------------

  function Backoff(k: nat): (ms: int)
    ensures 1000 <= ms <= BACKOFF_MAX
  {
    if k == 0 then 1000 else Doubled(Backoff(k - 1))
  }

  /** The turns from the last healthy exit on; all of them if there was none. */
  function SinceHealthy(ts: seq<Turn>, p: Settings): seq<Turn> {
    if ts == [] then []
    else
      var n := |ts| - 1;
      if HealthyExit(ts[n], p) then [ts[n]] else SinceHealthy(ts[..n], p) + [ts[n]]
  }

  lemma {:induction false} BackoffCountsTurns(ts: seq<Turn>, p: Settings)
    ensures Run(ts, p).backoffMs == Backoff(|SinceHealthy(ts, p)|)
  {
    if ts != [] {
      var n := |ts| - 1;
      BackoffCountsTurns(ts[..n], p);
      if ts[n].Exits? { LivesExact(ts[n], p); }
      assert Backoff(1) == 2000;
    }
  }

  /** 1, 2, 4, 8, 16 and then 30 seconds. */
  lemma {:induction false} BackoffTable(k: nat)
    ensures k <= 4 ==> Backoff(k) == if k == 0 then 1000 else if k == 1 then 2000 else if k == 2 then 4000
                                     else if k == 3 then 8000 else 16000
    ensures k >= 5 ==> Backoff(k) == 30_000
  {
    if k > 0 { BackoffTable(k - 1); }
  }

  predicate ShortHeal(t: Turn) { t.Exits? && t.rc == 3 && !LongLife(t) }

  /** The turns after the last child that lived ten minutes. */
  function SinceLong(ts: seq<Turn>): seq<Turn> {
    if ts == [] then []
    else
      var n := |ts| - 1;
      if LongLife(ts[n]) then [] else SinceLong(ts[..n]) + [ts[n]]
  }

  /** The ladder climbs by one for every self-heal restart that did not stick, and only a ten-minute life resets it. */
  lemma {:induction false} HealsCounted(ts: seq<Turn>, p: Settings)
    ensures Run(ts, p).heals == |Filter(ShortHeal, SinceLong(ts))|
  {
    if ts != [] {
      var n := |ts| - 1;
      HealsCounted(ts[..n], p);
      if ts[n].Exits? { LivesExact(ts[n], p); }
      FilterAppend(ShortHeal, SinceLong(ts[..n]), [ts[n]]);
      assert Filter(ShortHeal, [ts[n]]) == if ShortHeal(ts[n]) then [ts[n]] else [];
    }
  }

  /** The delay of the next child: 10 s, and 60, 240, 600 s after one, two, three or more self-heal restarts since the
      last ten-minute life that did not stick. */
  lemma DelayLadder(ts: seq<Turn>, p: Settings)
    ensures HealDelay(Run(ts, p).heals) ==
              var n := |Filter(ShortHeal, SinceLong(ts))|;
              if n == 0 then 10 else if n == 1 then 60 else if n == 2 then 240 else 600
  {
    HealsCounted(ts, p);
  }

  /** Only a ten-minute life shortens the delay. */
  lemma DelayGrows(ts: seq<Turn>, t: Turn, p: Settings)
    ensures !LongLife(t) ==> HealDelay(Run(ts, p).heals) <= HealDelay(Run(ts + [t], p).heals)
    ensures LongLife(t) ==> HealDelay(Run(ts + [t], p).heals) == 10
  {
    assert (ts + [t])[..|ts|] == ts;
    if t.Exits? { LivesExact(t, p); }
  }

  // ---- The flap detector -----------------------------------------------------------------------------

  function ExitTimes(ts: seq<Turn>): seq<int> {
    if ts == [] then []
    else
      var n := |ts| - 1;
      ExitTimes(ts[..n]) + (if ts[n].Exits? then [ts[n].now] else [])
  }

  function LastExit(ts: seq<Turn>): int {
    var es := ExitTimes(ts);
    if es == [] then 0 else es[|es| - 1]
  }

  /** Exit times ascend and are over before the next turn begins. */
  lemma {:induction false} ExitsAscend(ts: seq<Turn>, p: Settings)
    requires Timed(ts, p)
    ensures Monotone(Tick, ExitTimes(ts))
    ensures ts != [] ==> forall e :: e in ExitTimes(ts) ==> e <= ts[|ts| - 1].now
  {
    if ts != [] {
      var n := |ts| - 1;
      TimedPrefix(ts, p);
      ExitsAscend(ts[..n], p);
      if n > 0 {
        BackoffCountsTurns(ts[..n - 1], p);
        assert Begins(ts[n]) >= ts[n - 1].now;
      }
      var es := ExitTimes(ts[..n]);
      forall i | 0 <= i < |es| ensures es[i] <= ts[n].now { assert es[i] in es; }
    }
  }

  /** The trimmed deque is the set of exits of the last minute. */
  lemma {:induction false} DequeIsWindow(ts: seq<Turn>, p: Settings)
    requires Timed(ts, p)
    ensures Run(ts, p).recentExits == Recent(Tick, ExitTimes(ts), LastExit(ts), FLAP_SPAN)
  {
    if ts != [] {
      var n := |ts| - 1;
      TimedPrefix(ts, p);
      DequeIsWindow(ts[..n], p);
      ExitsAscend(ts, p);
      if ts[n].Exits? {
        var es := ExitTimes(ts[..n]);
        assert es != [] ==> es[|es| - 1] in ExitTimes(ts);
        var before := if es == [] then ts[n].now else LastExit(ts[..n]);
        assert Recent(Tick, es, LastExit(ts[..n]), FLAP_SPAN) == Recent(Tick, es, before, FLAP_SPAN);
        WindowRefines(Tick, es, before, ts[n].now, ts[n].now, FLAP_SPAN);
        assert ExitTimes(ts) == es + [ts[n].now] && LastExit(ts) == ts[n].now;
      } else {
        assert ExitTimes(ts) == ExitTimes(ts[..n]);
      }
    }
  }

  /** What long series of unhealthy exits do to the gaps between exits. */
  ghost predicate Spread(l: Loop, ready: int) {
    var es, f := l.recentExits, l.fastExits;
    && 1000 <= l.backoffMs && l.backoffMs >= Backoff(f)
    && Monotone(Tick, es)
    && (f >= 1 ==> es != [] && ready >= es[|es| - 1] + Backoff(f - 1) * MS)
    && (f >= 2 && |es| >= 2 ==> es[|es| - 1] - es[|es| - 2] > Backoff(f - 2) * MS)
    && (es != [] ==> ready >= es[|es| - 1])
    && (f >= 8 ==> |es| <= 2)
  }

  function Ready(ts: seq<Turn>, p: Settings): int
    requires ts != []
  {
    var n := |ts| - 1;
    ts[n].now + Slept(Run(ts[..n], p), ts[n], p) * MS
  }

  lemma BackoffMonotone(k: nat)
    ensures Backoff(k) <= Backoff(k + 1) && Doubled(Backoff(k)) == Backoff(k + 1)
  {
  }

  lemma DoubledMonotone(a: int, b: int)
    requires a <= b
    ensures Doubled(a) <= Doubled(b)
  {
  }

  /** Trimming leaves a suffix whose first element is recent. */
  lemma {:induction false} TrimSuffix(s: seq<int>, now: int, span: int)
    ensures var r := Trim(Tick, s, now, span);
            |r| <= |s| && r == s[|s| - |r|..] && (r != [] ==> now - r[0] <= span)
  {
    if s != [] && now - s[0] > span { TrimSuffix(s[1..], now, span); }
  }

  lemma SpreadStep(l: Loop, ready: int, t: Turn, p: Settings)
    requires Spread(l, ready) && Begins(t) >= ready && (t.Exits? ==> t.spawned < t.now)
    ensures Spread(Next(l, t, p), t.now + Slept(l, t, p) * MS)
  {
    if t.ForkFails? {
      BackoffMonotone(l.fastExits);
    } else {
      PushAscends(l.recentExits, t.now);
      TrimKeepsLast(l.recentExits, t.now);
      if RanHealthy(t, p) {
        SpreadHealthy(l, t, p);
      } else {
        SpreadFast(l, ready, t, p);
      }
    }
  }

  lemma SpreadHealthy(l: Loop, t: Turn, p: Settings)
    requires t.Exits? && RanHealthy(t, p)
    requires var es := Next(l, t, p).recentExits; Monotone(Tick, es) && es != [] && es[|es| - 1] == t.now
    ensures Spread(Next(l, t, p), t.now + Slept(l, t, p) * MS)
  {
  }

  lemma SpreadFast(l: Loop, ready: int, t: Turn, p: Settings)
    requires Spread(l, ready) && t.Exits? && !RanHealthy(t, p) && ready <= t.spawned < t.now
    requires var es := Next(l, t, p).recentExits;
             && Monotone(Tick, es) && es != [] && es[|es| - 1] == t.now
             && (|es| >= 2 ==> l.recentExits != [] && es[|es| - 2] == l.recentExits[|l.recentExits| - 1])
    ensures Spread(Next(l, t, p), t.now + Slept(l, t, p) * MS)
  {
    BackoffMonotone(l.fastExits);
    DoubledMonotone(Backoff(l.fastExits), l.backoffMs);
    if l.fastExits >= 7 { TooFarApart(l, ready, t.now); }
  }

  /** After seven unhealthy exits the last two are more than 30 s apart and the next one is too. */
  lemma TooFarApart(l: Loop, ready: int, now: int)
    requires Spread(l, ready) && l.fastExits >= 7 && now > ready
    ensures |Trim(Tick, l.recentExits + [now], now, FLAP_SPAN)| <= 2
  {
    var es := l.recentExits;
    var pushed := es + [now];
    TrimSuffix(pushed, now, FLAP_SPAN);
    BackoffTable(l.fastExits - 1);
    BackoffTable(l.fastExits - 2);
    forall k | 0 <= k < |es| - 1 ensures now - pushed[k] > FLAP_SPAN {
      assert Tick(es[k]) <= Tick(es[|es| - 2]);
    }
  }

  lemma PushAscends(es: seq<int>, now: int)
    requires Monotone(Tick, es) && (es != [] ==> es[|es| - 1] <= now)
    ensures Monotone(Tick, es + [now])
    ensures Monotone(Tick, Trim(Tick, es + [now], now, FLAP_SPAN))
  {
    TrimSuffix(es + [now], now, FLAP_SPAN);
  }

  lemma TrimKeepsLast(es: seq<int>, now: int)
    ensures var r := Trim(Tick, es + [now], now, FLAP_SPAN);
            r != [] && r[|r| - 1] == now && (|r| >= 2 ==> es != [] && r[|r| - 2] == es[|es| - 1])
  {
    TrimSuffix(es + [now], now, FLAP_SPAN);
    LastStays(es + [now], now);
  }

  lemma {:induction false} LastStays(s: seq<int>, now: int)
    requires s != [] && s[|s| - 1] == now
    ensures Trim(Tick, s, now, FLAP_SPAN) != []
  {
    if now - s[0] > FLAP_SPAN { LastStays(s[1..], now); }
  }

  lemma {:induction false} RunSpread(ts: seq<Turn>, p: Settings)
    requires ts != [] && Timed(ts, p)
    ensures Spread(Run(ts, p), Ready(ts, p))
  {
    var n := |ts| - 1;
    if n == 0 {
      SpreadStep(FRESH, Begins(ts[0]), ts[0], p);
    } else {
      TimedPrefix(ts, p);
      RunSpread(ts[..n], p);
      assert ts[..n][..n - 1] == ts[..n - 1];
      SpreadStep(Run(ts[..n], p), Ready(ts[..n], p), ts[n], p);
    }
  }

  /** Ten unhealthy exits in a row and three exits within a minute exclude each other: by then the back-off alone
      keeps exits more than 30 s apart. */
  lemma ChronicNeverFlaps(ts: seq<Turn>, p: Settings)
    requires Timed(ts, p) && |Filter(Unhealthy(p), SinceHealthy(ts, p))| >= 8
    ensures |Run(ts, p).recentExits| <= 2
    ensures var es := ExitTimes(ts); |es| >= 3 && es[|es| - 1] - es[|es| - 3] > 60_000_000_000
  {
    FastCounted(ts, p);
    RunSpread(ts, p);
    DequeIsWindow(ts, p);
    ExitsAscend(ts, p);
    FastFewer(ts, p);
    RecentCount(Tick, ExitTimes(ts), LastExit(ts), FLAP_SPAN, 3);
  }

  function Unhealthy(p: Settings): Turn -> bool { (t: Turn) => t.Exits? && !HealthyExit(t, p) }

  /** The count of unhealthy exits in a row is that since the last healthy one. */
  lemma {:induction false} FastCounted(ts: seq<Turn>, p: Settings)
    ensures Run(ts, p).fastExits == |Filter(Unhealthy(p), SinceHealthy(ts, p))|
  {
    if ts != [] {
      var n := |ts| - 1;
      FastCounted(ts[..n], p);
      if ts[n].Exits? { LivesExact(ts[n], p); }
      FilterAppend(Unhealthy(p), SinceHealthy(ts[..n], p), [ts[n]]);
      FilterOne(Unhealthy(p), ts[n]);
    }
  }

  lemma {:induction false} FastFewer(ts: seq<Turn>, p: Settings)
    ensures Run(ts, p).fastExits <= |ExitTimes(ts)|
  {
    if ts != [] { FastFewer(ts[..|ts| - 1], p); }
  }

  predicate HealthyOnce(ts: seq<Turn>, p: Settings) {
    exists i :: 0 <= i < |ts| && HealthyExit(ts[i], p)
  }

  lemma {:induction false} BeenHealthyExactly(ts: seq<Turn>, p: Settings)
    ensures Run(ts, p).beenHealthy <==> HealthyOnce(ts, p)
  {
    if ts != [] {
      var n := |ts| - 1;
      BeenHealthyExactly(ts[..n], p);
      if ts[n].Exits? { LivesExact(ts[n], p); }
      if i :| 0 <= i < n && HealthyExit(ts[..n][i], p) { assert ts[i] == ts[..n][i]; }
      if i :| 0 <= i < |ts| && HealthyExit(ts[i], p) {
        if i < n { assert ts[..n][i] == ts[i]; }
      }
    }
  }

  /** When a group is reported failed: at an exit that is the third within a minute, once some child has been
      healthy or when there is no startup grace. The chronic override of the grace never takes part. */
  lemma ReportsExactly(ts: seq<Turn>, p: Settings)
    requires ts != [] && Timed(ts, p)
    ensures var es, t := ExitTimes(ts), ts[|ts| - 1];
            Reports(Run(ts, p), t, p) <==>
              t.Exits? && p.hasBus && |es| >= 3 && t.now - es[|es| - 3] <= 60_000_000_000
              && (p.graceSec <= 0 || HealthyOnce(ts, p))
  {
    var es, t := ExitTimes(ts), ts[|ts| - 1];
    ExitsAscend(ts, p);
    DequeIsWindow(ts, p);
    BeenHealthyExactly(ts, p);
    if t.Exits? {
      assert LastExit(ts) == t.now;
      RecentCount(Tick, es, t.now, FLAP_SPAN, 3);
      if Run(ts, p).fastExits >= CHRONIC { RunSpread(ts, p); }
    }
  }

  /** So a group that never gets healthy inside its grace is never reported, however long it crash-loops. */
  lemma GraceNeverOverridden(ts: seq<Turn>, p: Settings)
    requires ts != [] && Timed(ts, p) && p.graceSec > 0 && !HealthyOnce(ts, p)
    ensures !Reports(Run(ts, p), ts[|ts| - 1], p)
  {
    ReportsExactly(ts, p);
  }
}
