/** The login throttle: five free failures per key, then a lockout that doubles up to five minutes, computed
    with a 64-bit shift that is allowed to overflow. Times are nanoseconds since the zero time. */
module LoginThrottle {
  import opened Options
  import opened Arithmetic

  const FREE_ATTEMPTS: nat := 5
  const BACKOFF_BASE: int := 2_000_000_000
  const BACKOFF_MAX: int := 300_000_000_000
  const SECOND: int := 1_000_000_000
  const TWO_43: int := 0x800_0000_0000
  const TWO_64: int := 0x1_0000_0000_0000_0000

  // ---- The wrapping shift ----------------------------------------------------------------------------

  function Pow2(k: nat): (p: nat)
    ensures p >= 1
  {
    if k == 0 then 1 else 2 * Pow2(k - 1)
  }

  /** A value in a signed 64-bit register. */
  function Wrap(x: int): (r: int)
    ensures -(TWO_64 / 2) <= r < TWO_64 / 2
  {
    (x + TWO_64 / 2) % TWO_64 - TWO_64 / 2
  }

  /** Shifting by 64 or more leaves no bit; so does wrapping the product. */
  function ShiftLeft(x: int, k: nat): int { Wrap(x * Pow2(k)) }

  function Backoff(n: nat): int
    requires n > FREE_ATTEMPTS
  {
    var backoff := ShiftLeft(BACKOFF_BASE, n - FREE_ATTEMPTS - 1);
    if backoff > BACKOFF_MAX || backoff <= 0 then BACKOFF_MAX else backoff
  }

  /** What is meant: 2 s, 4 s, 8 s, ... capped at five minutes. */
  function Pause(n: nat): int
    requires n > FREE_ATTEMPTS
  {
    var p := BACKOFF_BASE * Pow2(n - FREE_ATTEMPTS - 1);
    if p < BACKOFF_MAX then p else BACKOFF_MAX
  }

  lemma {:induction false} Pow2Adds(j: nat, k: nat)
    ensures Pow2(j + k) == Pow2(j) * Pow2(k)
  {
    if j > 0 {
      Pow2Adds(j - 1, k);
      assert Pow2(j + k) == 2 * Pow2(j + k - 1);
      assert 2 * (Pow2(j - 1) * Pow2(k)) == 2 * Pow2(j - 1) * Pow2(k);
    }
  }

  lemma Pow2At33()
    ensures Pow2(33) == 0x2_0000_0000 && Pow2(32) == 0x1_0000_0000
  {
    assert Pow2(8) == 256;
    Pow2Adds(8, 8);
    Pow2Adds(16, 16);
  }

  lemma Pow2Monotone(j: nat, k: nat)
    requires j <= k
    ensures Pow2(j) <= Pow2(k)
  {
    Pow2Adds(j, k - j);
    MulMonotone(1, Pow2(k - j), Pow2(j));
  }

  /** A multiple of 2^43 stays one when it wraps. */
  lemma WrapKeepsMultiple(m: int)
    ensures exists q :: Wrap(m * TWO_43) == q * TWO_43
  {
    var x := m * TWO_43;
    var t := (x + TWO_64 / 2) / TWO_64;
    assert x + TWO_64 / 2 == t * TWO_64 + (x + TWO_64 / 2) % TWO_64;
    assert Wrap(x) == (m - t * 0x20_0000) * TWO_43;
  }

  /** From shift 33 on the value is a multiple of 2^43 ns, which exceeds the cap: whatever survives the overflow
      is zero, negative or too large. */
  lemma LateShift(k: nat)
    requires k >= 33
    ensures var v := ShiftLeft(BACKOFF_BASE, k); v <= 0 || v > BACKOFF_MAX
  {
    Pow2Adds(33, k - 33);
    Pow2At33();
    var m := 1953125 * Pow2(k - 33);
    assert BACKOFF_BASE * 0x2_0000_0000 == 1953125 * TWO_43;
    assert BACKOFF_BASE * Pow2(k) == m * TWO_43;
    WrapKeepsMultiple(m);
    var q :| Wrap(m * TWO_43) == q * TWO_43;
  }

  lemma EarlyShift(k: nat)
    requires k <= 32
    ensures ShiftLeft(BACKOFF_BASE, k) == BACKOFF_BASE * Pow2(k)
  {
    Pow2Monotone(k, 32);
    Pow2At33();
  }

  /** No overflow ever lands inside the allowed range. */
  lemma BackoffExact(n: nat)
    requires n > FREE_ATTEMPTS
    ensures Backoff(n) == Pause(n)
  {
    var k := n - FREE_ATTEMPTS - 1;
    if k <= 32 {
      EarlyShift(k);
    } else {
      LateShift(k);
      Pow2Monotone(8, k);
      assert Pow2(8) == 256;
    }
  }

  // ---- The throttle ----------------------------------------------------------------------------------

  /** The zero time of an entry that was never locked is None: every clock is past it. */
  datatype Attempts = Attempts(n: nat, lockedTill: Option<int>)

  predicate Locked(e: Option<Attempts>, now: int) {
    e.Some? && e.value.lockedTill.Some? && !(now > e.value.lockedTill.value)
  }

  function Failed(e: Option<Attempts>, now: int): Attempts {
    var n := if e.Some? then e.value.n + 1 else 1;
    if n > FREE_ATTEMPTS then Attempts(n, Some(now + Backoff(n)))
    else Attempts(n, if e.Some? then e.value.lockedTill else None)
  }

  function Lookup(fails: map<string, Attempts>, key: string): Option<Attempts> {
    if key in fails then Some(fails[key]) else None
  }

  datatype Verdict = Good | Wrong | Broken

  datatype Login = Login(key: string, now: int, verdict: Verdict)

  /** One login request: refused while locked out, otherwise counted by its outcome. */
  function Step(fails: map<string, Attempts>, l: Login): map<string, Attempts> {
    if Locked(Lookup(fails, l.key), l.now) then fails
    else if l.verdict == Wrong then fails[l.key := Failed(Lookup(fails, l.key), l.now)]
    else if l.verdict == Good then map k | k in fails && k != l.key :: fails[k]
    else fails
  }

  class Throttle {
    var fails: map<string, Attempts>

    constructor ()
      ensures fails == map[]
    {
      fails := map[];
    }

    /** Positive exactly while locked out, and then the remaining time rounded to the second above. */
    method RetryAfter(key: string, now: int) returns (secs: int)
      ensures secs > 0 <==> Locked(Lookup(fails, key), now)
      ensures secs > 0 ==> (secs - 1) * 1_000_000_000 <= fails[key].lockedTill.value - now < secs * 1_000_000_000
      ensures secs >= 0
    {
      if key !in fails || fails[key].lockedTill.None? || now > fails[key].lockedTill.value { return 0; }
      secs := (fails[key].lockedTill.value - now) / SECOND + 1;
    }

    method RecordFailure(key: string, now: int)
      modifies this
      ensures fails == old(fails)[key := Failed(Lookup(old(fails), key), now)]
    {
      var st := if key in fails then fails[key] else Attempts(0, None);
      st := st.(n := st.n + 1);
      if st.n > FREE_ATTEMPTS {
        var backoff := ShiftLeft(BACKOFF_BASE, st.n - FREE_ATTEMPTS - 1);
        if backoff > BACKOFF_MAX || backoff <= 0 { backoff := BACKOFF_MAX; }
        st := st.(lockedTill := Some(now + backoff));
      }
      fails := fails[key := st];
    }

    method Clear(key: string)
      modifies this
      ensures fails == map k | k in old(fails) && k != key :: old(fails)[k]
    {
      fails := map k | k in fails && k != key :: fails[k];
    }

    /** The login handler around the throttle. */
    method HandleLogin(l: Login) returns (admitted: bool)
      modifies this
      ensures admitted == !Locked(Lookup(old(fails), l.key), l.now)
      ensures fails == Step(old(fails), l)
    {
      var secs := RetryAfter(l.key, l.now);
      if secs > 0 { return false; }
      if l.verdict == Wrong {
        RecordFailure(l.key, l.now);
        return true;
      }
      if l.verdict == Good { Clear(l.key); }
      admitted := true;
    }
  }

  // ---- Whole runs ------------------------------------------------------------------------------------

  function Run(ls: seq<Login>): map<string, Attempts> {
    if ls == [] then map[] else Step(Run(ls[..|ls| - 1]), ls[|ls| - 1])
  }

  /** When the wrong passwords were tried that the key's owner has not since disproved by logging in. */
  function Guesses(ls: seq<Login>, key: string): seq<int> {
    if ls == [] then []
    else
      var n := |ls| - 1;
      NextGuesses(Guesses(ls[..n], key), ls[n], key)
  }

  /** Each guess after the i-th waits out the pause the i-th earned. */
  ghost predicate Spaced(g: seq<int>) {
    forall i :: FREE_ATTEMPTS < i < |g| ==> g[i] - g[i - 1] > Pause(i)
  }

  function EntryFor(g: seq<int>): Option<Attempts> {
    if g == [] then None
    else Some(Attempts(|g|, if |g| > FREE_ATTEMPTS then Some(g[|g| - 1] + Pause(|g|)) else None))
  }

  /** After six or more outstanding guesses the key waits out the pause the last one earned. */
  predicate Waiting(g: seq<int>, now: int) { |g| >= 6 && now <= g[|g| - 1] + Pause(|g|) }

  /** What one login does to the outstanding guesses of a key. */
  function NextGuesses(g: seq<int>, l: Login, key: string): seq<int> {
    if l.key != key || Waiting(g, l.now) || l.verdict == Broken then g
    else if l.verdict == Wrong then g + [l.now]
    else []
  }

  /** In every run the entry of a key is a function of its outstanding guesses, and those are spaced. */
  lemma {:induction false} EntryTracksGuesses(ls: seq<Login>, key: string)
    ensures Lookup(Run(ls), key) == EntryFor(Guesses(ls, key))
    ensures Spaced(Guesses(ls, key))
  {
    if ls != [] {
      var n := |ls| - 1;
      EntryTracksGuesses(ls[..n], key);
      StepTracks(Run(ls[..n]), ls[n], Guesses(ls[..n], key), key);
    }
  }

  lemma StepTracks(fails: map<string, Attempts>, l: Login, g: seq<int>, key: string)
    requires Lookup(fails, key) == EntryFor(g) && Spaced(g)
    ensures var g' := NextGuesses(g, l, key);
            Lookup(Step(fails, l), key) == EntryFor(g') && Spaced(g')
  {
    if |g| + 1 > FREE_ATTEMPTS { BackoffExact(|g| + 1); }
  }

  /** Main result: in every run a login is turned away exactly while its key waits out a pause,
    whatever the password. */
  lemma RefusedExactly(ls: seq<Login>, l: Login)
    ensures Locked(Lookup(Run(ls), l.key), l.now) <==> Waiting(Guesses(ls, l.key), l.now)
  {
    EntryTracksGuesses(ls, l.key);
  }

  /** The pauses: 2, 4, 8, 16, 32, 64, 128 and 256 s after the sixth to the thirteenth guess, then five minutes. */
  lemma PauseTable(n: nat)
    requires n >= 6
    ensures Pause(6) == 2 * 1_000_000_000 && (n < 13 ==> Pause(n + 1) == 2 * Pause(n))
    ensures n >= 14 ==> Pause(n) == 300 * 1_000_000_000
  {
    if n >= 14 {
      PauseFull(n);
    } else {
      Pow2Monotone(n - 5, 8);
      assert Pow2(8) == 256;
    }
    if n < 13 { Pow2Monotone(n - 5, 7); assert Pow2(7) == 128; }
  }

  lemma PauseFull(n: nat)
    requires n >= 14
    ensures Pause(n) == BACKOFF_MAX
  {
    Pow2Monotone(8, n - 6);
    assert Pow2(8) == 256;
  }

  lemma {:induction false} LateGuesses(g: seq<int>, n: nat)
    requires Spaced(g) && 14 <= n <= |g|
    ensures g[n - 1] - g[13] >= (n - 14) * BACKOFF_MAX
  {
    if n > 14 {
      LateGuesses(g, n - 1);
      PauseFull(n - 1);
    }
  }

  /** The rate bound: beyond the fourteenth, a key gets at most one guess every five minutes, for ever. */
  lemma GuessRateBounded(ls: seq<Login>, key: string)
    ensures var g := Guesses(ls, key);
            |g| > 14 ==> |g| <= 14 + (g[|g| - 1] - g[13]) / BACKOFF_MAX
  {
    var g := Guesses(ls, key);
    EntryTracksGuesses(ls, key);
    if |g| > 14 {
      LateGuesses(g, |g|);
      QuotientBound(|g| - 14, BACKOFF_MAX, g[|g| - 1] - g[13]);
    }
  }
}
