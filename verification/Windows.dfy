/** Sliding windows kept in trimmed deques, and what they say about the full history. */
module Windows {
  import opened Ordering

  /** The time of a window entry that is a time. */
  function Tick(t: int): int { t }

  ghost predicate Monotone<T>(at: T -> int, s: seq<T>) {
    forall i, j :: 0 <= i < j < |s| ==> at(s[i]) <= at(s[j])
  }

  /** Pop from the front while the front is older than `span`. */
  function Trim<T>(at: T -> int, s: seq<T>, now: int, span: int): seq<T> {
    if s != [] && now - at(s[0]) > span then Trim(at, s[1..], now, span) else s
  }

  /** Everything in the history that is no older than `span`. */
  function Recent<T(!new)>(at: T -> int, s: seq<T>, now: int, span: int): seq<T> {
    Filter(x => now - at(x) <= span, s)
  }

  method TrimFront<T>(at: T -> int, s: seq<T>, now: int, span: int) returns (r: seq<T>)
    ensures r == Trim(at, s, now, span)
  {
    r := s;
    while r != [] && now - at(r[0]) > span
      invariant Trim(at, r, now, span) == Trim(at, s, now, span)
    {
      r := r[1..];
    }
  }

  lemma {:induction false} TrimIsRecent<T(!new)>(at: T -> int, s: seq<T>, now: int, span: int)
    requires Monotone(at, s)
    ensures Trim(at, s, now, span) == Recent(at, s, now, span)
  {
    if s != [] {
      TrimIsRecent(at, s[1..], now, span);
      if now - at(s[0]) <= span {
        RecentAll(at, s, now, span);
      }
    }
  }

  lemma {:induction false} RecentAll<T(!new)>(at: T -> int, s: seq<T>, now: int, span: int)
    requires Monotone(at, s) && s != [] && now - at(s[0]) <= span
    ensures Recent(at, s, now, span) == s
  {
    assert s == [s[0]] + s[1..];
    if |s| > 1 {
      RecentAll(at, s[1..], now, span);
    }
  }

  lemma {:induction false} RecentTwice<T(!new)>(at: T -> int, s: seq<T>, before: int, now: int, span: int)
    requires before <= now
    ensures Recent(at, Recent(at, s, before, span), now, span) == Recent(at, s, now, span)
  {
    if s != [] {
      RecentTwice(at, s[1..], before, now, span);
      var tail := Recent(at, s[1..], before, span);
      if before - at(s[0]) <= span {
        assert Recent(at, s, before, span) == [s[0]] + tail;
        assert ([s[0]] + tail)[1..] == tail;
      } else {
        assert Recent(at, s, before, span) == tail;
      }
    }
  }

  lemma {:induction false} RecentMonotone<T(!new)>(at: T -> int, s: seq<T>, now: int, span: int)
    requires Monotone(at, s)
    ensures Monotone(at, Recent(at, s, now, span))
  {
    if s != [] {
      RecentMonotone(at, s[1..], now, span);
      var tail := Recent(at, s[1..], now, span);
      forall x | x in tail ensures at(s[0]) <= at(x) {
        assert x in s[1..];
      }
    }
  }

  /** The deque discipline refines the full history: pushing and trimming a window of the past gives
      the window of the longer past. */
  lemma WindowRefines<T(!new)>(at: T -> int, s: seq<T>, before: int, x: T, now: int, span: int)
    requires Monotone(at, s + [x]) && before <= now
    ensures Trim(at, Recent(at, s, before, span) + [x], now, span) == Recent(at, s + [x], now, span)
  {
    var w := Recent(at, s, before, span);
    assert forall i :: 0 <= i < |s| ==> s[i] == (s + [x])[i];
    RecentMonotone(at, s, before, span);
    forall y | y in w ensures at(y) <= at(x) {
      assert y in s;
      var i :| 0 <= i < |s| && s[i] == y;
      assert (s + [x])[i] == y && (s + [x])[|s|] == x;
    }
    assert Monotone(at, w + [x]);
    TrimIsRecent(at, w + [x], now, span);
    FilterAppend(y => now - at(y) <= span, w, [x]);
    FilterAppend(y => now - at(y) <= span, s, [x]);
    RecentTwice(at, s, before, now, span);
  }

  /** In a time-ordered history the window is a suffix: it has at least k elements exactly when the
      k-th from the end is recent. */
  lemma {:induction false} RecentCount<T(!new)>(at: T -> int, s: seq<T>, now: int, span: int, k: nat)
    requires Monotone(at, s) && k >= 1
    ensures |Recent(at, s, now, span)| >= k <==> |s| >= k && now - at(s[|s| - k]) <= span
  {
    if s != [] {
      if now - at(s[0]) <= span {
        RecentAll(at, s, now, span);
        if |s| >= k { assert at(s[0]) <= at(s[|s| - k]); }
      } else {
        RecentCount(at, s[1..], now, span, k);
        if |s| == k { assert s[|s| - k] == s[0]; }
      }
    }
  }

  lemma RecentHas<T(!new)>(at: T -> int, s: seq<T>, now: int, span: int, x: T)
    ensures x in Recent(at, s, now, span) <==> x in s && now - at(x) <= span
  {
  }
}
