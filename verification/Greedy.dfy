/** Greedy selection in priority order, written three ways in the repository: the C++ keep-list scan,
    the Python shrinking order and the Go enrolment pruner. One specification and its uniqueness. */
module Greedy {
  import opened Ordering

  /** Indices kept, in order. `dup` rejects an item outright; `over(x, y)` says x clashes with a kept y. */
  function Chosen<T(!new)>(xs: seq<T>, dup: T -> bool, over: (T, T) -> bool): (r: seq<nat>)
    ensures Within(r, |xs|) && forall i :: i in r ==> i < |xs|
    ensures |r| <= |xs|
    ensures forall i, j :: 0 <= i < j < |r| ==> r[i] < r[j]
  {
    if xs == [] then []
    else
      var n := |xs| - 1;
      var k := Chosen(xs[..n], dup, over);
      assert forall i :: 0 <= i < |k| ==> k[i] in k;
      if dup(xs[n]) || exists i :: i in k && over(xs[n], xs[i]) then k else k + [n]
  }

  /** The declarative reading: kept items never clash and are not duplicates; whatever is dropped is a
      duplicate or clashes with an earlier kept item. */
  ghost predicate Stable<T(!new)>(xs: seq<T>, dup: T -> bool, over: (T, T) -> bool, s: set<nat>) {
    && (forall j :: j in s ==> j < |xs| && !dup(xs[j]))
    && (forall i, j :: i in s && j in s && i < j ==> !over(xs[j], xs[i]))
    && (forall j: nat :: j < |xs| && j !in s ==> dup(xs[j]) || exists i :: i in s && i < j && over(xs[j], xs[i]))
  }

  ghost function Elements(r: seq<nat>): set<nat> { set i | i in r }

  lemma {:induction false} ChosenIsStable<T(!new)>(xs: seq<T>, dup: T -> bool, over: (T, T) -> bool)
    ensures Stable(xs, dup, over, Elements(Chosen(xs, dup, over)))
  {
    if xs != [] {
      var n := |xs| - 1;
      var ys := xs[..n];
      ChosenIsStable(ys, dup, over);
      var k := Chosen(ys, dup, over);
      assert xs == ys + [xs[n]];
      ClashAmong(ys, xs, k, over, xs[n]);
      assert Elements(k + [n]) == Elements(k) + {n};
      StableStep(ys, xs[n], dup, over, Elements(k));
    }
  }

  lemma ClashAmong<T(!new)>(ys: seq<T>, xs: seq<T>, k: seq<nat>, over: (T, T) -> bool, x: T)
    requires ys <= xs && forall i :: i in k ==> i < |ys|
    ensures (exists i :: i in k && over(x, xs[i])) <==> (exists i :: i in Elements(k) && over(x, ys[i]))
  {
    forall i | i in k ensures i in Elements(k) && xs[i] == ys[i] {}
  }

  /** A stable selection grows by the next item unless that is a duplicate or clashes. */
  lemma StableStep<T(!new)>(ys: seq<T>, x: T, dup: T -> bool, over: (T, T) -> bool, s: set<nat>)
    requires Stable(ys, dup, over, s)
    ensures var clash := dup(x) || exists i :: i in s && over(x, ys[i]);
            Stable(ys + [x], dup, over, if clash then s else s + {|ys|})
  {
  }

  /** There is only one stable selection. */
  lemma StableUnique<T(!new)>(xs: seq<T>, dup: T -> bool, over: (T, T) -> bool, s: set<nat>, t: set<nat>)
    requires Stable(xs, dup, over, s) && Stable(xs, dup, over, t)
    ensures s == t
  {
    forall j: nat ensures j in s <==> j in t { StableAgree(xs, dup, over, s, t, j); }
  }

  lemma {:induction false} StableAgree<T(!new)>(xs: seq<T>, dup: T -> bool, over: (T, T) -> bool, s: set<nat>,
                                                t: set<nat>, j: nat)
    requires Stable(xs, dup, over, s) && Stable(xs, dup, over, t)
    ensures j in s <==> j in t
    decreases j
  {
    forall i: nat | i < j ensures i in s <==> i in t { StableAgree(xs, dup, over, s, t, i); }
  }

  lemma {:induction false} AscendingUnique(a: seq<nat>, b: seq<nat>)
    requires forall i, j :: 0 <= i < j < |a| ==> a[i] < a[j]
    requires forall i, j :: 0 <= i < j < |b| ==> b[i] < b[j]
    requires Elements(a) == Elements(b)
    ensures a == b
  {
    forall x ensures x in a <==> x in b { assert x in Elements(a) <==> x in Elements(b); }
    SortedUnique((x: nat, y: nat) => x < y, a, b);
  }

  // ---- The shrinking order -----------------------------------------------------------------------

  ghost predicate Increasing(r: seq<nat>) { forall i, j :: 0 <= i < j < |r| ==> r[i] < r[j] }

  predicate Within(order: seq<nat>, n: nat) { forall k :: 0 <= k < |order| ==> order[k] < n }

  function Survivors<T(!new)>(xs: seq<T>, over: (T, T) -> bool, order: seq<nat>): (r: seq<nat>)
    requires order != [] && Within(order, |xs|)
    ensures |r| < |order| && Within(r, |xs|)
    ensures forall j :: j in r <==> j in order[1..] && j < |xs| && !over(xs[order[0]], xs[j])
  {
    var x := xs[order[0]];
    var r := Filter((j: nat) => j < |xs| && !over(x, xs[j]), order[1..]);
    assert forall k :: 0 <= k < |r| ==> r[k] in r;
    r
  }

  /** Keep the head of the order, drop everything it clashes with, repeat. */
  function Shrink<T(!new)>(xs: seq<T>, over: (T, T) -> bool, order: seq<nat>): seq<nat>
    requires Within(order, |xs|)
    decreases |order|
  {
    if order == [] then []
    else [order[0]] + Shrink(xs, over, Survivors(xs, over, order))
  }

  lemma {:induction false} FilterIncreasing(p: nat -> bool, s: seq<nat>)
    requires Increasing(s)
    ensures Increasing(Filter(p, s))
  {
    if s != [] {
      FilterIncreasing(p, s[1..]);
      forall j | j in Filter(p, s[1..]) ensures s[0] < j {
        var i :| 0 <= i < |s[1..]| && s[1..][i] == j;
        assert s[i + 1] == j;
      }
      PrependIncreasing(s[0], Filter(p, s[1..]));
    }
  }

  lemma PrependIncreasing(x: nat, t: seq<nat>)
    requires Increasing(t) && forall y :: y in t ==> x < y
    ensures Increasing([x] + t)
  {
    var r := [x] + t;
    forall i, j | 0 <= i < j < |r| ensures r[i] < r[j] {
      if i == 0 { assert t[j - 1] in t; }
    }
  }

  lemma SurvivorsIncreasing<T(!new)>(xs: seq<T>, over: (T, T) -> bool, order: seq<nat>)
    requires order != [] && Increasing(order) && Within(order, |xs|)
    ensures Increasing(Survivors(xs, over, order))
  {
    var x := xs[order[0]];
    FilterIncreasing((j: nat) => j < |xs| && !over(x, xs[j]), order[1..]);
  }

  ghost predicate Clash<T>(xs: seq<T>, over: (T, T) -> bool, i: nat, j: nat) {
    i < |xs| && j < |xs| && over(xs[i], xs[j])
  }

  /** What the shrinking loop selects from an increasing list of candidates. */
  ghost predicate Selects<T>(xs: seq<T>, over: (T, T) -> bool, order: seq<nat>, r: seq<nat>) {
    && Increasing(r)
    && (forall j :: j in r ==> j in order)
    && (forall i, j :: i in r && j in r && i < j ==> !Clash(xs, over, i, j))
    && (forall j :: j in order && j !in r ==> exists i :: i in r && i < j && Clash(xs, over, i, j))
  }

  lemma {:induction false} ShrinkSelects<T(!new)>(xs: seq<T>, over: (T, T) -> bool, order: seq<nat>)
    requires Increasing(order) && Within(order, |xs|)
    ensures Selects(xs, over, order, Shrink(xs, over, order))
    decreases |order|
  {
    if order != [] {
      var rest := Survivors(xs, over, order);
      SurvivorsIncreasing(xs, over, order);
      ShrinkSelects(xs, over, rest);
      SelectsHead(xs, over, order, rest, Shrink(xs, over, rest));
    }
  }

  lemma SelectsHead<T>(xs: seq<T>, over: (T, T) -> bool, order: seq<nat>, rest: seq<nat>, t: seq<nat>)
    requires order != [] && Increasing(order) && Within(order, |xs|)
    requires forall j :: j in rest <==> j in order[1..] && j < |xs| && !Clash(xs, over, order[0], j)
    requires Selects(xs, over, rest, t)
    ensures Selects(xs, over, order, [order[0]] + t)
  {
    var f := order[0];
    var r := [f] + t;
    forall j | j in order[1..] ensures f < j < |xs| {
      var i :| 0 <= i < |order[1..]| && order[1..][i] == j;
      assert order[i + 1] == j;
    }
    assert forall j :: j in order <==> j == f || j in order[1..];
    assert forall j :: j in r <==> j == f || j in t;
    forall j | j in order && j !in r ensures exists i :: i in r && i < j && Clash(xs, over, i, j) {
      if j in rest {
        var i :| i in t && i < j && Clash(xs, over, i, j);
        assert i in r;
      } else {
        assert f in r && f < j && Clash(xs, over, f, j);
      }
    }
    assert forall j :: j in t ==> j in order[1..];
    PrependIncreasing(f, t);
  }

  function Range(n: nat): (r: seq<nat>)
    ensures |r| == n && forall i :: 0 <= i < n ==> r[i] == i
  {
    seq(n, i => i)
  }

  /** With a symmetric clash the two loops keep the same items. */
  lemma ShrinkIsChosen<T(!new)>(xs: seq<T>, over: (T, T) -> bool)
    requires forall x, y :: over(x, y) == over(y, x)
    ensures Shrink(xs, over, Range(|xs|)) == Chosen(xs, x => false, over)
  {
    var order := Range(|xs|);
    var r, c := Shrink(xs, over, order), Chosen(xs, x => false, over);
    ShrinkSelects(xs, over, order);
    SelectedIsStable(xs, over, r);
    ChosenIsStable(xs, x => false, over);
    StableUnique(xs, x => false, over, Elements(r), Elements(c));
    AscendingUnique(r, c);
  }

  lemma SelectedIsStable<T(!new)>(xs: seq<T>, over: (T, T) -> bool, r: seq<nat>)
    requires forall x, y :: over(x, y) == over(y, x)
    requires Selects(xs, over, Range(|xs|), r)
    ensures Stable(xs, x => false, over, Elements(r))
  {
    var order, s := Range(|xs|), Elements(r);
    assert forall i :: i in s <==> i in r;
    assert forall j :: j in r ==> j < |xs|;
    forall i, j | i in s && j in s && i < j ensures !over(xs[j], xs[i]) {
      assert !Clash(xs, over, i, j);
    }
    forall j: nat | j < |xs| && j !in s ensures exists i :: i in s && i < j && over(xs[j], xs[i]) {
      assert order[j] == j && j in order;
      var i :| i in r && i < j && Clash(xs, over, i, j);
      assert i in s;
    }
  }

  /** The Python loop: while candidates remain, keep the head and filter the tail. */
  method ShrinkLoop<T(!new)>(xs: seq<T>, over: (T, T) -> bool) returns (keep: seq<nat>)
    ensures keep == Shrink(xs, over, Range(|xs|))
  {
    var order := Range(|xs|);
    keep := [];
    while order != []
      invariant Within(order, |xs|)
      invariant keep + Shrink(xs, over, order) == Shrink(xs, over, Range(|xs|))
      decreases |order|
    {
      ghost var tail := Shrink(xs, over, Survivors(xs, over, order));
      assert keep + ([order[0]] + tail) == keep + [order[0]] + tail;
      keep := keep + [order[0]];
      order := Survivors(xs, over, order);
    }
  }

  // ---- Kept items ----------------------------------------------------------------------------------

  function Pick<T>(xs: seq<T>, idx: seq<nat>): (r: seq<T>)
    requires Within(idx, |xs|)
    ensures |r| == |idx| && forall k :: 0 <= k < |r| ==> r[k] == xs[idx[k]]
  {
    seq(|idx|, k requires 0 <= k < |idx| => xs[idx[k]])
  }

  predicate Touches<T>(over: (T, T) -> bool, pool: seq<T>, x: T) {
    exists i :: 0 <= i < |pool| && over(x, pool[i])
  }

  /** The keep-list scan of one candidate, stopping at the first clash. */
  method Scan<T>(over: (T, T) -> bool, pool: seq<T>, x: T) returns (dup: bool)
    ensures dup <==> Touches(over, pool, x)
  {
    dup := false;
    for j := 0 to |pool|
      invariant !dup && forall k :: 0 <= k < j ==> !over(x, pool[k])
    {
      if over(x, pool[j]) { return true; }
    }
  }

  lemma TouchesPick<T(!new)>(over: (T, T) -> bool, xs: seq<T>, idx: seq<nat>, x: T)
    requires Within(idx, |xs|)
    ensures Touches(over, Pick(xs, idx), x) <==> exists k :: k in idx && k < |xs| && over(x, xs[k])
  {
    var kept := Pick(xs, idx);
    if Touches(over, kept, x) {
      var m :| 0 <= m < |kept| && over(x, kept[m]);
      assert idx[m] in idx;
    }
    if exists k :: k in idx && k < |xs| && over(x, xs[k]) {
      var k :| k in idx && k < |xs| && over(x, xs[k]);
      var m :| 0 <= m < |idx| && idx[m] == k;
      assert over(x, kept[m]);
    }
  }

  /** One turn of the keep-list loop. */
  lemma ChosenStep<T(!new)>(xs: seq<T>, dup: T -> bool, over: (T, T) -> bool, i: nat)
    requires i < |xs|
    ensures var idx := Chosen(xs[..i], dup, over);
            && Within(idx, |xs|)
            && Chosen(xs[..i + 1], dup, over) ==
                 if dup(xs[i]) || Touches(over, Pick(xs, idx), xs[i]) then idx else idx + [i]
  {
    var ys, idx := xs[..i + 1], Chosen(xs[..i], dup, over);
    assert ys[..i] == xs[..i] && ys[i] == xs[i];
    TouchesPick(over, xs, idx, xs[i]);
    assert forall k :: k in idx ==> k < |xs| && ys[k] == xs[k];
  }

  /** A selection is a fixed point: selecting again from what was kept drops nothing. */
  lemma ChosenIdempotent<T(!new)>(xs: seq<T>, dup: T -> bool, over: (T, T) -> bool)
    ensures var kept := Pick(xs, Chosen(xs, dup, over));
            Pick(kept, Chosen(kept, dup, over)) == kept
  {
    var idx := Chosen(xs, dup, over);
    var kept := Pick(xs, idx);
    ChosenIsStable(xs, dup, over);
    var all := Range(|kept|);
    forall j: nat | j < |kept| ensures j in all && idx[j] in Elements(idx) {
      assert all[j] == j;
      assert idx[j] in idx;
    }
    assert Stable(kept, dup, over, Elements(all));
    ChosenIsStable(kept, dup, over);
    StableUnique(kept, dup, over, Elements(all), Elements(Chosen(kept, dup, over)));
    AscendingUnique(all, Chosen(kept, dup, over));
  }
}
