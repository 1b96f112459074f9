/** Orders, sorting and the facts about sorted sequences that the components share.
    Library sorts (std::sort, sort.Slice) are unstable, so `Sort` promises only a sorted
    permutation; results that must not depend on ties are proved from uniqueness. */
module Ordering {

  /** std::string operator< and Go string <: bytewise lexicographic. */
  predicate StrLess(a: string, b: string) {
    if b == "" then false
    else if a == "" then true
    else a[0] < b[0] || (a[0] == b[0] && StrLess(a[1..], b[1..]))
  }

  /** a and b differ first at place k, or a ends there and b goes on. */
  predicate DifferAt(a: string, b: string, k: nat) {
    k <= |a| && k < |b| && a[..k] == b[..k] && (k == |a| || a[k] < b[k])
  }

  /** That is: up to the first difference they agree, and there a has the smaller byte or has ended. */
  lemma {:induction false} StrLessExactly(a: string, b: string)
    ensures StrLess(a, b) <==> exists k: nat :: DifferAt(a, b, k)
  {
    if a != "" && b != "" {
      var s, t := a[1..], b[1..];
      StrLessExactly(s, t);
      if a[0] < b[0] { assert DifferAt(a, b, 0); }
      if a[0] == b[0] {
        if k: nat :| DifferAt(s, t, k) { assert a[..k + 1] == [a[0]] + s[..k]
          && b[..k + 1] == [b[0]] + t[..k]; assert DifferAt(a, b, k + 1); }
        if k: nat :| DifferAt(a, b, k) {
          assert k > 0 ==> s[..k - 1] == a[..k][1..] && t[..k - 1] == b[..k][1..];
          assert k > 0 ==> DifferAt(s, t, k - 1);
        }
      } else if k: nat :| DifferAt(a, b, k) {
        assert k > 0 ==> a[..k][0] == b[..k][0];
      }
    } else if a == "" && b != "" {
      assert DifferAt(a, b, 0);
    }
  }

  lemma {:induction false} StrLessTrichotomy(a: string, b: string)
    ensures StrLess(a, b) || StrLess(b, a) || a == b
    ensures !(StrLess(a, b) && StrLess(b, a))
  {
    if a != "" && b != "" {
      StrLessTrichotomy(a[1..], b[1..]);
      assert a == [a[0]] + a[1..] && b == [b[0]] + b[1..];
    }
  }

  lemma {:induction false} StrLessTransitive(a: string, b: string, c: string)
    requires StrLess(a, b) && StrLess(b, c)
    ensures StrLess(a, c)
  {
    if a != "" && a[0] == b[0] && b[0] == c[0] {
      StrLessTransitive(a[1..], b[1..], c[1..]);
    }
  }

  lemma StrLessIsOrder()
    ensures Asymmetric(StrLess) && Transitive(StrLess) && Total(StrLess)
  {
    forall a, b { StrLessTrichotomy(a, b); }
    forall a, b, c | StrLess(a, b) && StrLess(b, c) { StrLessTransitive(a, b, c); }
  }

  ghost predicate Asymmetric<T(!new)>(less: (T, T) -> bool) {
    forall a, b :: less(a, b) ==> !less(b, a)
  }

  ghost predicate Transitive<T(!new)>(less: (T, T) -> bool) {
    forall a, b, c :: less(a, b) && less(b, c) ==> less(a, c)
  }

  ghost predicate Total<T(!new)>(less: (T, T) -> bool) {
    forall a, b :: a == b || less(a, b) || less(b, a)
  }

  /** C++'s Compare requirements: a strict weak order (incomparability is transitive). */
  ghost predicate StrictWeak<T(!new)>(less: (T, T) -> bool) {
    && Asymmetric(less)
    && forall a, b, c :: less(a, c) ==> less(a, b) || less(b, c)
  }

  ghost predicate Sorted<T>(less: (T, T) -> bool, s: seq<T>) {
    forall i, j :: 0 <= i < j < |s| ==> !less(s[j], s[i])
  }

  ghost predicate StrictlySorted<T>(less: (T, T) -> bool, s: seq<T>) {
    forall i, j :: 0 <= i < j < |s| ==> less(s[i], s[j])
  }

  lemma EmptyTogether<T>(a: seq<T>, b: seq<T>)
    requires forall x :: x in a <==> x in b
    ensures a == [] <==> b == []
  {
    if a != [] { assert a[0] in b; }
    if b != [] { assert b[0] in a; }
  }

  /** Two strictly sorted sequences with the same elements are the same sequence. */
  lemma {:induction false} SortedUnique<T>(less: (T, T) -> bool, a: seq<T>, b: seq<T>)
    requires StrictlySorted(less, a) && StrictlySorted(less, b)
    requires forall x, y :: x in a && y in a && less(x, y) ==> !less(y, x)
    requires forall x :: x in a <==> x in b
    ensures a == b
  {
    EmptyTogether(a, b);
    if a != [] {
      assert a[0] in b && b[0] in a;
      assert a[0] == b[0];
      forall x ensures x in a[1..] <==> x in b[1..] {
        if x in a[1..] { assert x in a; var i :| 1 <= i < |a| && a[i] == x; assert less(a[0], x); assert x in b; }
        if x in b[1..] { assert x in b; var i :| 1 <= i < |b| && b[i] == x; assert less(b[0], x); assert x in a; }
      }
      assert forall x :: x in a[1..] ==> x in a;
      SortedUnique(less, a[1..], b[1..]);
    }
  }

  function Insert<T(!new)>(less: (T, T) -> bool, x: T, s: seq<T>): (r: seq<T>)
    requires StrictWeak(less) && Sorted(less, s)
    ensures Sorted(less, r) && multiset(r) == multiset(s) + multiset{x}
    ensures |r| == |s| + 1
    ensures forall y :: y in r <==> y == x || y in s
  {
    if s == [] then [x]
    else if less(s[0], x) then
      var t := Insert(less, x, s[1..]);
      assert s == [s[0]] + s[1..];
      assert forall y :: y in t ==> !less(y, s[0]);
      [s[0]] + t
    else
      assert forall y :: y in s ==> !less(y, x);
      [x] + s
  }

  function SortBy<T(!new)>(less: (T, T) -> bool, s: seq<T>): (r: seq<T>)
    requires StrictWeak(less)
    ensures Sorted(less, r) && multiset(r) == multiset(s)
    ensures |r| == |s|
    ensures forall x :: x in r <==> x in s
  {
    if s == [] then []
    else
      assert s == [s[0]] + s[1..];
      Insert(less, s[0], SortBy(less, s[1..]))
  }

  /** An unstable library sort: callers may rely on nothing but the sorted permutation. */
  method Sort<T(!new)>(less: (T, T) -> bool, s: seq<T>) returns (r: seq<T>)
    requires StrictWeak(less)
    ensures Sorted(less, r) && multiset(r) == multiset(s)
    ensures |r| == |s| && forall x :: x in r <==> x in s
  {
    r := SortBy(less, s);
  }

  ghost predicate NoDuplicates<T>(s: seq<T>) {
    forall i, j :: 0 <= i < j < |s| ==> s[i] != s[j]
  }

  lemma NoDuplicatesFromMultiset<T>(s: seq<T>, t: seq<T>)
    requires NoDuplicates(s) && multiset(s) == multiset(t)
    ensures NoDuplicates(t)
  {
    forall i, j | 0 <= i < j < |t| ensures t[i] != t[j] {
      if t[i] == t[j] {
        MultisetTwo(t, i, j);
        MultisetOnce(s, t[i]);
      }
    }
  }

  lemma MultisetTwo<T>(t: seq<T>, i: nat, j: nat)
    requires i < j < |t| && t[i] == t[j]
    ensures multiset(t)[t[i]] >= 2
  {
    assert t == t[..i] + [t[i]] + t[i + 1..j] + [t[j]] + t[j + 1..];
  }

  lemma {:induction false} MultisetOnce<T>(s: seq<T>, x: T)
    requires NoDuplicates(s)
    ensures multiset(s)[x] <= 1
  {
    if s != [] {
      assert s == [s[0]] + s[1..];
      MultisetOnce(s[1..], x);
      if s[0] == x { assert x !in s[1..]; assert multiset(s[1..])[x] == 0; }
    }
  }

  function Filter<T(!new)>(p: T -> bool, s: seq<T>): (r: seq<T>)
    ensures forall x :: x in r <==> x in s && p(x)
    ensures |r| <= |s|
  {
    if s == [] then []
    else
      assert s == [s[0]] + s[1..];
      (if p(s[0]) then [s[0]] else []) + Filter(p, s[1..])
  }

  lemma {:induction false} FilterAppend<T(!new)>(p: T -> bool, a: seq<T>, b: seq<T>)
    ensures Filter(p, a + b) == Filter(p, a) + Filter(p, b)
  {
    if a == [] {
      assert a + b == b;
    } else {
      assert (a + b)[1..] == a[1..] + b;
      FilterAppend(p, a[1..], b);
    }
  }

  lemma {:induction false} FilterNoDuplicates<T(!new)>(p: T -> bool, s: seq<T>)
    requires NoDuplicates(s)
    ensures NoDuplicates(Filter(p, s))
  {
    if s != [] {
      FilterNoDuplicates(p, s[1..]);
      assert s[0] !in s[1..];
      assert s[0] !in Filter(p, s[1..]);
    }
  }

  /** Inserting into an ordered set of strings, as its in-order listing. */
  function SetInsert(s: seq<string>, d: string): (r: seq<string>)
    requires StrictlySorted(StrLess, s)
    ensures StrictlySorted(StrLess, r)
    ensures forall x :: x in r <==> x == d || x in s
  {
    if s == [] then [d]
    else if d == s[0] then s
    else
      StrLessIsOrder();
      if StrLess(d, s[0]) then
        assert forall x :: x in s ==> x == s[0] || StrLess(s[0], x);
        [d] + s
      else
        StrLessTrichotomy(d, s[0]);
        var t := SetInsert(s[1..], d);
        assert forall x :: x in t ==> x == d || x in s[1..];
        assert forall x :: x in t ==> StrLess(s[0], x);
        assert s == [s[0]] + s[1..];
        [s[0]] + t
  }

  function SetOf(ds: seq<string>): (r: seq<string>)
    ensures StrictlySorted(StrLess, r)
    ensures forall x :: x in r <==> x in ds
  {
    if ds == [] then []
    else
      assert ds == ds[..|ds| - 1] + [ds[|ds| - 1]];
      SetInsert(SetOf(ds[..|ds| - 1]), ds[|ds| - 1])
  }

  /** When ties mean equality, sorted permutations of one another are the same sequence. */
  lemma {:induction false} SortedPermutationUnique<T(!new)>(less: (T, T) -> bool, a: seq<T>, b: seq<T>)
    requires Asymmetric(less) && Total(less)
    requires Sorted(less, a) && Sorted(less, b) && multiset(a) == multiset(b)
    ensures a == b
  {
    assert |a| == |multiset(a)| == |multiset(b)| == |b|;
    if a != [] {
      assert a[0] in multiset(b) && b[0] in multiset(a);
      HeadIsLeast(less, a, b[0]);
      HeadIsLeast(less, b, a[0]);
      TailMultiset(a);
      TailMultiset(b);
      assert Sorted(less, a[1..]) && Sorted(less, b[1..]);
      SortedPermutationUnique(less, a[1..], b[1..]);
      assert a == [a[0]] + a[1..] && b == [b[0]] + b[1..];
    }
  }

  lemma HeadIsLeast<T(!new)>(less: (T, T) -> bool, s: seq<T>, x: T)
    requires Asymmetric(less) && Sorted(less, s) && x in s
    ensures !less(x, s[0])
  {
    var i :| 0 <= i < |s| && s[i] == x;
  }

  lemma TailMultiset<T>(s: seq<T>)
    requires s != []
    ensures multiset(s[1..]) == multiset(s) - multiset{s[0]}
  {
    assert s == [s[0]] + s[1..];
  }

  /** Filtering commutes with permuting. */
  lemma {:induction false} FilterMultiset<T(!new)>(p: T -> bool, s: seq<T>, x: T)
    ensures multiset(Filter(p, s))[x] == if p(x) then multiset(s)[x] else 0
  {
    if s != [] {
      FilterMultiset(p, s[1..], x);
      assert s == [s[0]] + s[1..];
    }
  }

  lemma FilterPermuted<T(!new)>(p: T -> bool, a: seq<T>, b: seq<T>)
    requires multiset(a) == multiset(b)
    ensures multiset(Filter(p, a)) == multiset(Filter(p, b))
  {
    forall x ensures multiset(Filter(p, a))[x] == multiset(Filter(p, b))[x] {
      FilterMultiset(p, a, x);
      FilterMultiset(p, b, x);
    }
  }

  /** Filtering by a disjunction of disjoint conditions collects both parts. */
  lemma FilterDisjoint<T(!new)>(p: T -> bool, q: T -> bool, r: T -> bool, s: seq<T>)
    requires forall x :: x in s ==> (r(x) <==> p(x) || q(x)) && !(p(x) && q(x))
    ensures multiset(Filter(r, s)) == multiset(Filter(p, s)) + multiset(Filter(q, s))
  {
    forall x ensures multiset(Filter(r, s))[x] == multiset(Filter(p, s))[x] + multiset(Filter(q, s))[x] {
      FilterMultiset(p, s, x);
      FilterMultiset(q, s, x);
      FilterMultiset(r, s, x);
      if x !in s { assert multiset(s)[x] == 0; }
    }
  }

  lemma {:induction false} FilterCongruent<T(!new)>(p: T -> bool, q: T -> bool, s: seq<T>)
    requires forall x :: x in s ==> (p(x) <==> q(x))
    ensures Filter(p, s) == Filter(q, s)
  {
    if s != [] {
      assert s[0] in s;
      assert forall x :: x in s[1..] ==> x in s;
      FilterCongruent(p, q, s[1..]);
    }
  }

  // ---- Counting by place -----------------------------------------------------------------------------

  ghost function Where<T>(p: T -> bool, s: seq<T>): set<nat> { set k: nat | k < |s| && p(s[k]) }

  lemma {:induction false} FilterCounts<T(!new)>(p: T -> bool, s: seq<T>)
    ensures |Filter(p, s)| == |Where(p, s)|
  {
    if s != [] {
      var n := |s| - 1;
      FilterCounts(p, s[..n]);
      FilterLast(p, s);
      WhereLast(p, s);
    }
  }

  lemma FilterLast<T(!new)>(p: T -> bool, s: seq<T>)
    requires s != []
    ensures Filter(p, s) == Filter(p, s[..|s| - 1]) + (if p(s[|s| - 1]) then [s[|s| - 1]] else [])
  {
    var n := |s| - 1;
    assert s == s[..n] + [s[n]];
    FilterAppend(p, s[..n], [s[n]]);
    FilterOne(p, s[n]);
  }

  lemma WhereLast<T>(p: T -> bool, s: seq<T>)
    requires s != []
    ensures |Where(p, s)| == |Where(p, s[..|s| - 1])| + (if p(s[|s| - 1]) then 1 else 0)
  {
    var n := |s| - 1;
    assert Where(p, s) == Where(p, s[..n]) + (if p(s[n]) then {n} else {});
  }

  lemma FilterOne<T(!new)>(p: T -> bool, x: T)
    ensures Filter(p, [x]) == if p(x) then [x] else []
  {
    assert [x][1..] == [];
  }

  lemma {:induction false} FilterTwice<T(!new)>(p: T -> bool, q: T -> bool, r: T -> bool, s: seq<T>)
    requires forall x :: r(x) <==> p(x) && q(x)
    ensures Filter(q, Filter(p, s)) == Filter(r, s)
  {
    if s != [] {
      var head := if p(s[0]) then [s[0]] else [];
      FilterTwice(p, q, r, s[1..]);
      FilterAppend(q, head, Filter(p, s[1..]));
      FilterOne(q, s[0]);
    }
  }
}
