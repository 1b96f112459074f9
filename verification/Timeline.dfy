/** Detection summaries: what a bucketed summary of a set of events is, as functions of the events. */
module Timeline {
  import opened Ordering
  import opened Arithmetic

  datatype Event = Event(camera: string, ts: int, cls: string, kind: string, conf: real)

  datatype Args = Args(camera: string, from: int, to: int, buckets: int)

  datatype Key = Key(i: int, cls: string, kind: string)

  datatype Cell = Cell(n: int, maxConf: real)

  datatype ClassCount = ClassCount(cls: string, count: int)

  datatype Bucket = Bucket(i: int, count: int, maxConf: real, top: seq<ClassCount>, kinds: seq<string>)

  ghost predicate Valid(a: Args) { a.camera != "" && a.from < a.to && 1 <= a.buckets <= 1000 }

  /** bucketIndex: the fraction of the range, times n, clamped. */
  function BucketIndex(from: int, to: int, n: int, ts: int): (i: int)
    requires from < to && n >= 1
    ensures 0 <= i < n
  {
    var i := ((ts - from) as real / (to - from) as real * n as real).Floor;
    if i < 0 then 0 else if i >= n then n - 1 else i
  }

  lemma FloorDiv(x: int, d: int, n: int)
    requires d > 0 && n >= 1
    ensures (x as real / d as real * n as real).Floor == x * n / d
  {
    var q, v := x * n / d, x as real / d as real * n as real;
    assert v * d as real == (x * n) as real by {
      assert x as real / d as real * d as real == x as real;
      assert v * d as real == x as real / d as real * d as real * n as real;
    }
    assert q * d <= x * n < (q + 1) * d;
    Cancelled(q as real, v, d as real);
    CancelledStrict(v, (q + 1) as real, d as real);
  }

  lemma Cancelled(a: real, b: real, d: real)
    requires d > 0.0 && a * d <= b * d
    ensures a <= b
  {
  }

  lemma CancelledStrict(a: real, b: real, d: real)
    requires d > 0.0 && a * d < b * d
    ensures a < b
  {
  }

  lemma IndexIsQuotient(from: int, to: int, n: int, ts: int)
    requires from <= ts < to && n >= 1
    ensures BucketIndex(from, to, n, ts) == (ts - from) * n / (to - from)
  {
    var d, x := to - from, ts - from;
    FloorDiv(x, d, n);
    Fraction(x, d, n);
  }

  lemma Fraction(x: nat, d: nat, n: nat)
    requires x < d && n >= 1
    ensures 0 <= x * n / d < n
  {
    assert x * n < d * n;
    DivInRange(x * n, n, d);
  }

  /** Inside the range bucket i is exactly the i-th n-th of it. */
  lemma BucketSpan(from: int, to: int, n: int, ts: int, i: int)
    requires from <= ts < to && n >= 1
    ensures BucketIndex(from, to, n, ts) == i <==> i * (to - from) <= (ts - from) * n < (i + 1) * (to - from)
  {
    IndexIsQuotient(from, to, n, ts);
    QuotientUnique((ts - from) * n, to - from, i);
  }

  /** Bucket indices follow time. */
  lemma BucketMonotone(from: int, to: int, n: int, s: int, t: int)
    requires from <= s <= t < to && n >= 1
    ensures BucketIndex(from, to, n, s) <= BucketIndex(from, to, n, t)
  {
    var i, j, d := BucketIndex(from, to, n, s), BucketIndex(from, to, n, t), to - from;
    BucketSpan(from, to, n, s, i);
    BucketSpan(from, to, n, t, j);
    MulMonotone(s - from, t - from, n);
    LessByProduct(i, j + 1, d);
  }

  // ---- The meaning of a summary --------------------------------------------------------------------

  function KindOf(e: Event): string { if e.kind == "" then "object" else e.kind }

  function IndexOf(a: Args, e: Event): int
    requires Valid(a)
  {
    BucketIndex(a.from, a.to, a.buckets, e.ts)
  }

  function KeyOf(a: Args, e: Event): Key
    requires Valid(a)
  {
    Key(IndexOf(a, e), e.cls, KindOf(e))
  }

  /** The events a summary is about. */
  function InRange(a: Args, evs: seq<Event>): seq<Event> {
    Filter((e: Event) => e.camera == a.camera && a.from <= e.ts < a.to, evs)
  }

  function InBucket(a: Args, evs: seq<Event>, i: int): seq<Event>
    requires Valid(a)
  {
    Filter((e: Event) => IndexOf(a, e) == i, evs)
  }

  function OfClass(evs: seq<Event>, cls: string): seq<Event> { Filter((e: Event) => e.cls == cls, evs) }

  /** The largest confidence, starting from zero. */
  function MaxConf(evs: seq<Event>): (m: real)
    ensures m >= 0.0
    ensures forall e :: e in evs ==> e.conf <= m
    ensures m == 0.0 || exists e :: e in evs && e.conf == m
  {
    if evs == [] then 0.0
    else
      var m := MaxConf(evs[1..]);
      assert evs == [evs[0]] + evs[1..];
      if evs[0].conf > m then evs[0].conf else m
  }

  function Classes(evs: seq<Event>): (r: seq<string>)
    ensures forall c :: c in r <==> exists e :: e in evs && e.cls == c
  {
    if evs == [] then []
    else
      assert evs == [evs[0]] + evs[1..];
      [evs[0].cls] + Classes(evs[1..])
  }

  function KindsOf(evs: seq<Event>): (r: seq<string>)
    ensures forall k :: k in r <==> exists e :: e in evs && KindOf(e) == k
  {
    if evs == [] then []
    else
      assert evs == [evs[0]] + evs[1..];
      [KindOf(evs[0])] + KindsOf(evs[1..])
  }

  /** Larger counts first, ties by name. */
  predicate ByCount(x: ClassCount, y: ClassCount) {
    x.count > y.count || (x.count == y.count && StrLess(x.cls, y.cls))
  }

  lemma ByCountIsOrder()
    ensures StrictWeak(ByCount) && Total(ByCount) && Asymmetric(ByCount)
  {
    StrLessIsOrder();
    forall a: ClassCount, b: ClassCount, c: ClassCount | ByCount(a, c) ensures ByCount(a, b) || ByCount(b, c) {
      StrLessTrichotomy(a.cls, b.cls);
      if StrLess(b.cls, a.cls) && StrLess(a.cls, c.cls) { StrLessTransitive(b.cls, a.cls, c.cls); }
    }
  }

  function Counts(evs: seq<Event>, names: seq<string>): (r: seq<ClassCount>)
    ensures |r| == |names| && forall k :: 0 <= k < |r| ==> r[k] == ClassCount(names[k], |OfClass(evs, names[k])|)
  {
    seq(|names|, k requires 0 <= k < |names| => ClassCount(names[k], |OfClass(evs, names[k])|))
  }

  function Ranking(evs: seq<Event>): seq<ClassCount> {
    ByCountIsOrder();
    SortBy(ByCount, Counts(evs, SetOf(Classes(evs))))
  }

  function Take3<T>(s: seq<T>): seq<T> { if |s| > 3 then s[..3] else s }

  /** The bucket made of events es: total, best confidence, three commonest classes, all kinds. */
  function BucketOf(i: int, es: seq<Event>): Bucket {
    Bucket(i, |es|, MaxConf(es), Take3(Ranking(es)), SetOf(KindsOf(es)))
  }

  /** slot(0) + slot(1) + ... below n. */
  function Concat<T>(slot: int -> seq<T>, n: nat): seq<T> {
    if n == 0 then [] else Concat(slot, n - 1) + slot(n - 1)
  }

  lemma {:induction false} ConcatSame<T>(f: int -> seq<T>, g: int -> seq<T>, n: nat)
    requires forall i :: 0 <= i < n ==> f(i) == g(i)
    ensures Concat(f, n) == Concat(g, n)
  {
    if n > 0 { ConcatSame(f, g, n - 1); }
  }

  /** Bucket i, unless it is empty. */
  function Slot(a: Args, evs: seq<Event>, i: int): seq<Bucket>
    requires Valid(a)
  {
    var es := InBucket(a, evs, i);
    if es == [] then [] else [BucketOf(i, es)]
  }

  function Slots(a: Args, evs: seq<Event>): int -> seq<Bucket>
    requires Valid(a)
  {
    i => Slot(a, evs, i)
  }

  /** The summary of a history of events: its non-empty buckets, ascending. */
  function SummaryOf(a: Args, evs: seq<Event>): seq<Bucket>
    requires Valid(a)
  {
    Concat(Slots(a, InRange(a, evs)), a.buckets)
  }

  // ---- It depends on nothing but which events there are ------------------------------------------------

  lemma SameElements(x: seq<Event>, y: seq<Event>)
    requires multiset(x) == multiset(y)
    ensures |x| == |y| && forall e :: e in x <==> e in y
  {
    assert |x| == |multiset(x)| == |multiset(y)| == |y|;
    forall e ensures e in x <==> e in y { assert e in x <==> e in multiset(x); }
  }

  lemma MaxPermuted(x: seq<Event>, y: seq<Event>)
    requires multiset(x) == multiset(y)
    ensures MaxConf(x) == MaxConf(y)
  {
    SameElements(x, y);
  }

  lemma NamesPermuted(x: seq<Event>, y: seq<Event>)
    requires multiset(x) == multiset(y)
    ensures SetOf(Classes(x)) == SetOf(Classes(y)) && SetOf(KindsOf(x)) == SetOf(KindsOf(y))
  {
    SameElements(x, y);
    StrLessIsOrder();
    SortedUnique(StrLess, SetOf(Classes(x)), SetOf(Classes(y)));
    SortedUnique(StrLess, SetOf(KindsOf(x)), SetOf(KindsOf(y)));
  }

  lemma BucketPermuted(i: int, x: seq<Event>, y: seq<Event>)
    requires multiset(x) == multiset(y)
    ensures BucketOf(i, x) == BucketOf(i, y)
  {
    SameElements(x, y);
    MaxPermuted(x, y);
    NamesPermuted(x, y);
    var names := SetOf(Classes(x));
    forall k | 0 <= k < |names| ensures |OfClass(x, names[k])| == |OfClass(y, names[k])| {
      FilterPermuted((e: Event) => e.cls == names[k], x, y);
      SameElements(OfClass(x, names[k]), OfClass(y, names[k]));
    }
    assert Counts(x, names) == Counts(y, names);
  }

  lemma SlotPermuted(a: Args, x: seq<Event>, y: seq<Event>, i: int)
    requires Valid(a) && multiset(x) == multiset(y)
    ensures Slot(a, x, i) == Slot(a, y, i)
  {
    var u, v := InBucket(a, x, i), InBucket(a, y, i);
    InBucketPermuted(a, x, y, i);
    SameElements(u, v);
    BucketPermuted(i, u, v);
  }

  lemma InBucketPermuted(a: Args, x: seq<Event>, y: seq<Event>, i: int)
    requires Valid(a) && multiset(x) == multiset(y)
    ensures multiset(InBucket(a, x, i)) == multiset(InBucket(a, y, i))
  {
    FilterPermuted((e: Event) => IndexOf(a, e) == i, x, y);
  }

  /** A summary depends on nothing but which events there are. */
  lemma SummaryPermuted(a: Args, u: seq<Event>, v: seq<Event>)
    requires Valid(a) && multiset(u) == multiset(v)
    ensures Concat(Slots(a, u), a.buckets) == Concat(Slots(a, v), a.buckets)
  {
    forall i ensures Slots(a, u)(i) == Slots(a, v)(i) { SlotPermuted(a, u, v, i); }
    ConcatSame(Slots(a, u), Slots(a, v), a.buckets);
  }
}
