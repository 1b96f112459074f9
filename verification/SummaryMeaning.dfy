/** What a summary says about a history of events, in terms of the places of the events in it. */
module SummaryMeaning {
  import opened Ordering
  import opened Timeline

  // ---- What is in a bucket ---------------------------------------------------------------------------

  /** The event belongs to the i-th n-th of the range. */
  predicate InCell(a: Args, i: int, e: Event) {
    && e.camera == a.camera && a.from <= e.ts < a.to
    && i * (a.to - a.from) <= (e.ts - a.from) * a.buckets < (i + 1) * (a.to - a.from)
  }

  ghost function Places(a: Args, history: seq<Event>, i: int): set<nat> {
    set k: nat | k < |history| && InCell(a, i, history[k])
  }

  ghost function PlacesOf(a: Args, history: seq<Event>, i: int, cls: string): set<nat> {
    set k: nat | k < |history| && InCell(a, i, history[k]) && history[k].cls == cls
  }

  /** The list names up to three classes: those with the most events, most first and ties by name, each with its number
      of events; every other class comes after all of them in that order. */
  ghost predicate TopThree(top: seq<ClassCount>, count: string -> nat) {
    && |top| <= 3
    && (forall k :: 0 <= k < |top| ==> top[k].count == count(top[k].cls) > 0)
    && (forall j, k :: 0 <= j < k < |top| ==>
          top[j].count > top[k].count || (top[j].count == top[k].count && StrLess(top[j].cls, top[k].cls)))
    && (forall cls :: count(cls) > 0 && (forall k :: 0 <= k < |top| ==> top[k].cls != cls) ==>
          |top| == 3 && forall k :: 0 <= k < 3 ==>
            top[k].count > count(cls) || (top[k].count == count(cls) && StrLess(top[k].cls, cls)))
  }

  /** The event's kind; an event without one is an object. */
  predicate IsKind(e: Event, kind: string) { (e.kind == kind && kind != "") || (e.kind == "" && kind == "object") }

  /** The largest confidence at the places, or zero. */
  ghost predicate BestConf(m: real, history: seq<Event>, places: set<nat>)
    requires forall k :: k in places ==> k < |history|
  {
    && m >= 0.0 && (forall k :: k in places ==> history[k].conf <= m)
    && (m == 0.0 || exists k :: k in places && history[k].conf == m)
  }

  ghost predicate AllKinds(kinds: seq<string>, history: seq<Event>, places: set<nat>)
    requires forall k :: k in places ==> k < |history|
  {
    && StrictlySorted(StrLess, kinds)
    && forall kind :: kind in kinds <==> exists k :: k in places && IsKind(history[k], kind)
  }

  ghost function ClassCountAt(a: Args, history: seq<Event>, i: int): string -> nat {
    cls => |PlacesOf(a, history, i, cls)|
  }

  ghost predicate MeansCell(a: Args, history: seq<Event>, b: Bucket) {
    && b.count == |Places(a, history, b.i)| > 0
    && TopThree(b.top, ClassCountAt(a, history, b.i))
    && BestConf(b.maxConf, history, Places(a, history, b.i))
    && AllKinds(b.kinds, history, Places(a, history, b.i))
  }

  /** The buckets are the non-empty ones of the range, in ascending order, and each tells its own. */
  ghost predicate Means(a: Args, history: seq<Event>, out: seq<Bucket>) {
    && (forall j, k :: 0 <= j < k < |out| ==> out[j].i < out[k].i)
    && (forall b :: b in out ==> 0 <= b.i < a.buckets && MeansCell(a, history, b))
    && forall i :: 0 <= i < a.buckets && Places(a, history, i) != {} ==> exists b :: b in out && b.i == i
  }

  // ---- Counting places -------------------------------------------------------------------------------

  function Cell(a: Args, i: int): Event -> bool { (e: Event) => InCell(a, i, e) }

  /** The events a bucket is made of are those at its places. */
  lemma BucketIsCell(a: Args, history: seq<Event>, i: int)
    requires Valid(a)
    ensures InBucket(a, InRange(a, history), i) == Filter(Cell(a, i), history)
  {
    forall e: Event ensures Cell(a, i)(e) <==> e.camera == a.camera && a.from <= e.ts < a.to && IndexOf(a, e) == i {
      if a.from <= e.ts < a.to { BucketSpan(a.from, a.to, a.buckets, e.ts, i); }
    }
    FilterTwice((e: Event) => e.camera == a.camera
      && a.from <= e.ts < a.to, (e: Event) => IndexOf(a, e) == i, Cell(a, i),
      history);
  }

  lemma ClassCounts(a: Args, history: seq<Event>, i: int, cls: string)
    ensures |OfClass(Filter(Cell(a, i), history), cls)| == |PlacesOf(a, history, i, cls)|
  {
    var p := (e: Event) => InCell(a, i, e) && e.cls == cls;
    FilterTwice(Cell(a, i), (e: Event) => e.cls == cls, p, history);
    FilterCounts(p, history);
    assert Where(p, history) == PlacesOf(a, history, i, cls);
  }

  lemma CellCounts(a: Args, history: seq<Event>, i: int)
    ensures |Filter(Cell(a, i), history)| == |Places(a, history, i)|
    ensures forall e :: e in Filter(Cell(a, i), history) <==> exists k :: k in Places(a, history, i) && history[k] == e
  {
    FilterCounts(Cell(a, i), history);
    assert Where(Cell(a, i), history) == Places(a, history, i);
    forall e | e in Filter(Cell(a, i), history) ensures exists k :: k in Places(a, history, i) && history[k] == e {
      var k :| 0 <= k < |history| && history[k] == e;
      assert k in Places(a, history, i);
    }
  }

  // ---- The ranking -----------------------------------------------------------------------------------

  lemma CountsNoDuplicates(es: seq<Event>, names: seq<string>)
    requires NoDuplicates(names)
    ensures NoDuplicates(Counts(es, names))
  {
  }

  lemma RankingListing(es: seq<Event>)
    ensures NoDuplicates(Ranking(es)) && Sorted(ByCount, Ranking(es))
    ensures forall x :: x in Ranking(es) <==> x.cls in Classes(es) && x.count == |OfClass(es, x.cls)|
  {
    var names := SetOf(Classes(es));
    StrLessIsOrder();
    ByCountIsOrder();
    assert NoDuplicates(names);
    CountsNoDuplicates(es, names);
    NoDuplicatesFromMultiset(Counts(es, names), Ranking(es));
    CountsElements(es, names);
  }

  lemma CountsElements(es: seq<Event>, names: seq<string>)
    ensures forall x :: x in Counts(es, names) <==> x.cls in names && x.count == |OfClass(es, x.cls)|
  {
    var r := Counts(es, names);
    forall x ensures x in r <==> x.cls in names && x.count == |OfClass(es, x.cls)| {
      if x in r { var k :| 0 <= k < |r| && r[k] == x; }
      if x.cls in names && x.count == |OfClass(es, x.cls)| {
        var k :| 0 <= k < |names| && names[k] == x.cls;
        assert r[k] == x;
      }
    }
  }


  /** The order the list promises, on the fields. */
  lemma RankingStrict(es: seq<Event>, j: nat, k: nat)
    requires j < k < |Ranking(es)|
    ensures var x, y := Ranking(es)[j], Ranking(es)[k];
            x.count > y.count || (x.count == y.count && StrLess(x.cls, y.cls))
  {
    RankingListing(es);
    ByCountIsOrder();
    assert Ranking(es)[j] != Ranking(es)[k] && !ByCount(Ranking(es)[k], Ranking(es)[j]);
  }

  lemma RankingPlace(es: seq<Event>, cls: string) returns (m: nat)
    requires OfClass(es, cls) != []
    ensures m < |Ranking(es)| && Ranking(es)[m] == ClassCount(cls, |OfClass(es, cls)|)
  {
    RankingListing(es);
    var e := OfClass(es, cls)[0];
    assert e in OfClass(es, cls);
    assert ClassCount(cls, |OfClass(es, cls)|) in Ranking(es);
    m :| 0 <= m < |Ranking(es)| && Ranking(es)[m] == ClassCount(cls, |OfClass(es, cls)|);
  }

  lemma RankingCounts(es: seq<Event>, k: nat)
    requires k < |Ranking(es)|
    ensures Ranking(es)[k].count == |OfClass(es, Ranking(es)[k].cls)| > 0
  {
    RankingListing(es);
    var x := Ranking(es)[k];
    assert x in Ranking(es);
    var e :| e in es && e.cls == x.cls;
    assert e in OfClass(es, x.cls);
  }

  lemma TopOfRanking(es: seq<Event>, count: string -> nat)
    requires forall cls :: count(cls) == |OfClass(es, cls)|
    ensures TopThree(Take3(Ranking(es)), count)
  {
    var r := Ranking(es);
    var top := Take3(r);
    assert |top| <= 3 && forall k :: 0 <= k < |top| ==> top[k] == r[k];
    forall k | 0 <= k < |top| ensures top[k].count == count(top[k].cls) > 0 { RankingCounts(es, k); }
    forall j, k | 0 <= j < k < |top|
      ensures top[j].count > top[k].count || (top[j].count == top[k].count && StrLess(top[j].cls, top[k].cls))
    {
      RankingStrict(es, j, k);
    }
    forall cls | count(cls) > 0 && forall k :: 0 <= k < |top| ==> top[k].cls != cls
      ensures |top| == 3
      ensures forall k :: 0 <= k < 3 ==>
                top[k].count > count(cls) || (top[k].count == count(cls) && StrLess(top[k].cls, cls))
    {
      var m := RankingPlace(es, cls);
      forall k | 0 <= k < 3
        ensures top[k].count > count(cls) || (top[k].count == count(cls) && StrLess(top[k].cls, cls))
      {
        RankingStrict(es, k, m);
      }
    }
  }

  // ---- The buckets -----------------------------------------------------------------------------------

  predicate ByIndex(x: Bucket, y: Bucket) { x.i < y.i }

  /** out lists the non-empty buckets below n, ascending. */
  ghost predicate Buckets(a: Args, evs: seq<Event>, out: seq<Bucket>, n: nat)
    requires Valid(a)
  {
    && StrictlySorted(ByIndex, out)
    && forall b :: b in out <==>
      0 <= b.i < n && InBucket(a, evs, b.i) != [] && b == BucketOf(b.i, InBucket(a, evs, b.i))
  }

  function IndexOfBucket(b: Bucket): int { b.i }

  /** Slots that hold at most one item, marked with the slot's number, concatenate to an ascending list. */
  lemma {:induction false} ConcatListing<T(!new)>(slot: int -> seq<T>, at: T -> int, n: nat)
    requires forall i :: |slot(i)| <= 1 && forall b :: b in slot(i) ==> at(b) == i
    ensures forall b :: b in Concat(slot, n) <==> 0 <= at(b) < n && b in slot(at(b))
    ensures StrictlySorted((x, y) => at(x) < at(y), Concat(slot, n))
  {
    if n > 0 {
      var before, last := Concat(slot, n - 1), slot(n - 1);
      ConcatListing(slot, at, n - 1);
      forall k | 0 <= k < |before| ensures at(before[k]) < n - 1 { assert before[k] in before; }
    }
  }

  lemma ConcatSlots(a: Args, evs: seq<Event>, n: nat)
    requires Valid(a)
    ensures Buckets(a, evs, Concat(Slots(a, evs), n), n)
  {
    ConcatListing(Slots(a, evs), IndexOfBucket, n);
    forall i ensures Slots(a, evs)(i) == Slot(a, evs, i) {}
  }

  // ---- The summary -----------------------------------------------------------------------------------

  lemma KindIs(e: Event, kind: string)
    ensures KindOf(e) == kind <==> IsKind(e, kind)
  {
  }

  lemma KindsMean(a: Args, history: seq<Event>, i: int, es: seq<Event>)
    requires es == Filter(Cell(a, i), history)
    ensures AllKinds(SetOf(KindsOf(es)), history, Places(a, history, i))
  {
    CellCounts(a, history, i);
    forall kind
      ensures kind in SetOf(KindsOf(es)) <==> exists k :: k in Places(a, history, i) && IsKind(history[k], kind)
    {
      forall e: Event { KindIs(e, kind); }
    }
  }

  lemma ConfMeans(a: Args, history: seq<Event>, i: int, es: seq<Event>)
    requires es == Filter(Cell(a, i), history)
    ensures BestConf(MaxConf(es), history, Places(a, history, i))
  {
    CellCounts(a, history, i);
    forall k | k in Places(a, history, i) ensures history[k].conf <= MaxConf(es) { assert history[k] in es; }
  }

  lemma TopMeans(a: Args, history: seq<Event>, i: int, es: seq<Event>)
    requires es == Filter(Cell(a, i), history)
    ensures TopThree(Take3(Ranking(es)), ClassCountAt(a, history, i))
  {
    forall cls ensures ClassCountAt(a, history, i)(cls) == |OfClass(es, cls)| { ClassCounts(a, history, i, cls); }
    TopOfRanking(es, ClassCountAt(a, history, i));
  }

  lemma BucketMeans(a: Args, history: seq<Event>, i: int, es: seq<Event>)
    requires es == Filter(Cell(a, i), history) && es != []
    ensures MeansCell(a, history, BucketOf(i, es))
  {
    CellCounts(a, history, i);
    TopMeans(a, history, i, es);
    ConfMeans(a, history, i, es);
    KindsMean(a, history, i, es);
  }

  /** Main result: what the summary of a history says about every bucket. */
  lemma SummaryMeans(a: Args, history: seq<Event>)
    requires Valid(a)
    ensures Means(a, history, SummaryOf(a, history))
  {
    var out, evs := SummaryOf(a, history), InRange(a, history);
    ConcatSlots(a, evs, a.buckets);
    forall b | b in out ensures 0 <= b.i < a.buckets && MeansCell(a, history, b) {
      BucketIsCell(a, history, b.i);
      BucketMeans(a, history, b.i, InBucket(a, evs, b.i));
    }
    forall i | 0 <= i < a.buckets && Places(a, history, i) != {} ensures exists b :: b in out && b.i == i {
      BucketIsCell(a, history, i);
      CellCounts(a, history, i);
      assert BucketOf(i, InBucket(a, evs, i)) in out;
    }
  }
}
