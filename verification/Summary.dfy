/** The summary endpoint: cold sidecar lines and hot table rows feed one aggregation, which is reduced to
    the buckets of Timeline. The two-level map of the source is one map here, keyed by bucket, class and
    kind together. */
module Summary {
  import opened Options
  import opened Ordering
  import opened Timeline
  import opened SummaryMeaning

  datatype Row = Row(key: Key, n: int, maxConf: real)

  function OfKey(a: Args, evs: seq<Event>, k: Key): seq<Event>
    requires Valid(a)
  {
    Filter((e: Event) => KeyOf(a, e) == k, evs)
  }

  ghost predicate Best(es: seq<Event>, m: real) {
    (forall e :: e in es ==> e.conf <= m) && exists e :: e in es && e.conf == m
  }

  ghost predicate CellOf(es: seq<Event>, c: Cell) { es != [] && c.n == |es| && Best(es, c.maxConf) }

  /** The aggregation map says exactly how many events of each key there were, and the best of them. */
  ghost predicate Aggregates(a: Args, cells: map<Key, Cell>, evs: seq<Event>)
    requires Valid(a)
  {
    && (forall k :: k in cells ==> CellOf(OfKey(a, evs, k), cells[k]))
    && (forall e :: e in evs ==> KeyOf(a, e) in cells)
  }

  function Added(cells: map<Key, Cell>, k: Key, n: int, maxConf: real): map<Key, Cell> {
    if k !in cells then cells[k := Cell(n, maxConf)]
    else
      var c := cells[k];
      cells[k := Cell(c.n + n, if maxConf > c.maxConf then maxConf else c.maxConf)]
  }

  lemma CellPermuted(x: seq<Event>, y: seq<Event>, c: Cell)
    requires multiset(x) == multiset(y) && CellOf(x, c)
    ensures CellOf(y, c)
  {
    SameElements(x, y);
  }

  lemma AggregatesPermuted(a: Args, cells: map<Key, Cell>, x: seq<Event>, y: seq<Event>)
    requires Valid(a) && multiset(x) == multiset(y) && Aggregates(a, cells, x)
    ensures Aggregates(a, cells, y)
  {
    SameElements(x, y);
    forall k | k in cells ensures CellOf(OfKey(a, y, k), cells[k]) {
      FilterPermuted((e: Event) => KeyOf(a, e) == k, x, y);
      CellPermuted(OfKey(a, x, k), OfKey(a, y, k), cells[k]);
    }
  }

  lemma CellJoin(x: seq<Event>, y: seq<Event>, c: Cell, d: Cell)
    requires CellOf(x, c) && CellOf(y, d)
    ensures CellOf(x + y, Cell(c.n + d.n, if d.maxConf > c.maxConf then d.maxConf else c.maxConf))
  {
    var e :| e in x && e.conf == c.maxConf;
    var f :| f in y && f.conf == d.maxConf;
    assert e in x + y && f in x + y;
  }

  /** Adding a group of events of one key. */
  lemma AddAggregates(a: Args, cells: map<Key, Cell>, evs: seq<Event>, more: seq<Event>, k: Key, n: int, m: real)
    requires Valid(a) && Aggregates(a, cells, evs)
    requires CellOf(more, Cell(n, m)) && forall e :: e in more ==> KeyOf(a, e) == k
    ensures Aggregates(a, Added(cells, k, n, m), evs + more)
  {
    var cells' := Added(cells, k, n, m);
    forall j | j in cells' ensures CellOf(OfKey(a, evs + more, j), cells'[j]) {
      if j == k {
        AddedCell(a, cells, evs, more, k, n, m);
      } else {
        OtherCell(a, evs, more, j);
      }
    }
  }

  lemma AddedCell(a: Args, cells: map<Key, Cell>, evs: seq<Event>, more: seq<Event>, k: Key, n: int, m: real)
    requires Valid(a) && Aggregates(a, cells, evs)
    requires CellOf(more, Cell(n, m)) && forall e :: e in more ==> KeyOf(a, e) == k
    ensures CellOf(OfKey(a, evs + more, k), Added(cells, k, n, m)[k])
  {
    OfKeyConcat(a, evs, more, k);
    OfKeyAll(a, more, k);
    if k in cells {
      CellJoin(OfKey(a, evs, k), more, cells[k], Cell(n, m));
    } else {
      OfKeyNone(a, evs, k);
      assert [] + more == more;
    }
  }

  lemma OtherCell(a: Args, evs: seq<Event>, more: seq<Event>, j: Key)
    requires Valid(a) && forall e :: e in more ==> KeyOf(a, e) != j
    ensures OfKey(a, evs + more, j) == OfKey(a, evs, j)
  {
    OfKeyConcat(a, evs, more, j);
    OfKeyNone(a, more, j);
    assert OfKey(a, evs, j) + [] == OfKey(a, evs, j);
  }

  lemma OfKeyConcat(a: Args, x: seq<Event>, y: seq<Event>, k: Key)
    requires Valid(a)
    ensures OfKey(a, x + y, k) == OfKey(a, x, k) + OfKey(a, y, k)
  {
    FilterAppend((e: Event) => KeyOf(a, e) == k, x, y);
  }

  lemma {:induction false} OfKeyAll(a: Args, es: seq<Event>, k: Key)
    requires Valid(a) && forall e :: e in es ==> KeyOf(a, e) == k
    ensures OfKey(a, es, k) == es
  {
    if es != [] {
      assert es[0] in es && es == [es[0]] + es[1..];
      assert forall e :: e in es[1..] ==> e in es;
      OfKeyAll(a, es[1..], k);
    }
  }

  lemma {:induction false} OfKeyNone(a: Args, es: seq<Event>, k: Key)
    requires Valid(a) && forall e :: e in es ==> KeyOf(a, e) != k
    ensures OfKey(a, es, k) == []
  {
    if es != [] {
      assert es[0] in es;
      assert forall e :: e in es[1..] ==> e in es;
      OfKeyNone(a, es[1..], k);
    }
  }

  // ---- Feeding the aggregation ---------------------------------------------------------------------

  function Cold(a: Args, coldTo: int, lines: seq<Event>): seq<Event> {
    Filter((e: Event) => e.camera == a.camera && !(e.ts < a.from || !(e.ts < coldTo)), lines)
  }

  function Hot(a: Args, pgFrom: int, table: seq<Event>): seq<Event> {
    Filter((e: Event) => e.camera == a.camera && pgFrom <= e.ts < a.to, table)
  }

  /** What GROUP BY returns, in any order: one row per key that occurs. */
  ghost predicate Grouping(a: Args, rows: seq<Row>, evs: seq<Event>)
    requires Valid(a)
  {
    && (forall i :: 0 <= i < |rows| ==> CellOf(OfKey(a, evs, rows[i].key), Cell(rows[i].n, rows[i].maxConf)))
    && (forall i, j :: 0 <= i < j < |rows| ==> rows[i].key != rows[j].key)
    && (forall e :: e in evs ==> exists i :: 0 <= i < |rows| && rows[i].key == KeyOf(a, e))
  }

  class SummaryAgg {
    var cells: map<Key, Cell>

    constructor ()
      ensures cells == map[]
    {
      cells := map[];
    }

    method Add(k: Key, n: int, maxConf: real)
      modifies this
      ensures cells == Added(old(cells), k, n, maxConf)
    {
      if k !in cells {
        cells := cells[k := Cell(n, maxConf)];
        return;
      }
      var c := cells[k];
      c := c.(n := c.n + n);
      if maxConf > c.maxConf { c := c.(maxConf := maxConf); }
      cells := cells[k := c];
    }

    /** Scan sidecar lines: one event each, out-of-range and other cameras' lines skipped. */
    method AggregateSidecars(a: Args, coldTo: int, lines: seq<Event>, ghost evs: seq<Event>)
      requires Valid(a) && Aggregates(a, cells, evs)
      modifies this
      ensures Aggregates(a, cells, evs + Cold(a, coldTo, lines))
    {
      assert evs + [] == evs;
      for i := 0 to |lines|
        invariant Aggregates(a, cells, evs + Cold(a, coldTo, lines[..i]))
      {
        var ev := lines[i];
        ColdStep(a, coldTo, lines, i, evs);
        if ev.camera != a.camera { continue; }
        if ev.ts < a.from || !(ev.ts < coldTo) { continue; }
        var kind := if ev.kind == "" then "object" else ev.kind;
        var k := Key(BucketIndex(a.from, a.to, a.buckets, ev.ts), ev.cls, kind);
        assert ev in [ev];
        AddAggregates(a, cells, evs + Cold(a, coldTo, lines[..i]), [ev], k, 1, ev.conf);
        Add(k, 1, ev.conf);
      }
      assert lines[..|lines|] == lines;
    }

    /** Add the grouped rows of the hot table. */
    method AggregateRows(a: Args, rows: seq<Row>, ghost hot: seq<Event>, ghost evs: seq<Event>)
      requires Valid(a) && Aggregates(a, cells, evs) && Grouping(a, rows, hot)
      modifies this
      ensures Aggregates(a, cells, evs + hot)
    {
      RowsStart(a, cells, rows, hot, evs);
      for i := 0 to |rows|
        invariant RowsAdded(a, cells, rows, hot, evs, i)
      {
        RowsStep(a, cells, rows, hot, evs, i);
        Add(rows[i].key, rows[i].n, rows[i].maxConf);
      }
      AllKeys(a, rows, hot);
    }
  }

  /** The map covers evs and the events of the first i rows. */
  ghost predicate RowsAdded(a: Args, cells: map<Key, Cell>, rows: seq<Row>, hot: seq<Event>, evs: seq<Event>, i: nat)
    requires Valid(a) && i <= |rows|
  {
    Aggregates(a, cells, evs + Part(a, hot, KeysOf(rows, i)))
  }

  lemma RowsStart(a: Args, cells: map<Key, Cell>, rows: seq<Row>, hot: seq<Event>, evs: seq<Event>)
    requires Valid(a) && Aggregates(a, cells, evs)
    ensures RowsAdded(a, cells, rows, hot, evs, 0)
  {
    PartNone(a, hot);
    assert KeysOf(rows, 0) == {};
    assert evs + [] == evs;
  }

  lemma RowsStep(a: Args, cells: map<Key, Cell>, rows: seq<Row>, hot: seq<Event>, evs: seq<Event>, i: nat)
    requires Valid(a) && Grouping(a, rows, hot) && i < |rows| && RowsAdded(a, cells, rows, hot, evs, i)
    ensures RowsAdded(a, Added(cells, rows[i].key, rows[i].n, rows[i].maxConf), rows, hot, evs, i + 1)
  {
    NextKey(a, rows, hot, i);
    RowStep(a, cells, evs, hot, KeysOf(rows, i), rows[i]);
  }

  ghost function KeysOf(rows: seq<Row>, i: nat): set<Key>
    requires i <= |rows|
  {
    set j | 0 <= j < i :: rows[j].key
  }

  lemma NextKey(a: Args, rows: seq<Row>, hot: seq<Event>, i: nat)
    requires Valid(a) && Grouping(a, rows, hot) && i < |rows|
    ensures rows[i].key !in KeysOf(rows, i) && KeysOf(rows, i + 1) == KeysOf(rows, i) + {rows[i].key}
    ensures CellOf(OfKey(a, hot, rows[i].key), Cell(rows[i].n, rows[i].maxConf))
  {
  }

  lemma AllKeys(a: Args, rows: seq<Row>, hot: seq<Event>)
    requires Valid(a) && Grouping(a, rows, hot)
    ensures Part(a, hot, KeysOf(rows, |rows|)) == hot
  {
    forall e | e in hot ensures KeyOf(a, e) in KeysOf(rows, |rows|) {
      var i :| 0 <= i < |rows| && rows[i].key == KeyOf(a, e);
    }
    PartAll(a, hot, KeysOf(rows, |rows|));
  }

  lemma AddRegrouped(a: Args, cells: map<Key, Cell>, before: seq<Event>, more: seq<Event>, after: seq<Event>, row: Row)
    requires Valid(a) && Aggregates(a, cells, before)
    requires CellOf(more, Cell(row.n, row.maxConf)) && forall e :: e in more ==> KeyOf(a, e) == row.key
    requires multiset(after) == multiset(before + more)
    ensures Aggregates(a, Added(cells, row.key, row.n, row.maxConf), after)
  {
    AddAggregates(a, cells, before, more, row.key, row.n, row.maxConf);
    AggregatesPermuted(a, Added(cells, row.key, row.n, row.maxConf), before + more, after);
  }

  lemma RowStep(a: Args, cells: map<Key, Cell>, evs: seq<Event>, hot: seq<Event>, d: set<Key>, row: Row)
    requires Valid(a) && Aggregates(a, cells, evs + Part(a, hot, d)) && row.key !in d
    requires CellOf(OfKey(a, hot, row.key), Cell(row.n, row.maxConf))
    ensures Aggregates(a, Added(cells, row.key, row.n, row.maxConf), evs + Part(a, hot, d + {row.key}))
  {
    PartStep(a, hot, d, row.key);
    Regroup(evs, Part(a, hot, d), OfKey(a, hot, row.key), Part(a, hot, d + {row.key}));
    AddRegrouped(a, cells, evs + Part(a, hot, d), OfKey(a, hot, row.key), evs + Part(a, hot, d + {row.key}), row);
  }

  lemma Regroup(evs: seq<Event>, x: seq<Event>, y: seq<Event>, z: seq<Event>)
    requires multiset(z) == multiset(x) + multiset(y)
    ensures multiset(evs + z) == multiset(evs + x + y)
  {
  }

  lemma ColdStep(a: Args, coldTo: int, lines: seq<Event>, i: nat, evs: seq<Event>)
    requires i < |lines|
    ensures var e := lines[i];
            evs + Cold(a, coldTo, lines[..i + 1]) ==
              if e.camera == a.camera && !(e.ts < a.from || !(e.ts < coldTo))
              then evs + Cold(a, coldTo, lines[..i]) + [e] else evs + Cold(a, coldTo, lines[..i])
  {
    assert lines[..i + 1] == lines[..i] + [lines[i]];
    FilterAppend((e: Event) => e.camera == a.camera && !(e.ts < a.from || !(e.ts < coldTo)), lines[..i], [lines[i]]);
    assert Cold(a, coldTo, lines[..i]) + [] == Cold(a, coldTo, lines[..i]);
  }

  // ---- Splitting events by key -----------------------------------------------------------------------

  /** The events whose key is in d. */
  function Part(a: Args, es: seq<Event>, d: set<Key>): (r: seq<Event>)
    requires Valid(a)
    ensures forall e :: e in r <==> e in es && KeyOf(a, e) in d
  {
    Filter((e: Event) => KeyOf(a, e) in d, es)
  }

  lemma PartStep(a: Args, es: seq<Event>, d: set<Key>, k: Key)
    requires Valid(a) && k !in d
    ensures multiset(Part(a, es, d + {k})) == multiset(Part(a, es, d)) + multiset(OfKey(a, es, k))
  {
    FilterDisjoint((e: Event) => KeyOf(a, e) in d, (e: Event) => KeyOf(a, e) == k,
                   (e: Event) => KeyOf(a, e) in d + {k}, es);
  }

  lemma PartNone(a: Args, es: seq<Event>)
    requires Valid(a)
    ensures Part(a, es, {}) == []
  {
    EmptyTogether(Part(a, es, {}), []);
  }

  lemma PartAll(a: Args, es: seq<Event>, d: set<Key>)
    requires Valid(a) && forall e :: e in es ==> KeyOf(a, e) in d
    ensures Part(a, es, d) == es
  {
    FilterCongruent((e: Event) => KeyOf(a, e) in d, (e: Event) => true, es);
    FilterTrue(es);
  }

  lemma {:induction false} FilterTrue(es: seq<Event>)
    ensures Filter((e: Event) => true, es) == es
  {
    if es != [] {
      FilterTrue(es[1..]);
      assert es == [es[0]] + es[1..];
    }
  }

  // ---- Reducing one bucket ---------------------------------------------------------------------------

  /** The cells with index i describe the events es of that bucket. */
  ghost predicate Describes(a: Args, cells: map<Key, Cell>, i: int, es: seq<Event>)
    requires Valid(a)
  {
    && (forall k :: k in cells && k.i == i ==> CellOf(OfKey(a, es, k), cells[k]))
    && (forall e :: e in es ==> KeyOf(a, e) in cells && KeyOf(a, e).i == i)
  }

  lemma {:induction false} OfKeyInBucket(a: Args, evs: seq<Event>, k: Key)
    requires Valid(a)
    ensures OfKey(a, InBucket(a, evs, k.i), k) == OfKey(a, evs, k)
  {
    if evs != [] {
      OfKeyInBucket(a, evs[1..], k);
      var rest := InBucket(a, evs[1..], k.i);
      if IndexOf(a, evs[0]) == k.i {
        assert InBucket(a, evs, k.i) == [evs[0]] + rest;
      } else {
        assert InBucket(a, evs, k.i) == rest;
      }
    }
  }

  lemma BucketDescribed(a: Args, cells: map<Key, Cell>, evs: seq<Event>, i: int)
    requires Valid(a) && Aggregates(a, cells, evs)
    ensures Describes(a, cells, i, InBucket(a, evs, i))
  {
    forall k | k in cells && k.i == i ensures CellOf(OfKey(a, InBucket(a, evs, i), k), cells[k]) {
      OfKeyInBucket(a, evs, k);
    }
  }

  ghost predicate Totals(t: map<string, int>, x: seq<Event>) {
    && (forall c :: c in t <==> c in Classes(x))
    && (forall c :: c in t ==> t[c] == |OfClass(x, c)|)
  }

  /** The running totals of a bucket, over the events x. */
  ghost predicate Tallied(x: seq<Event>, count: int, maxConf: real, totals: map<string, int>, kinds: set<string>) {
    && count == |x| && maxConf == MaxConf(x) && Totals(totals, x)
    && (forall s :: s in kinds <==> s in KindsOf(x))
  }

  function Bumped(t: map<string, int>, c: string, n: int): map<string, int> {
    t[c := (if c in t then t[c] else 0) + n]
  }

  lemma Joined(x: seq<Event>, y: seq<Event>, z: seq<Event>)
    requires multiset(z) == multiset(x) + multiset(y)
    ensures |z| == |x| + |y| && forall e :: e in z <==> e in x || e in y
  {
    assert multiset(x + y) == multiset(x) + multiset(y);
    SameElements(x + y, z);
  }

  lemma MaxJoin(x: seq<Event>, y: seq<Event>, z: seq<Event>, m: real)
    requires multiset(z) == multiset(x) + multiset(y) && Best(y, m)
    ensures MaxConf(z) == if m > MaxConf(x) then m else MaxConf(x)
  {
    Joined(x, y, z);
  }

  lemma {:induction false} ClassAll(es: seq<Event>, c: string)
    requires forall e :: e in es ==> e.cls == c
    ensures OfClass(es, c) == es
  {
    FilterCongruent((e: Event) => e.cls == c, (e: Event) => true, es);
    FilterTrue(es);
  }

  lemma ClassNone(es: seq<Event>, c: string)
    requires forall e :: e in es ==> e.cls != c
    ensures OfClass(es, c) == []
  {
    EmptyTogether(OfClass(es, c), []);
  }

  lemma ClassJoin(x: seq<Event>, y: seq<Event>, z: seq<Event>, c: string)
    requires multiset(z) == multiset(x) + multiset(y)
    ensures |OfClass(z, c)| == |OfClass(x, c)| + |OfClass(y, c)|
  {
    FilterJoin((e: Event) => e.cls == c, x, y, z);
    Joined(OfClass(x, c), OfClass(y, c), OfClass(z, c));
  }

  lemma FilterJoin(p: Event -> bool, x: seq<Event>, y: seq<Event>, z: seq<Event>)
    requires multiset(z) == multiset(x) + multiset(y)
    ensures multiset(Filter(p, z)) == multiset(Filter(p, x)) + multiset(Filter(p, y))
  {
    forall e ensures multiset(Filter(p, z))[e] == multiset(Filter(p, x))[e] + multiset(Filter(p, y))[e] {
      FilterMultiset(p, x, e);
      FilterMultiset(p, y, e);
      FilterMultiset(p, z, e);
    }
  }

  lemma TotalsStep(t: map<string, int>, x: seq<Event>, y: seq<Event>, z: seq<Event>, cls: string)
    requires multiset(z) == multiset(x) + multiset(y) && Totals(t, x)
    requires y != [] && forall e :: e in y ==> e.cls == cls
    ensures Totals(Bumped(t, cls, |y|), z)
  {
    Joined(x, y, z);
    var t' := Bumped(t, cls, |y|);
    assert y[0] in y;
    forall c ensures c in t' <==> c in Classes(z) {
      if c in Classes(x) { var e :| e in x && e.cls == c; assert e in z; }
    }
    forall c | c in t' ensures t'[c] == |OfClass(z, c)| {
      ClassJoin(x, y, z, c);
      if c == cls {
        ClassAll(y, c);
        if c !in t { assert c !in Classes(x); ClassNone(x, c); }
      } else {
        ClassNone(y, c);
      }
    }
  }

  lemma KindsStep(kinds: set<string>, x: seq<Event>, y: seq<Event>, z: seq<Event>, kind: string)
    requires multiset(z) == multiset(x) + multiset(y) && forall s :: s in kinds <==> s in KindsOf(x)
    requires y != [] && forall e :: e in y ==> KindOf(e) == kind
    ensures forall s :: s in kinds + {kind} <==> s in KindsOf(z)
  {
    Joined(x, y, z);
    assert y[0] in y;
    forall s ensures s in kinds + {kind} <==> s in KindsOf(z) {
      if s in KindsOf(x) { var e :| e in x && KindOf(e) == s; assert e in z; }
    }
  }

  lemma TallyStep(a: Args, x: seq<Event>, y: seq<Event>, z: seq<Event>, k: Key, c: Cell,
                  count: int, maxConf: real, totals: map<string, int>, kinds: set<string>)
    requires Valid(a) && multiset(z) == multiset(x) + multiset(y) && Tallied(x, count, maxConf, totals, kinds)
    requires CellOf(y, c) && forall e :: e in y ==> KeyOf(a, e) == k
    ensures Tallied(z, count + c.n, if c.maxConf > maxConf then c.maxConf else maxConf,
                    Bumped(totals, k.cls, c.n), kinds + {k.kind})
  {
    Joined(x, y, z);
    MaxJoin(x, y, z, c.maxConf);
    TotalsStep(totals, x, y, z, k.cls);
    KindsStep(kinds, x, y, z, k.kind);
  }

  ghost predicate TalliedKeys(a: Args, es: seq<Event>, d: set<Key>,
                              count: int, maxConf: real, totals: map<string, int>, kinds: set<string>)
    requires Valid(a)
  {
    Tallied(Part(a, es, d), count, maxConf, totals, kinds)
  }

  function KeysAt(cells: map<Key, Cell>, i: int): set<Key> { set k | k in cells && k.i == i }

  lemma TallyStart(a: Args, es: seq<Event>)
    requires Valid(a)
    ensures TalliedKeys(a, es, {}, 0, 0.0, map[], {})
  {
    PartNone(a, es);
  }

  lemma TallyKey(a: Args, cells: map<Key, Cell>, i: int, es: seq<Event>, d: set<Key>, k: Key,
                 count: int, maxConf: real, totals: map<string, int>, kinds: set<string>)
    requires Valid(a) && Describes(a, cells, i, es) && k in KeysAt(cells, i) && k !in d
    requires TalliedKeys(a, es, d, count, maxConf, totals, kinds)
    ensures TalliedKeys(a, es, d + {k}, count + cells[k].n,
                        if cells[k].maxConf > maxConf then cells[k].maxConf else maxConf,
                        Bumped(totals, k.cls, cells[k].n), kinds + {k.kind})
  {
    PartStep(a, es, d, k);
    TallyStep(a, Part(a, es, d), OfKey(a, es, k), Part(a, es, d + {k}), k, cells[k], count, maxConf, totals, kinds);
  }

  lemma TallyEnd(a: Args, cells: map<Key, Cell>, i: int, es: seq<Event>,
                 count: int, maxConf: real, totals: map<string, int>, kinds: set<string>)
    requires Valid(a) && Describes(a, cells, i, es)
    requires TalliedKeys(a, es, KeysAt(cells, i), count, maxConf, totals, kinds)
    ensures Tallied(es, count, maxConf, totals, kinds)
  {
    PartAll(a, es, KeysAt(cells, i));
  }

  lemma DoneStep<T>(all: set<T>, todo: set<T>, x: T)
    requires todo <= all && x in todo
    ensures all - (todo - {x}) == all - todo + {x}
  {
  }

  /** One bucket, its cells visited in any order. */
  method Tally(a: Args, cells: map<Key, Cell>, i: int, ghost es: seq<Event>)
      returns (count: int, maxConf: real, totals: map<string, int>, kinds: set<string>)
    requires Valid(a) && Describes(a, cells, i, es)
    ensures Tallied(es, count, maxConf, totals, kinds)
  {
    count, maxConf, totals, kinds := 0, 0.0, map[], {};
    var todo := KeysAt(cells, i);
    TallyStart(a, es);
    assert KeysAt(cells, i) - todo == {};
    while todo != {}
      invariant todo <= KeysAt(cells, i)
      invariant TalliedKeys(a, es, KeysAt(cells, i) - todo, count, maxConf, totals, kinds)
      decreases todo
    {
      var k :| k in todo;
      TallyKey(a, cells, i, es, KeysAt(cells, i) - todo, k, count, maxConf, totals, kinds);
      DoneStep(KeysAt(cells, i), todo, k);
      count := count + cells[k].n;
      if cells[k].maxConf > maxConf { maxConf := cells[k].maxConf; }
      totals := Bumped(totals, k.cls, cells[k].n);
      kinds := kinds + {k.kind};
      todo := todo - {k};
    }
    assert KeysAt(cells, i) - todo == KeysAt(cells, i);
    TallyEnd(a, cells, i, es, count, maxConf, totals, kinds);
  }

  /** The class totals as a list, in whatever order the map is walked. */
  method ListTotals(totals: map<string, int>) returns (r: seq<ClassCount>)
    ensures NoDuplicates(r)
    ensures forall x :: x in r <==> x.cls in totals && x.count == totals[x.cls]
  {
    r := [];
    var todo := totals.Keys;
    while todo != {}
      invariant todo <= totals.Keys && NoDuplicates(r)
      invariant forall x :: x in r <==> x.cls in totals && x.cls !in todo && x.count == totals[x.cls]
      decreases todo
    {
      var c :| c in todo;
      r := r + [ClassCount(c, totals[c])];
      todo := todo - {c};
    }
  }

  method ListKinds(kinds: set<string>) returns (r: seq<string>)
    ensures NoDuplicates(r) && forall x :: x in r <==> x in kinds
  {
    r := [];
    var todo := kinds;
    while todo != {}
      invariant todo <= kinds && NoDuplicates(r)
      invariant forall x :: x in r <==> x in kinds && x !in todo
      decreases todo
    {
      var s :| s in todo;
      r := r + [s];
      todo := todo - {s};
    }
  }

  /** A sorted list without duplicates is the strictly sorted one of its elements. */
  lemma SortedListing<T(!new)>(less: (T, T) -> bool, r: seq<T>, s: seq<T>, t: seq<T>)
    requires Asymmetric(less) && Total(less)
    requires NoDuplicates(r) && multiset(s) == multiset(r) && Sorted(less, s)
    requires NoDuplicates(t) && Sorted(less, t) && forall x :: x in t <==> x in r
    ensures s == t
  {
    NoDuplicatesFromMultiset(r, s);
    assert forall x :: x in s <==> x in multiset(s);
    assert forall x :: x in r <==> x in multiset(r);
    SortedUnique(less, s, t);
  }

  method TopClasses(totals: map<string, int>, ghost es: seq<Event>) returns (classes: seq<ClassCount>)
    requires Totals(totals, es)
    ensures classes == Take3(Ranking(es))
  {
    ByCountIsOrder();
    var listed := ListTotals(totals);
    classes := Sort(ByCount, listed);
    RankingListing(es);
    SortedListing(ByCount, listed, classes, Ranking(es));
    if |classes| > 3 { classes := classes[..3]; }
  }

  method Kinds(kinds: set<string>, ghost es: seq<Event>) returns (r: seq<string>)
    requires forall s :: s in kinds <==> s in KindsOf(es)
    ensures r == SetOf(KindsOf(es))
  {
    StrLessIsOrder();
    var listed := ListKinds(kinds);
    r := Sort(StrLess, listed);
    SortedListing(StrLess, listed, r, SetOf(KindsOf(es)));
  }

  method ReduceBucket(a: Args, cells: map<Key, Cell>, i: int, ghost es: seq<Event>) returns (b: Bucket)
    requires Valid(a) && Describes(a, cells, i, es)
    ensures b == BucketOf(i, es)
  {
    var count, maxConf, totals, kinds := Tally(a, cells, i, es);
    var classes := TopClasses(totals, es);
    var kindList := Kinds(kinds, es);
    b := Bucket(i, count, maxConf, classes, kindList);
  }

  // ---- Reducing all buckets --------------------------------------------------------------------------

  function Indices(cells: map<Key, Cell>): set<int> { set k | k in cells :: k.i }

  lemma IndicesExact(a: Args, cells: map<Key, Cell>, evs: seq<Event>)
    requires Valid(a) && Aggregates(a, cells, evs)
    ensures forall i :: i in Indices(cells) <==> InBucket(a, evs, i) != []
    ensures forall i :: InBucket(a, evs, i) != [] ==> 0 <= i < a.buckets
  {
    forall i ensures i in Indices(cells) <==> InBucket(a, evs, i) != [] {
      if i in Indices(cells) {
        var k :| k in cells && k.i == i;
        assert OfKey(a, evs, k)[0] in OfKey(a, evs, k);
        assert OfKey(a, evs, k)[0] in InBucket(a, evs, i);
      }
      if InBucket(a, evs, i) != [] {
        var e := InBucket(a, evs, i)[0];
        assert e in InBucket(a, evs, i);
        assert KeyOf(a, e) in cells;
      }
    }
    forall i | InBucket(a, evs, i) != [] ensures 0 <= i < a.buckets {
      assert InBucket(a, evs, i)[0] in InBucket(a, evs, i);
    }
  }

  /** The buckets in map order, then sorted: exactly the summary of the aggregated events. */
  method ReduceSummary(a: Args, cells: map<Key, Cell>, ghost evs: seq<Event>) returns (out: seq<Bucket>)
    requires Valid(a) && Aggregates(a, cells, evs)
    ensures out == Concat(Slots(a, evs), a.buckets)
  {
    out := [];
    var todo := Indices(cells);
    while todo != {}
      invariant todo <= Indices(cells) && Reduced(a, evs, out, Indices(cells) - todo)
      decreases todo
    {
      var i :| i in todo;
      BucketDescribed(a, cells, evs, i);
      var b := ReduceBucket(a, cells, i, InBucket(a, evs, i));
      ReducedStep(a, evs, out, Indices(cells) - todo, i);
      DoneStep(Indices(cells), todo, i);
      out := out + [b];
      todo := todo - {i};
    }
    assert Indices(cells) - todo == Indices(cells);
    ghost var listed := out;
    out := Sort(ByIndex, out);
    ReducedDone(a, cells, evs, listed, out);
  }

  /** One bucket for each index in d, in any order. */
  ghost predicate Reduced(a: Args, evs: seq<Event>, out: seq<Bucket>, d: set<int>)
    requires Valid(a)
  {
    && (forall b :: b in out <==> b.i in d && b == BucketOf(b.i, InBucket(a, evs, b.i)))
    && (forall j, k :: 0 <= j < k < |out| ==> out[j].i != out[k].i)
  }

  lemma ReducedStep(a: Args, evs: seq<Event>, out: seq<Bucket>, d: set<int>, i: int)
    requires Valid(a) && Reduced(a, evs, out, d) && i !in d
    ensures Reduced(a, evs, out + [BucketOf(i, InBucket(a, evs, i))], d + {i})
  {
    var b := BucketOf(i, InBucket(a, evs, i));
    forall j | 0 <= j < |out| ensures out[j].i != i { assert out[j] in out; }
    forall c ensures c in out + [b] <==> c in out || c == b {}
  }

  lemma ReducedDone(a: Args, cells: map<Key, Cell>, evs: seq<Event>, listed: seq<Bucket>, out: seq<Bucket>)
    requires Valid(a) && Aggregates(a, cells, evs) && Reduced(a, evs, listed, Indices(cells))
    requires Sorted(ByIndex, out) && multiset(out) == multiset(listed)
    ensures out == Concat(Slots(a, evs), a.buckets)
  {
    var want := Concat(Slots(a, evs), a.buckets);
    ConcatSlots(a, evs, a.buckets);
    IndicesExact(a, cells, evs);
    forall b ensures b in listed <==> b in want {}
    SortedByIndex(listed, out, want);
  }

  lemma SortedByIndex(listed: seq<Bucket>, out: seq<Bucket>, want: seq<Bucket>)
    requires multiset(out) == multiset(listed) && Sorted(ByIndex, out)
    requires forall j, k :: 0 <= j < k < |listed| ==> listed[j].i != listed[k].i
    requires StrictlySorted(ByIndex, want) && forall b :: b in listed <==> b in want
    ensures out == want
  {
    NoDuplicatesFromMultiset(listed, out);
    forall b ensures b in out <==> b in want {
      assert b in out <==> b in multiset(out);
      assert b in listed <==> b in multiset(listed);
    }
    forall j, k | 0 <= j < k < |out| ensures out[j].i < out[k].i {
      assert out[j] in listed && out[k] in listed && out[j] != out[k];
    }
    SortedUnique(ByIndex, out, want);
  }

  // ---- The endpoint ----------------------------------------------------------------------------------

  datatype Reply = Refused | Reply(buckets: seq<Bucket>)

  /** A bucket count outside 1..1000 means 288. */
  function Defaulted(a: Args): Args {
    if a.buckets < 1 || a.buckets > 1000 then a.(buckets := 288) else a
  }

  predicate Acceptable(a: Args) { a.camera != "" && a.to > a.from }

  /** What sidecars and table must hold together: before the cutoff every event is in the sidecars, from it on
      in the table. Sidecars may also hold newer events and the table older ones. */
  ghost predicate Stored(cutoff: Option<int>, sidecars: seq<Event>, table: seq<Event>, history: seq<Event>) {
    forall e :: multiset(history)[e] ==
      if cutoff.Some? && e.ts < cutoff.value then multiset(sidecars)[e] else multiset(table)[e]
  }

  /** The lines and rows that are read: the two halves of the range, once each. */
  function Read(a: Args, cutoff: Option<int>, sidecars: seq<Event>, table: seq<Event>): seq<Event> {
    var cold := cutoff.Some? && a.from < cutoff.value;
    (if cold then Cold(a, ColdTo(a, cutoff.value), sidecars) else [])
      + (if PgFrom(a, cutoff) < a.to then Hot(a, PgFrom(a, cutoff), table) else [])
  }

  function ColdTo(a: Args, c: int): int { if a.to > c then c else a.to }

  function PgFrom(a: Args, cutoff: Option<int>): int {
    if cutoff.Some? && a.from < cutoff.value then cutoff.value else a.from
  }

  /** Each event of the range is read exactly once, whatever the cutoff. */
  lemma ReadOnce(a: Args, cutoff: Option<int>, sidecars: seq<Event>, table: seq<Event>, history: seq<Event>)
    requires Stored(cutoff, sidecars, table, history)
    ensures multiset(Read(a, cutoff, sidecars, table)) == multiset(InRange(a, history))
  {
    forall e ensures multiset(Read(a, cutoff, sidecars, table))[e] == multiset(InRange(a, history))[e] {
      ReadOnceEach(a, cutoff, sidecars, table, history, e);
    }
  }

  lemma ReadOnceEach(a: Args, cutoff: Option<int>, sidecars: seq<Event>, table: seq<Event>, history: seq<Event>,
                     e: Event)
    requires Stored(cutoff, sidecars, table, history)
    ensures multiset(Read(a, cutoff, sidecars, table))[e] == multiset(InRange(a, history))[e]
  {
    FilterMultiset((e: Event) => e.camera == a.camera && a.from <= e.ts < a.to, history, e);
    var pgFrom := PgFrom(a, cutoff);
    FilterMultiset((e: Event) => e.camera == a.camera && pgFrom <= e.ts < a.to, table, e);
    if cutoff.Some? {
      var coldTo := ColdTo(a, cutoff.value);
      FilterMultiset((e: Event) => e.camera == a.camera && !(e.ts < a.from || !(e.ts < coldTo)), sidecars, e);
    }
  }

  lemma ReadMeansSummary(a: Args, cutoff: Option<int>, sidecars: seq<Event>, table: seq<Event>, history: seq<Event>)
    requires Valid(a) && Stored(cutoff, sidecars, table, history)
    ensures Concat(Slots(a, Read(a, cutoff, sidecars, table)), a.buckets) == SummaryOf(a, history)
  {
    ReadOnce(a, cutoff, sidecars, table, history);
    SummaryPermuted(a, Read(a, cutoff, sidecars, table), InRange(a, history));
  }

  /** The database, asked for the rows from a given time on: one row per key, in any order. */
  ghost predicate Answers(a: Args, query: int -> seq<Row>, table: seq<Event>)
    requires Valid(a)
  {
    forall pgFrom :: Grouping(a, query(pgFrom), Hot(a, pgFrom, table))
  }

  lemma NoRows(a: Args)
    requires Valid(a)
    ensures Aggregates(a, map[], [])
  {
  }

  lemma RowsOf(a: Args, query: int -> seq<Row>, table: seq<Event>, pgFrom: int)
    requires Valid(a) && Answers(a, query, table)
    ensures Grouping(a, query(pgFrom), Hot(a, pgFrom, table))
  {
  }

  /** The cold lines and then the hot rows. */
  lemma ReadTwice(a: Args, cutoff: Option<int>, sidecars: seq<Event>, table: seq<Event>, cold: seq<Event>)
    requires cold == if cutoff.Some? && a.from < cutoff.value then Cold(a, ColdTo(a, cutoff.value), sidecars) else []
    ensures Read(a, cutoff, sidecars, table) ==
              if PgFrom(a, cutoff) < a.to then cold + Hot(a, PgFrom(a, cutoff), table) else cold
  {
  }

  /** Feed both halves into one aggregation. */
  method AggregateBoth(a: Args, cutoff: Option<int>, sidecars: seq<Event>, query: int -> seq<Row>,
                       ghost table: seq<Event>)
      returns (cells: map<Key, Cell>)
    requires Valid(a) && Answers(a, query, table)
    ensures Aggregates(a, cells, Read(a, cutoff, sidecars, table))
  {
    var agg := new SummaryAgg();
    NoRows(a);
    var pgFrom := a.from;
    ghost var seen: seq<Event> := [];
    if cutoff.Some? && a.from < cutoff.value {
      var coldTo := a.to;
      if coldTo > cutoff.value { coldTo := cutoff.value; }
      agg.AggregateSidecars(a, coldTo, sidecars, []);
      seen := [] + Cold(a, coldTo, sidecars);
      pgFrom := cutoff.value;
    }
    ReadTwice(a, cutoff, sidecars, table, seen);
    if pgFrom < a.to {
      RowsOf(a, query, table, pgFrom);
      agg.AggregateRows(a, query(pgFrom), Hot(a, pgFrom, table), seen);
    }
    cells := agg.cells;
  }

  /** The hot/cold union is the summary of the whole history: no trace is left of the cutoff, of the order of
      lines and rows, or of the order in which maps are walked. */
  method Summarise(asked: Args, cutoff: Option<int>, sidecars: seq<Event>, query: int -> seq<Row>,
                   ghost table: seq<Event>, ghost history: seq<Event>) returns (r: Reply)
    requires Acceptable(asked) ==> Answers(Defaulted(asked), query, table)
    requires Stored(cutoff, sidecars, table, history)
    ensures asked.camera == "" || asked.from >= asked.to <==> r == Refused
    ensures r.Reply? ==> r.buckets == SummaryOf(Defaulted(asked), history)
    ensures r.Reply? && 1 <= asked.buckets <= 1000 ==> Means(asked, history, r.buckets)
    ensures r.Reply? && !(1 <= asked.buckets <= 1000) ==> Means(asked.(buckets := 288), history, r.buckets)
  {
    if asked.camera == "" || !(asked.to > asked.from) { return Refused; }
    var a := asked;
    if a.buckets < 1 || a.buckets > 1000 { a := a.(buckets := 288); }
    var cells := AggregateBoth(a, cutoff, sidecars, query, table);
    ReadMeansSummary(a, cutoff, sidecars, table, history);
    var buckets := ReduceSummary(a, cells, Read(a, cutoff, sidecars, table));
    r := Reply(buckets);
    SummaryMeans(a, history);
  }
}
