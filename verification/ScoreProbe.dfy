/** Face matching: the acceptance rules for one probe, free of row order, map order and sort ties. */
module ScoreProbe {
  import opened Options
  import opened Ordering

  /** An enrolled embedding, with its cosine to the probe already taken. */
  datatype Enrolled = Enrolled(personId: string, name: string, sim: real)

  datatype Match = Match(personId: string, name: string, sim: real)

  datatype Params = Params(thresh: real, margin: real, negW: real)

  predicate Higher(a: real, b: real) { a > b }

  lemma HigherIsOrder()
    ensures StrictWeak(Higher) && Total(Higher) && Asymmetric(Higher)
  {
  }

  function Sims(es: seq<Enrolled>): (r: seq<real>)
    ensures |r| == |es|
  {
    seq(|es|, i requires 0 <= i < |es| => es[i].sim)
  }

  function Of(enrolled: seq<Enrolled>, pid: string): seq<Enrolled> {
    Filter((e: Enrolled) => e.personId == pid, enrolled)
  }

  function Persons(enrolled: seq<Enrolled>): set<string> { set e | e in enrolled :: e.personId }

  function SumFirst(s: seq<real>, k: nat): real
    requires k <= |s|
  {
    if k == 0 then 0.0 else SumFirst(s, k - 1) + s[k - 1]
  }

  function TopMean(sorted: seq<real>): real
    requires sorted != []
  {
    var k := if |sorted| < 3 then |sorted| else 3;
    SumFirst(sorted, k) / k as real
  }

  function SortedSims(es: seq<Enrolled>): (r: seq<real>)
    ensures |r| == |es| && Sorted(Higher, r) && multiset(r) == multiset(Sims(es))
  {
    HigherIsOrder();
    SortBy(Higher, Sims(es))
  }

  lemma PersonHasSims(enrolled: seq<Enrolled>, pid: string)
    ensures pid in Persons(enrolled) <==> Of(enrolled, pid) != []
  {
    if pid in Persons(enrolled) {
      var e :| e in enrolled && e.personId == pid;
      assert e in Of(enrolled, pid);
    }
    if Of(enrolled, pid) != [] {
      var e := Of(enrolled, pid)[0];
      assert e in Of(enrolled, pid);
    }
  }

  /** The mean of a person's three best cosines. */
  ghost function Score(enrolled: seq<Enrolled>, pid: string): real
    requires pid in Persons(enrolled)
  {
    PersonHasSims(enrolled, pid);
    TopMean(SortedSims(Of(enrolled, pid)))
  }

  /** The strongest dismissed negative; a negative cosine counts as none. */
  function NegMax(negatives: seq<real>): (m: real)
    ensures m >= 0.0
    ensures forall n :: n in negatives ==> n <= m
    ensures m == 0.0 || m in negatives
  {
    if negatives == [] then 0.0
    else
      var m := NegMax(negatives[..|negatives| - 1]);
      var n := negatives[|negatives| - 1];
      assert negatives == negatives[..|negatives| - 1] + [n];
      if n > m then n else m
  }

  /** Every other person trails by the margin. */
  ghost predicate Leads(enrolled: seq<Enrolled>, pid: string, margin: real)
    requires pid in Persons(enrolled)
  {
    forall o :: o in Persons(enrolled) && o != pid ==>
      Score(enrolled, o) <= Score(enrolled, pid) && Score(enrolled, pid) - Score(enrolled, o) >= margin
  }

  /** The acceptance rules, read declaratively: the best score clears the threshold, every other person
      trails by the margin, and the dismissed-negative penalty leaves it above the threshold. */
  ghost predicate Acceptable(enrolled: seq<Enrolled>, negatives: seq<real>, p: Params, pid: string) {
    && pid in Persons(enrolled)
    && Score(enrolled, pid) >= p.thresh
    && Leads(enrolled, pid, p.margin)
    && Clears(Score(enrolled, pid), negatives, p.negW, p.thresh)
  }

  /** The penalty of the strongest dismissed negative leaves the score at the threshold. */
  predicate Clears(score: real, negatives: seq<real>, negW: real, thresh: real) {
    negW > 0.0 && negatives != [] ==> score - negW * NegMax(negatives) >= thresh
  }

  // ---- The code ------------------------------------------------------------------------------------

  method Mean(es: seq<Enrolled>) returns (m: real)
    requires es != []
    ensures m == TopMean(SortedSims(es))
  {
    HigherIsOrder();
    var sims := Sort(Higher, Sims(es));
    SortedPermutationUnique(Higher, sims, SortedSims(es));
    var k := 3;
    if |sims| < k { k := |sims|; }
    var sum := 0.0;
    for i := 0 to k
      invariant sum == SumFirst(sims, i)
    {
      sum := sum + sims[i];
    }
    m := sum / k as real;
  }

  datatype PersonScore = PersonScore(pid: string, topK: real)

  predicate Better(a: PersonScore, b: PersonScore) { a.topK > b.topK }

  ghost predicate ScoreList(enrolled: seq<Enrolled>, scores: seq<PersonScore>, pids: set<string>) {
    && pids <= Persons(enrolled)
    && (forall s :: s in scores ==> s.pid in pids && s.topK == Score(enrolled, s.pid))
    && (forall pid :: pid in pids ==> PersonScore(pid, Score(enrolled, pid)) in scores)
    && NoDuplicates(scores)
  }

  ghost predicate Grouped(es: seq<Enrolled>, rows: map<string, seq<Enrolled>>) {
    rows.Keys == Persons(es) && forall pid :: pid in rows ==> rows[pid] == Of(es, pid)
  }

  /** The label of a person's last row. */
  function Label(es: seq<Enrolled>, pid: string): string {
    if es == [] then "" else if es[|es| - 1].personId == pid then es[|es| - 1].name else Label(es[..|es| - 1], pid)
  }

  ghost predicate AllNamed(es: seq<Enrolled>, names: map<string, string>) {
    names.Keys == Persons(es) && forall pid :: pid in names ==> names[pid] == Label(es, pid)
  }

  lemma OfGrows(es: seq<Enrolled>, e: Enrolled, pid: string)
    ensures Of(es + [e], pid) == if e.personId == pid then Of(es, pid) + [e] else Of(es, pid)
  {
    FilterAppend((x: Enrolled) => x.personId == pid, es, [e]);
    assert Of(es, pid) + [] == Of(es, pid);
  }

  lemma GroupedGrows(es: seq<Enrolled>, e: Enrolled, rows: map<string, seq<Enrolled>>, sofar: seq<Enrolled>)
    requires Grouped(es, rows)
    requires sofar == if e.personId in rows then rows[e.personId] else []
    ensures Grouped(es + [e], rows[e.personId := sofar + [e]])
  {
    var rows' := rows[e.personId := sofar + [e]];
    PersonHasSims(es, e.personId);
    PersonsGrow(es, e);
    forall pid | pid in rows' ensures rows'[pid] == Of(es + [e], pid) { OfGrows(es, e, pid); }
  }

  lemma PersonsGrow(es: seq<Enrolled>, e: Enrolled)
    ensures Persons(es + [e]) == Persons(es) + {e.personId}
  {
  }

  lemma AllNamedGrows(es: seq<Enrolled>, e: Enrolled, names: map<string, string>)
    requires AllNamed(es, names)
    ensures AllNamed(es + [e], names[e.personId := e.name])
  {
    PersonsGrow(es, e);
    assert (es + [e])[..|es|] == es;
  }

  /** Group the rows by person; a later row's label replaces an earlier one's. */
  method ByPerson(enrolled: seq<Enrolled>) returns (rows: map<string, seq<Enrolled>>, names: map<string, string>)
    ensures Grouped(enrolled, rows) && AllNamed(enrolled, names)
  {
    rows, names := map[], map[];
    for i := 0 to |enrolled|
      invariant Grouped(enrolled[..i], rows) && AllNamed(enrolled[..i], names)
    {
      var e := enrolled[i];
      assert enrolled[..i + 1] == enrolled[..i] + [e];
      var sofar := if e.personId in rows then rows[e.personId] else [];
      GroupedGrows(enrolled[..i], e, rows, sofar);
      AllNamedGrows(enrolled[..i], e, names);
      rows := rows[e.personId := sofar + [e]];
      names := names[e.personId := e.name];
    }
    assert enrolled[..|enrolled|] == enrolled;
  }

  /** One score per person, in whatever order the map yields them. */
  method ScoreAll(enrolled: seq<Enrolled>, rows: map<string, seq<Enrolled>>) returns (scores: seq<PersonScore>)
    requires Grouped(enrolled, rows)
    ensures ScoreList(enrolled, scores, Persons(enrolled))
  {
    scores := [];
    var todo := rows.Keys;
    while todo != {}
      invariant todo <= rows.Keys
      invariant ScoreList(enrolled, scores, Persons(enrolled) - todo)
      decreases |todo|
    {
      var pid :| pid in todo;
      PersonHasSims(enrolled, pid);
      var m := Mean(rows[pid]);
      ScoreListGrows(enrolled, scores, Persons(enrolled) - todo, pid);
      todo := todo - {pid};
      scores := scores + [PersonScore(pid, m)];
    }
  }

  lemma ScoreListGrows(enrolled: seq<Enrolled>, scores: seq<PersonScore>, pids: set<string>, pid: string)
    requires ScoreList(enrolled, scores, pids) && pid in Persons(enrolled) && pid !in pids
    ensures ScoreList(enrolled, scores + [PersonScore(pid, Score(enrolled, pid))], pids + {pid})
  {
  }

  method Negative(negatives: seq<real>) returns (m: real)
    ensures m == NegMax(negatives)
  {
    m := 0.0;
    for i := 0 to |negatives|
      invariant m == NegMax(negatives[..i])
    {
      assert negatives[..i + 1][..i] == negatives[..i];
      if negatives[i] > m { m := negatives[i]; }
    }
    assert negatives[..|negatives|] == negatives;
  }

  method Ranking(enrolled: seq<Enrolled>, rows: map<string, seq<Enrolled>>) returns (scores: seq<PersonScore>)
    requires Grouped(enrolled, rows)
    ensures Ranked(enrolled, scores)
  {
    var list := ScoreAll(enrolled, rows);
    scores := Sort(Better, list);
    SortedList(enrolled, list, scores);
  }

  /** What a verdict must be. */
  ghost predicate Correct(enrolled: seq<Enrolled>, negatives: seq<real>, p: Params, r: Option<Match>) {
    match r
    case Some(m) =>
      && Acceptable(enrolled, negatives, p, m.personId)
      && m.sim == Score(enrolled, m.personId) && m.name == Label(enrolled, m.personId)
    case None => forall pid :: !Acceptable(enrolled, negatives, p, pid)
  }

  /** The three gates, on the ranked scores. */
  predicate Passes(scores: seq<PersonScore>, negatives: seq<real>, p: Params) {
    && scores != [] && scores[0].topK >= p.thresh
    && (|scores| > 1 ==> scores[0].topK - scores[1].topK >= p.margin)
    && Clears(scores[0].topK, negatives, p.negW, p.thresh)
  }

  method Gate(scores: seq<PersonScore>, negatives: seq<real>, p: Params) returns (ok: bool)
    ensures ok <==> Passes(scores, negatives, p)
  {
    if |scores| == 0 || scores[0].topK < p.thresh { return false; }
    if |scores| > 1 && scores[0].topK - scores[1].topK < p.margin { return false; }
    if p.negW > 0.0 && |negatives| > 0 {
      var negSim := Negative(negatives);
      if scores[0].topK - p.negW * negSim < p.thresh { return false; }
    }
    ok := true;
  }

  /** Main result: the scan accepts a person exactly when the rules do. */
  method Decide(enrolled: seq<Enrolled>, negatives: seq<real>, p: Params) returns (r: Option<Match>)
    ensures Correct(enrolled, negatives, p, r)
  {
    var rows, names := ByPerson(enrolled);
    var scores := Ranking(enrolled, rows);
    var ok := Gate(scores, negatives, p);
    GateCorrect(enrolled, negatives, p, scores, names);
    if ok {
      r := Some(Match(scores[0].pid, names[scores[0].pid], scores[0].topK));
    } else {
      r := None;
    }
  }

  lemma GateCorrect(enrolled: seq<Enrolled>, negatives: seq<real>, p: Params, scores: seq<PersonScore>,
                    names: map<string, string>)
    requires Ranked(enrolled, scores) && AllNamed(enrolled, names)
    ensures Passes(scores, negatives, p) ==>
              scores[0].pid in names
              && Correct(enrolled, negatives, p, Some(Match(scores[0].pid, names[scores[0].pid], scores[0].topK)))
    ensures !Passes(scores, negatives, p) ==> Correct(enrolled, negatives, p, None)
  {
    if Passes(scores, negatives, p) {
      TopAccepted(enrolled, negatives, p, scores);
    } else {
      forall pid ensures !Acceptable(enrolled, negatives, p, pid) {
        if Acceptable(enrolled, negatives, p, pid) { AcceptableTies(enrolled, negatives, p, scores, pid); }
      }
    }
  }

  ghost predicate Ranked(enrolled: seq<Enrolled>, scores: seq<PersonScore>) {
    ScoreList(enrolled, scores, Persons(enrolled)) && Sorted(Better, scores)
  }

  lemma SortedList(enrolled: seq<Enrolled>, list: seq<PersonScore>, scores: seq<PersonScore>)
    requires ScoreList(enrolled, list, Persons(enrolled)) && Sorted(Better, scores)
    requires multiset(scores) == multiset(list) && forall s :: s in scores <==> s in list
    ensures Ranked(enrolled, scores)
  {
    NoDuplicatesFromMultiset(list, scores);
  }

  /** Where a person stands in the ranking. */
  lemma RankOf(enrolled: seq<Enrolled>, scores: seq<PersonScore>, pid: string) returns (i: nat)
    requires Ranked(enrolled, scores) && pid in Persons(enrolled)
    ensures i < |scores| && scores[i] == PersonScore(pid, Score(enrolled, pid))
    ensures Score(enrolled, pid) <= scores[0].topK
    ensures i > 0 ==> Score(enrolled, pid) <= scores[1].topK && pid != scores[0].pid
  {
    i :| 0 <= i < |scores| && scores[i] == PersonScore(pid, Score(enrolled, pid));
    PidsDiffer(enrolled, scores);
    if i > 0 {
      assert !Better(scores[i], scores[0]);
      if i > 1 { assert !Better(scores[i], scores[1]); }
    }
  }

  lemma PidsDiffer(enrolled: seq<Enrolled>, scores: seq<PersonScore>)
    requires Ranked(enrolled, scores)
    ensures forall i, j :: 0 <= i < j < |scores| ==> scores[i].pid != scores[j].pid
  {
    forall i, j | 0 <= i < j < |scores| ensures scores[i].pid != scores[j].pid {
      assert scores[i] in scores && scores[j] in scores;
    }
  }

  /** Anyone acceptable ties with the top of the ranking. */
  lemma AcceptableTies(enrolled: seq<Enrolled>, negatives: seq<real>, p: Params, scores: seq<PersonScore>, pid: string)
    requires Ranked(enrolled, scores) && Acceptable(enrolled, negatives, p, pid)
    ensures scores != [] && Score(enrolled, pid) == scores[0].topK
    ensures |scores| > 1 ==> scores[0].topK - scores[1].topK >= p.margin
  {
    var i := RankOf(enrolled, scores, pid);
    assert scores[0] in scores;
    if |scores| > 1 {
      assert scores[1] in scores;
      assert !Better(scores[1], scores[0]);
      var o := if i == 0 then scores[1].pid else scores[0].pid;
      PidsDiffer(enrolled, scores);
      assert o != pid;
      assert Score(enrolled, pid) - Score(enrolled, o) >= p.margin;
    }
  }

  lemma TopAccepted(enrolled: seq<Enrolled>, negatives: seq<real>, p: Params, scores: seq<PersonScore>)
    requires Ranked(enrolled, scores) && Passes(scores, negatives, p)
    ensures Acceptable(enrolled, negatives, p, scores[0].pid)
    ensures scores[0].topK == Score(enrolled, scores[0].pid)
  {
    assert scores[0] in scores;
    forall o | o in Persons(enrolled) && o != scores[0].pid
      ensures Score(enrolled, o) <= scores[0].topK && scores[0].topK - Score(enrolled, o) >= p.margin
    {
      var i := RankOf(enrolled, scores, o);
    }
  }

  // ---- What the rules promise ----------------------------------------------------------------------

  lemma ScorePermuted(a: seq<Enrolled>, b: seq<Enrolled>, pid: string)
    requires multiset(a) == multiset(b) && pid in Persons(a)
    ensures pid in Persons(b) && Score(a, pid) == Score(b, pid)
  {
    PersonsPermuted(a, b);
    FilterPermuted((e: Enrolled) => e.personId == pid, a, b);
    PersonHasSims(a, pid);
    PersonHasSims(b, pid);
    var x, y := Of(a, pid), Of(b, pid);
    SimsPermuted(x, y);
    HigherIsOrder();
    SortedPermutationUnique(Higher, SortedSims(x), SortedSims(y));
  }

  lemma PersonsPermuted(a: seq<Enrolled>, b: seq<Enrolled>)
    requires multiset(a) == multiset(b)
    ensures Persons(a) == Persons(b)
  {
    forall e ensures e in a <==> e in b { assert e in a <==> e in multiset(a); }
  }

  lemma {:induction false} SimsPermuted(a: seq<Enrolled>, b: seq<Enrolled>)
    requires multiset(a) == multiset(b)
    ensures multiset(Sims(a)) == multiset(Sims(b))
    decreases |a|
  {
    assert |a| == |multiset(a)| == |multiset(b)| == |b|;
    if a != [] {
      assert a[0] in multiset(a);
      var l, r := Around(b, a[0]);
      var t := a[1..];
      assert a == [a[0]] + t;
      SameRest(a[0], t, l, r);
      SimsPermuted(t, l + r);
      SimsWithout([], a[0], t);
      SimsWithout(l, a[0], r);
      assert [] + [a[0]] + t == a && [] + t == t;
    }
  }

  lemma Around(b: seq<Enrolled>, e: Enrolled) returns (l: seq<Enrolled>, r: seq<Enrolled>)
    requires e in multiset(b)
    ensures b == l + [e] + r
  {
    var i :| 0 <= i < |b| && b[i] == e;
    l, r := b[..i], b[i + 1..];
  }

  lemma SameRest(e: Enrolled, t: seq<Enrolled>, l: seq<Enrolled>, r: seq<Enrolled>)
    requires multiset([e] + t) == multiset(l + [e] + r)
    ensures multiset(t) == multiset(l + r)
  {
    assert multiset(t) == multiset([e] + t) - multiset{e};
    assert multiset(l + r) == multiset(l + [e] + r) - multiset{e};
  }

  lemma SimsWithout(l: seq<Enrolled>, e: Enrolled, r: seq<Enrolled>)
    ensures multiset(Sims(l + [e] + r)) == multiset(Sims(l + r)) + multiset{e.sim}
  {
    assert Sims(l + [e] + r) == Sims(l) + [e.sim] + Sims(r);
    assert Sims(l + r) == Sims(l) + Sims(r);
  }

  /** The verdict does not depend on the order of the enrolled rows. */
  lemma OrderIndependent(a: seq<Enrolled>, b: seq<Enrolled>, negatives: seq<real>, p: Params, pid: string)
    requires multiset(a) == multiset(b) && Acceptable(a, negatives, p, pid)
    ensures Acceptable(b, negatives, p, pid)
  {
    PersonsPermuted(a, b);
    ScorePermuted(a, b, pid);
    forall o | o in Persons(b) ensures Score(b, o) == Score(a, o) { ScorePermuted(a, b, o); }
  }

  /** With a positive margin at most one person is acceptable, so map order and sort ties cannot matter. A
      second acceptable person needs a tie and a margin of zero or less. */
  lemma WinnerUnique(enrolled: seq<Enrolled>, negatives: seq<real>, p: Params, x: string, y: string)
    requires Acceptable(enrolled, negatives, p, x) && x != y
    ensures Acceptable(enrolled, negatives, p, y) <==>
            y in Persons(enrolled) && Score(enrolled, y) == Score(enrolled, x) && p.margin <= 0.0
  {
    if y in Persons(enrolled) && Score(enrolled, y) == Score(enrolled, x) && p.margin <= 0.0 {
      forall o | o in Persons(enrolled) && o != y
        ensures Score(enrolled, o) <= Score(enrolled, y) && Score(enrolled, y) - Score(enrolled, o) >= p.margin
      {
        if o != x { assert Score(enrolled, x) - Score(enrolled, o) >= p.margin; }
      }
    }
  }

  lemma OnlyOne(enrolled: seq<Enrolled>, negatives: seq<real>, p: Params, x: string, y: string)
    requires p.margin > 0.0 && Acceptable(enrolled, negatives, p, x) && Acceptable(enrolled, negatives, p, y)
    ensures x == y
  {
    if x != y { WinnerUnique(enrolled, negatives, p, x, y); }
  }

  /** So with a positive margin two runs of the matcher over the same rows, in whatever order, give the same verdict,
      the same person and the same similarity. */
  lemma VerdictsAgree(a: seq<Enrolled>, b: seq<Enrolled>, negatives: seq<real>, p: Params, r: Option<Match>,
                      s: Option<Match>)
    requires multiset(a) == multiset(b) && p.margin > 0.0
    requires Correct(a, negatives, p, r) && Correct(b, negatives, p, s)
    ensures r.Some? <==> s.Some?
    ensures r.Some? ==> r.value.personId == s.value.personId && r.value.sim == s.value.sim
  {
    if r.Some? {
      OrderIndependent(a, b, negatives, p, r.value.personId);
      if s.Some? {
        ScorePermuted(a, b, r.value.personId);
        OnlyOne(b, negatives, p, r.value.personId, s.value.personId);
      }
    } else if s.Some? {
      OrderIndependent(b, a, negatives, p, s.value.personId);
    }
  }

  lemma OneRowScore(enrolled: seq<Enrolled>, e: Enrolled)
    requires Of(enrolled, e.personId) == [e]
    ensures e.personId in Persons(enrolled) && Score(enrolled, e.personId) == e.sim
  {
    PersonHasSims(enrolled, e.personId);
    var sims := SortedSims([e]);
    assert Sims([e]) == [e.sim];
    assert sims[0] in multiset(sims);
    assert SumFirst(sims, 1) == sims[0];
  }

  lemma OfPair(e: Enrolled, f: Enrolled)
    requires e.personId != f.personId
    ensures Of([e, f], e.personId) == [e] && Of([e, f], f.personId) == [f]
      && Persons([e, f]) == {e.personId, f.personId}
  {
    assert [e, f] == [] + [e] + [f];
    OfGrows([], e, e.personId);
    OfGrows([], e, f.personId);
    OfGrows([] + [e], f, e.personId);
    OfGrows([] + [e], f, f.personId);
  }

  /** Without a margin two people who tie are both acceptable, and the order of the map decides. */
  lemma TieHasTwoWinners(e: Enrolled, f: Enrolled, p: Params)
    requires e.personId != f.personId && e.sim == f.sim >= p.thresh && p.margin <= 0.0
    ensures Acceptable([e, f], [], p, e.personId) && Acceptable([e, f], [], p, f.personId)
  {
    OfPair(e, f);
    OneRowScore([e, f], e);
    OneRowScore([e, f], f);
  }

  /** Stricter settings or more dismissed negatives never turn a rejection into an acceptance. */
  lemma StricterRejectsMore(enrolled: seq<Enrolled>, negatives: seq<real>, more: seq<real>, p: Params, q: Params,
                            pid: string)
    requires p.thresh <= q.thresh && p.margin <= q.margin && p.negW == q.negW
    requires Acceptable(enrolled, negatives + more, q, pid)
    ensures Acceptable(enrolled, negatives, p, pid)
  {
    SmallerPenalty(Score(enrolled, pid), negatives, more, p.negW, p.thresh, q.thresh);
    LeadsByLess(enrolled, pid, p.margin, q.margin);
  }

  lemma LeadsByLess(enrolled: seq<Enrolled>, pid: string, low: real, high: real)
    requires pid in Persons(enrolled) && Leads(enrolled, pid, high) && low <= high
    ensures Leads(enrolled, pid, low)
  {
  }

  lemma SmallerPenalty(score: real, negatives: seq<real>, more: seq<real>, w: real, low: real, high: real)
    requires low <= high
    requires Clears(score, negatives + more, w, high)
    ensures Clears(score, negatives, w, low)
  {
    assert negatives != [] ==> |negatives + more| > 0;
    NegMaxGrows(negatives, more);
    if w > 0.0 { WeakerPenalty(score, w, NegMax(negatives), NegMax(negatives + more), low, high); }
  }

  lemma WeakerPenalty(score: real, w: real, m: real, n: real, low: real, high: real)
    requires m <= n && low <= high && w > 0.0
    ensures score - w * n >= high ==> score - w * m >= low
  {
    Scaled(w, m, n);
  }

  lemma NegMaxGrows(negatives: seq<real>, more: seq<real>)
    ensures NegMax(negatives) <= NegMax(negatives + more)
  {
    var m := NegMax(negatives);
    assert m in negatives ==> m in negatives + more;
  }

  lemma Scaled(w: real, m: real, n: real)
    requires w > 0.0 && m <= n
    ensures w * m <= w * n
  {
  }
}
