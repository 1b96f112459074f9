/** The acceptance rules for one probe, in terms of the enrolled rows. */
module ScoreMeaning {
  import opened Ordering
  import opened ScoreProbe

  ghost function RowsWith(enrolled: seq<Enrolled>, pid: string, sim: real): set<nat> {
    set k: nat | k < |enrolled| && enrolled[k].personId == pid && enrolled[k].sim == sim
  }

  ghost predicate HasRow(enrolled: seq<Enrolled>, pid: string) {
    exists k :: 0 <= k < |enrolled| && enrolled[k].personId == pid
  }

  /** The mean of one, two or three numbers. */
  predicate IsMean(m: real, top: seq<real>) {
    || (|top| == 1 && m == top[0])
    || (|top| == 2 && m + m == top[0] + top[1])
    || (|top| == 3 && m + m + m == top[0] + top[1] + top[2])
  }

  /** `top` and `rest` are together the person's cosines, row for row; no more than three are in `top`, and those left
      out are no better. */
  ghost predicate BestThree(enrolled: seq<Enrolled>, pid: string, top: seq<real>, rest: seq<real>) {
    && (forall v :: multiset(top + rest)[v] == |RowsWith(enrolled, pid, v)|)
    && (rest != [] ==> |top| == 3)
    && forall t, r :: t in top && r in rest ==> r <= t
  }

  lemma {:induction false} SimsCount(es: seq<Enrolled>, v: real)
    ensures multiset(Sims(es))[v] == |Filter((e: Enrolled) => e.sim == v, es)|
  {
    if es != [] {
      var n := |es| - 1;
      SimsCount(es[..n], v);
      FilterLast((e: Enrolled) => e.sim == v, es);
      assert Sims(es) == Sims(es[..n]) + [es[n].sim];
    } else {
      assert Sims(es) == [];
    }
  }

  lemma PersonSims(enrolled: seq<Enrolled>, pid: string, v: real)
    ensures multiset(Sims(Of(enrolled, pid)))[v] == |RowsWith(enrolled, pid, v)|
  {
    var r := (e: Enrolled) => e.personId == pid && e.sim == v;
    SimsCount(Of(enrolled, pid), v);
    FilterTwice((e: Enrolled) => e.personId == pid, (e: Enrolled) => e.sim == v, r, enrolled);
    FilterCounts(r, enrolled);
    assert Where(r, enrolled) == RowsWith(enrolled, pid, v);
  }

  lemma FirstThree(s: seq<real>)
    requires s != []
    ensures IsMean(TopMean(s), if |s| < 3 then s else s[..3])
  {
    assert SumFirst(s, 0) == 0.0 && SumFirst(s, 1) == s[0];
    if |s| >= 2 { assert SumFirst(s, 2) == s[0] + s[1]; }
    if |s| >= 3 { assert SumFirst(s, 3) == s[0] + s[1] + s[2]; }
  }

  /** Main result: a person's score is the mean of their three best cosines, or of all when there are fewer. */
  lemma ScoreMeans(enrolled: seq<Enrolled>, pid: string) returns (top: seq<real>, rest: seq<real>)
    requires HasRow(enrolled, pid)
    ensures pid in Persons(enrolled)
    ensures BestThree(enrolled, pid, top, rest) && IsMean(Score(enrolled, pid), top)
  {
    PersonHasSims(enrolled, pid);
    var s := SortedSims(Of(enrolled, pid));
    top, rest := if |s| < 3 then s else s[..3], if |s| < 3 then [] else s[3..];
    assert top + rest == s;
    forall v ensures multiset(top + rest)[v] == |RowsWith(enrolled, pid, v)| { PersonSims(enrolled, pid, v); }
    FirstThree(s);
  }

  /** Every other person with a row trails by the margin. */
  ghost predicate Ahead(enrolled: seq<Enrolled>, pid: string, margin: real)
    requires pid in Persons(enrolled)
  {
    forall o :: o != pid && HasRow(enrolled, o) ==>
      o in Persons(enrolled)
      && Score(enrolled, o) <= Score(enrolled, pid) && Score(enrolled, o) + margin <= Score(enrolled, pid)
  }

  lemma Persona(enrolled: seq<Enrolled>, pid: string)
    ensures pid in Persons(enrolled) <==> HasRow(enrolled, pid)
  {
    if pid in Persons(enrolled) {
      var e :| e in enrolled && e.personId == pid;
      var k :| 0 <= k < |enrolled| && enrolled[k] == e;
    }
  }

  /** The penalty looks at each dismissed negative by itself. */
  lemma ClearsEach(score: real, negatives: seq<real>, negW: real, thresh: real)
    requires score >= thresh
    ensures Clears(score, negatives, negW, thresh) <==>
            (negW > 0.0 ==> forall n :: n in negatives ==> score - negW * n >= thresh)
  {
    var m := NegMax(negatives);
    if negW > 0.0 {
      forall n | n in negatives ensures score - negW * m >= thresh ==> score - negW * n >= thresh {
        WeakerPenalty(score, negW, n, m, thresh, thresh);
      }
      if negatives != [] && m == 0.0 { assert negW * m == 0.0; }
    }
  }

  /** Main result: a person is acceptable exactly when they have rows, their score reaches the threshold and leads every
      other person's by the margin, and no single dismissed negative, weighted, takes it under the threshold. */
  lemma AcceptableExactly(enrolled: seq<Enrolled>, negatives: seq<real>, p: Params, pid: string)
    ensures Acceptable(enrolled, negatives, p, pid) <==>
            && pid in Persons(enrolled) && HasRow(enrolled, pid)
            && Score(enrolled, pid) >= p.thresh
            && Ahead(enrolled, pid, p.margin)
            && (p.negW > 0.0 ==> forall n :: n in negatives ==> Score(enrolled, pid) - p.negW * n >= p.thresh)
  {
    Persona(enrolled, pid);
    forall o { Persona(enrolled, o); }
    if pid in Persons(enrolled) && Score(enrolled, pid) >= p.thresh {
      ClearsEach(Score(enrolled, pid), negatives, p.negW, p.thresh);
    }
  }
}
