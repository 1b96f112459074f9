/** Enrolment diversity pruning: the greedy selection again, with a fixed pool and a cap. */
module EnrolPrune {
  import opened Arithmetic
  import opened Greedy

  /** How many a cap of maxNew leaves of n; a cap of zero or less leaves none. */
  function Capped(n: nat, maxNew: int): (m: nat)
    ensures m <= n
  {
    if maxNew < 0 then 0 else Min(n, maxNew)
  }

  /** PruneEnrolBatch, with similar(a, b) standing for cosine similarity above maxSim. */
  method PruneEnrolBatch<V(!new)>(existing: seq<V>, cands: seq<V>, similar: (V, V) -> bool, maxNew: int)
    returns (keep: seq<nat>, skipped: int)
    ensures var all := Chosen(cands, Near(existing, similar), similar);
            keep == all[..Capped(|all|, maxNew)]
    ensures skipped == |cands| - |keep|
  {
    ghost var near := Near(existing, similar);
    keep, skipped := [], 0;
    var kept: seq<V> := [];
    var i := 0;
    while i < |cands|
      invariant i <= |cands|
      invariant keep == Chosen(cands[..i], near, similar)
      invariant |keep| == Capped(|keep|, maxNew)
      invariant Within(keep, |cands|) && kept == Pick(cands, keep)
      invariant skipped == i - |keep|
    {
      ChosenPrefix(cands, near, similar, i);
      PruneStep(existing, cands, similar, i, keep);
      if |keep| >= maxNew {
        skipped := skipped + (|cands| - i);
        return;
      }
      var c := cands[i];
      var dup := Scan(similar, existing, c);
      if !dup {
        dup := Scan(similar, kept, c);
      }
      if dup {
        skipped := skipped + 1;
      } else {
        keep := keep + [i];
        kept := kept + [c];
      }
      i := i + 1;
    }
    assert cands[..|cands|] == cands;
  }

  /** The next candidate of the greedy selection. */
  lemma PruneStep<V(!new)>(existing: seq<V>, cands: seq<V>, similar: (V, V) -> bool, i: nat, keep: seq<nat>)
    requires i < |cands| && keep == Chosen(cands[..i], Near(existing, similar), similar) && Within(keep, |cands|)
    ensures Chosen(cands[..i + 1], Near(existing, similar), similar) ==
              if Touches(similar, existing, cands[i]) || Touches(similar, Pick(cands, keep), cands[i]) then keep
              else keep + [i]
    ensures Within(keep + [i], |cands|) && Pick(cands, keep + [i]) == Pick(cands, keep) + [cands[i]]
  {
    ChosenStep(cands, Near(existing, similar), similar, i);
  }

  /** What was chosen from a prefix is never revised by later candidates. */
  lemma {:induction false} ChosenPrefix<V(!new)>(xs: seq<V>, dup: V -> bool, over: (V, V) -> bool, n: nat)
    requires n <= |xs|
    ensures Chosen(xs[..n], dup, over) <= Chosen(xs, dup, over)
    decreases |xs| - n
  {
    if n < |xs| {
      assert xs[..n + 1][..n] == xs[..n];
      ChosenPrefix(xs, dup, over, n + 1);
    } else {
      assert xs[..n] == xs;
    }
  }

  function Near<V>(existing: seq<V>, similar: (V, V) -> bool): V -> bool {
    c => Touches(similar, existing, c)
  }

  /** What the comment promises skipped to count: the candidates that were looked at, the cap not being reached, and
      turned down for similarity. */
  function Rejected<V(!new)>(existing: seq<V>, cands: seq<V>, similar: (V, V) -> bool, maxNew: int): nat {
    if cands == [] then 0
    else
      var n := |cands| - 1;
      var before := Chosen(cands[..n], Near(existing, similar), similar);
      Rejected(existing, cands[..n], similar, maxNew)
        + (if |before| < maxNew && Chosen(cands, Near(existing, similar), similar) == before then 1 else 0)
  }

  /** The cap is reached before candidate i is looked at. */
  ghost predicate CutAt<V(!new)>(existing: seq<V>, cands: seq<V>, similar: (V, V) -> bool, maxNew: int, i: nat)
    requires i < |cands|
  {
    |Chosen(cands[..i], Near(existing, similar), similar)| >= maxNew
  }

  lemma CutPrefix<V(!new)>(existing: seq<V>, cands: seq<V>, similar: (V, V) -> bool, maxNew: int, n: nat)
    requires n <= |cands|
    ensures forall i :: 0 <= i < n ==>
      (CutAt(existing, cands[..n], similar, maxNew, i) <==> CutAt(existing, cands, similar, maxNew, i))
  {
    forall i | 0 <= i < n
      ensures CutAt(existing, cands[..n], similar, maxNew, i) <==> CutAt(existing, cands, similar, maxNew, i)
    {
      assert cands[..n][..i] == cands[..i];
    }
  }

  /** A candidate leaves the selection as it was or adds itself. */
  lemma ChosenGrowth<V(!new)>(xs: seq<V>, dup: V -> bool, over: (V, V) -> bool)
    requires xs != []
    ensures var before, after := Chosen(xs[..|xs| - 1], dup, over), Chosen(xs, dup, over);
            after == before || (after != before && |after| == |before| + 1)
  {
  }

  /** Counted in any case: the rejected ones, and one for every candidate the cap shuts out. */
  lemma {:induction false} SkippedSplits<V(!new)>(existing: seq<V>, cands: seq<V>, similar: (V, V) -> bool, maxNew: int)
    returns (cut: nat)
    ensures |cands| - Capped(|Chosen(cands, Near(existing, similar), similar)|, maxNew) ==
      Rejected(existing, cands, similar, maxNew) + cut
    ensures cut == 0 <==> forall i :: 0 <= i < |cands| ==> !CutAt(existing, cands, similar, maxNew, i)
  {
    cut := 0;
    if cands != [] {
      var n := |cands| - 1;
      cut := SkippedSplits(existing, cands[..n], similar, maxNew);
      CutPrefix(existing, cands, similar, maxNew, n);
      ChosenGrowth(cands, Near(existing, similar), similar);
      if CutAt(existing, cands, similar, maxNew, n) { cut := cut + 1; }
    }
  }

  /** The comment's promise holds exactly when the cap never cuts: no candidate comes after maxNew were kept. */
  lemma SkippedCountsRejectedOnly<V(!new)>(existing: seq<V>, cands: seq<V>, similar: (V, V) -> bool, maxNew: int,
                                           keep: seq<nat>, skipped: int)
    requires var all := Chosen(cands, Near(existing, similar), similar); keep == all[..Capped(|all|, maxNew)]
    requires skipped == |cands| - |keep|
    ensures skipped == Rejected(existing, cands, similar, maxNew) <==>
              forall i :: 0 <= i < |cands| ==> !CutAt(existing, cands, similar, maxNew, i)
  {
    var cut := SkippedSplits(existing, cands, similar, maxNew);
  }

  /** Two equal candidates and room for one: nothing is compared and rejected, yet one is counted. */
  lemma OverCapIsCounted()
    ensures var same := (a: int, b: int) => a == b;
            var all := Chosen([5, 5], Near([], same), same);
            Rejected([], [5, 5], same, 1) == 0 && |[5, 5]| - |all[..Capped(|all|, 1)]| == 1
  {
    var same := (a: int, b: int) => a == b;
    assert [5, 5][..1] == [5] && [5][..0] == [];
    assert Chosen([5], Near([], same), same) == [0];
  }

  /** Kept candidates are pairwise dissimilar and new to the pool, and the kept list is the longest prefix
      of the unique greedy selection that the cap allows. */
  lemma PruneMeaning<V(!new)>(existing: seq<V>, cands: seq<V>, similar: (V, V) -> bool, maxNew: int, keep: seq<nat>)
    requires var all := Chosen(cands, Near(existing, similar), similar);
             keep == all[..Capped(|all|, maxNew)]
    ensures |keep| <= Capped(|cands|, maxNew) && Increasing(keep) && Within(keep, |cands|)
    ensures forall k :: 0 <= k < |keep| ==> !Touches(similar, existing, cands[keep[k]])
    ensures forall j, k :: 0 <= j < k < |keep| ==> !similar(cands[keep[k]], cands[keep[j]])
    ensures |keep| < Capped(|cands|, maxNew) ==>
              forall j: nat :: j < |cands| && j !in keep ==>
                Touches(similar, existing, cands[j]) || exists i :: i in keep && i < j && similar(cands[j], cands[i])
  {
    var dup := Near(existing, similar);
    var all := Chosen(cands, dup, similar);
    ChosenIsStable(cands, dup, similar);
    forall k | 0 <= k < |keep| ensures keep[k] in Elements(all) { assert all[k] in all; }
    if |keep| < Capped(|cands|, maxNew) {
      assert keep == all;
      forall j: nat | j < |cands| && j !in keep
        ensures Touches(similar, existing, cands[j]) || exists i :: i in keep && i < j && similar(cands[j], cands[i])
      {
        assert j !in Elements(all);
        if !dup(cands[j]) {
          var i :| i in Elements(all) && i < j && similar(cands[j], cands[i]);
          assert i in keep;
        }
      }
    }
  }
}
