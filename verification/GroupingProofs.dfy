/** What the plan list means: an order-independent partition with unique group ids. */
module GroupingProofs {
  import opened Ordering
  import opened Text
  import opened Grouping
  import opened Arithmetic

  ghost predicate IsChunk(g: GroupPlan, key: string, k: nat, ms: seq<Camera>, max: nat) {
    k * max < |ms| && g == GroupPlan(key + "-" + Dec(k), ms[k * max..Min(|ms|, k * max + max)], false)
  }

  ghost predicate IsSingle(g: GroupPlan, c: Camera, q: set<string>, p: set<string>) {
    c.id !in q && !Batchable(c, q, p) && g == Single(c, p)
  }

  /** The declarative reading of the grouping rules; it looks only at which cameras there are. */
  ghost predicate IsGroup(g: GroupPlan, cams: seq<Camera>, q: set<string>, p: set<string>, groupMax: int) {
    || IsBespoke(g, cams, q, p)
    || IsBatch(g, cams, q, p, GroupMax(groupMax))
  }

  ghost predicate IsBespoke(g: GroupPlan, cams: seq<Camera>, q: set<string>, p: set<string>) {
    exists c :: c in cams && IsSingle(g, c, q, p)
  }

  ghost predicate IsBatch(g: GroupPlan, cams: seq<Camera>, q: set<string>, p: set<string>, max: nat) {
    exists key, k: nat :: IsChunk(g, key, k, MembersOf(cams, key, q, p), max)
  }

  lemma {:induction false} SinglesAre(cams: seq<Camera>, q: set<string>, p: set<string>, g: GroupPlan)
    ensures g in Singles(cams, q, p) <==> IsBespoke(g, cams, q, p)
  {
    if cams != [] {
      var rest := Singles(cams[1..], q, p);
      SinglesAre(cams[1..], q, p, g);
      assert g in Singles(cams, q, p) <==> IsSingle(g, cams[0], q, p) || g in rest;
      if IsSingle(g, cams[0], q, p) {
        assert cams[0] in cams;
      } else if IsBespoke(g, cams[1..], q, p) {
        var c :| c in cams[1..] && IsSingle(g, c, q, p);
        assert c in cams;
      }
    }
  }

  lemma ChunksFirst(key: string, ms: seq<Camera>, max: nat, chunk: nat, off: nat, g: GroupPlan)
    requires max >= 1 && off == chunk * max < |ms|
    ensures g in Chunks(key, ms, max, chunk, off) <==>
            IsChunk(g, key, chunk, ms, max) || g in Chunks(key, ms, max, chunk + 1, off + max)
  {
  }

  lemma {:induction false} ChunksAre(key: string, ms: seq<Camera>, max: nat, chunk: nat, g: GroupPlan)
    requires max >= 1
    ensures g in Chunks(key, ms, max, chunk, chunk * max) <==>
            exists k: nat :: chunk <= k && IsChunk(g, key, k, ms, max)
    decreases |ms| - chunk * max
  {
    var off := chunk * max;
    assert (chunk + 1) * max == off + max;
    if off < |ms| {
      ChunksAre(key, ms, max, chunk + 1, g);
      ChunksFirst(key, ms, max, chunk, off, g);
    } else {
      forall k: nat | chunk <= k ensures !IsChunk(g, key, k, ms, max) {
        MulMonotone(chunk, k, max);
      }
    }
  }

  ghost predicate IsListedBatch(g: GroupPlan, keys: seq<string>, cams: seq<Camera>, q: set<string>, p: set<string>,
                                max: nat) {
    exists key, k: nat :: key in keys && IsChunk(g, key, k, MembersOf(cams, key, q, p), max)
  }

  lemma {:induction false} BatchPlansAre(keys: seq<string>, cams: seq<Camera>, q: set<string>, p: set<string>, max: nat,
                                         g: GroupPlan)
    requires max >= 1
    ensures g in BatchPlans(keys, cams, q, p, max) <==>
            IsListedBatch(g, keys, cams, q, p, max)
  {
    if keys != [] {
      BatchPlansAre(keys[1..], cams, q, p, max, g);
      ChunksAre(keys[0], MembersOf(cams, keys[0], q, p), max, 0, g);
      assert forall k :: k in keys <==> k == keys[0] || k in keys[1..];
    }
  }

  /** The code's list holds exactly the groups of the declarative reading. */
  lemma PlanAreGroups(cams: seq<Camera>, q: set<string>, p: set<string>, groupMax: int, g: GroupPlan)
    ensures g in Plan(cams, q, p, groupMax) <==> IsGroup(g, cams, q, p, groupMax)
  {
    SinglesAre(cams, q, p, g);
    KeysListed(cams, q, p);
    BatchesAre(SetOf(BatchKeys(cams, q, p)), cams, q, p, GroupMax(groupMax), g);
  }

  lemma {:induction false} BatchKeysListed(cams: seq<Camera>, q: set<string>, p: set<string>, c: Camera)
    requires c in cams && Batchable(c, q, p)
    ensures ShapeKey(c) in BatchKeys(cams, q, p)
  {
    var n := |cams| - 1;
    assert cams == cams[..n] + [cams[n]];
    if c != cams[n] { BatchKeysListed(cams[..n], q, p, c); }
  }

  lemma KeyListed(cams: seq<Camera>, q: set<string>, p: set<string>, key: string)
    requires MembersOf(cams, key, q, p) != []
    ensures key in SetOf(BatchKeys(cams, q, p))
  {
    var c := MembersOf(cams, key, q, p)[0];
    assert c in MembersOf(cams, key, q, p);
    BatchKeysListed(cams, q, p, c);
  }

  ghost predicate ListsKeys(keys: seq<string>, cams: seq<Camera>, q: set<string>, p: set<string>) {
    forall key :: MembersOf(cams, key, q, p) != [] ==> key in keys
  }

  lemma KeysListed(cams: seq<Camera>, q: set<string>, p: set<string>)
    ensures ListsKeys(SetOf(BatchKeys(cams, q, p)), cams, q, p)
  {
    forall key | MembersOf(cams, key, q, p) != [] ensures key in SetOf(BatchKeys(cams, q, p)) {
      KeyListed(cams, q, p, key);
    }
  }

  lemma ChunkNeedsMembers(g: GroupPlan, key: string, k: nat, ms: seq<Camera>, max: nat)
    requires IsChunk(g, key, k, ms, max)
    ensures ms != []
  {
    MulMonotone(0, k, max);
  }

  lemma BatchesAre(keys: seq<string>, cams: seq<Camera>, q: set<string>, p: set<string>, max: nat, g: GroupPlan)
    requires max >= 1 && ListsKeys(keys, cams, q, p)
    ensures g in BatchPlans(keys, cams, q, p, max) <==> IsBatch(g, cams, q, p, max)
  {
    assert IsBatch(g, cams, q, p, max) ==> IsListedBatch(g, keys, cams, q, p, max) by {
      if IsBatch(g, cams, q, p, max) {
        var key, k: nat :| IsChunk(g, key, k, MembersOf(cams, key, q, p), max);
        ChunkNeedsMembers(g, key, k, MembersOf(cams, key, q, p), max);
        assert key in keys;
      }
    }
    BatchPlansAre(keys, cams, q, p, max, g);
  }

  // ---- Group ids are unique -------------------------------------------------------------

  lemma MembersNoDuplicates(cams: seq<Camera>, key: string, q: set<string>, p: set<string>)
    requires DistinctIds(cams)
    ensures NoDuplicates(MembersOf(cams, key, q, p))
    ensures StrictlySorted(CamLess, MembersOf(cams, key, q, p))
  {
    var ms := MembersOf(cams, key, q, p);
    FilterNoDuplicates(c => Batchable(c, q, p) && ShapeKey(c) == key, cams);
    NoDuplicatesFromMultiset(Shared(cams, key, q, p), ms);
    forall i, j | 0 <= i < j < |ms| ensures CamLess(ms[i], ms[j]) {
      assert ms[i] in cams && ms[j] in cams;
      StrLessTrichotomy(ms[i].id, ms[j].id);
    }
  }

  lemma PrefixedId(pre: string, a: string, b: string)
    requires pre + a == pre + b
    ensures a == b
  {
    assert a == (pre + a)[|pre|..] && b == (pre + b)[|pre|..];
  }

  lemma ChunkIdNotPrefixed(key: string, k: nat, pre: string, id: string)
    requires pre == "solo-" || pre == "probation-"
    requires key + "-" + Dec(k) == pre + id
    ensures KeyClash(key)
  {
    var s := key + "-" + Dec(k);
    assert s == pre + id;
    var m := |pre| - 1;
    assert s[m] == '-' && pre[m] == '-';
    assert forall i :: |key| < i < |s| ==> s[i] == Dec(k)[i - |key| - 1];
    assert forall i :: 0 <= i < |Dec(k)| ==> Dec(k)[i] in Dec(k);
    assert forall i :: |key| < i < |s| ==> s[i] != '-';
    assert m <= |key|;
    assert forall i :: 0 <= i < |pre| ==> (key + "-")[i] == s[i] == pre[i];
    assert pre <= key + "-";
  }

  /** The guard on shape keys is exact: a clashing key does collide with some camera's own group. */
  lemma ClashIsReal(key: string)
    ensures KeyClash(key) <==>
            exists id: string, k: nat :: key + "-" + Dec(k) == "solo-" + id || key + "-" + Dec(k) == "probation-" + id
  {
    if KeyClash(key) {
      var s := key + "-" + Dec(0);
      assert s == (key + "-") + Dec(0);
      if "solo-" <= key + "-" {
        assert s == "solo-" + s[5..];
      } else {
        assert s == "probation-" + s[10..];
      }
    }
    forall id: string, k: nat | key + "-" + Dec(k) == "solo-" + id ensures KeyClash(key) {
      ChunkIdNotPrefixed(key, k, "solo-", id);
    }
    forall id: string, k: nat | key + "-" + Dec(k) == "probation-" + id ensures KeyClash(key) {
      ChunkIdNotPrefixed(key, k, "probation-", id);
    }
  }

  lemma ChunkKeyOk(cams: seq<Camera>, q: set<string>, p: set<string>, g: GroupPlan, key: string, k: nat, max: nat)
    requires NoClash(cams)
    requires IsChunk(g, key, k, MembersOf(cams, key, q, p), max)
    ensures !KeyClash(key)
  {
    var ms := MembersOf(cams, key, q, p);
    assert ms[0] in ms;
    assert ms[0] in cams;
  }

  lemma ChunkIdsDiffer(key: string, k: nat, key': string, k': nat)
    requires key + "-" + Dec(k) == key' + "-" + Dec(k')
    ensures key == key' && k == k'
  {
    LastFieldUnique('-', key, Dec(k), key', Dec(k'));
    DecInjective(k, k');
  }

  lemma SingleIdsDiffer(c: Camera, d: Camera, p: set<string>)
    requires Single(c, p).groupId == Single(d, p).groupId
    ensures c.id == d.id
  {
    var a, b := Single(c, p).groupId, Single(d, p).groupId;
    if c.id in p {
      assert a[0] == 'p';
      assert d.id in p;
      PrefixedId("probation-", c.id, d.id);
    } else {
      assert a[0] == 's';
      assert d.id !in p;
      PrefixedId("solo-", c.id, d.id);
    }
  }

  lemma IdsUnique(cams: seq<Camera>, q: set<string>, p: set<string>, groupMax: int, g: GroupPlan, h: GroupPlan)
    requires DistinctIds(cams) && NoClash(cams)
    requires IsGroup(g, cams, q, p, groupMax) && IsGroup(h, cams, q, p, groupMax)
    requires g.groupId == h.groupId
    ensures g == h
  {
    var max := GroupMax(groupMax);
    if IsBespoke(g, cams, q, p) {
      if IsBespoke(h, cams, q, p) {
        BespokeIdsUnique(cams, q, p, g, h);
      } else {
        BespokeNotBatch(cams, q, p, max, g, h);
      }
    } else if IsBespoke(h, cams, q, p) {
      BespokeNotBatch(cams, q, p, max, h, g);
    } else {
      BatchIdsUnique(cams, q, p, max, g, h);
    }
  }

  lemma BespokeIdsUnique(cams: seq<Camera>, q: set<string>, p: set<string>, g: GroupPlan, h: GroupPlan)
    requires DistinctIds(cams) && IsBespoke(g, cams, q, p) && IsBespoke(h, cams, q, p) && g.groupId == h.groupId
    ensures g == h
  {
    var c :| c in cams && IsSingle(g, c, q, p);
    var d :| d in cams && IsSingle(h, d, q, p);
    SingleIdsDiffer(c, d, p);
  }

  lemma BespokeNotBatch(cams: seq<Camera>, q: set<string>, p: set<string>, max: nat, g: GroupPlan, h: GroupPlan)
    requires NoClash(cams) && IsBespoke(g, cams, q, p) && IsBatch(h, cams, q, p, max)
    ensures g.groupId != h.groupId
  {
    var c :| c in cams && IsSingle(g, c, q, p);
    SingleNotChunk(cams, q, p, max, g, c, h);
  }

  lemma BatchIdsUnique(cams: seq<Camera>, q: set<string>, p: set<string>, max: nat, g: GroupPlan, h: GroupPlan)
    requires IsBatch(g, cams, q, p, max) && IsBatch(h, cams, q, p, max) && g.groupId == h.groupId
    ensures g == h
  {
    var key, k: nat :| IsChunk(g, key, k, MembersOf(cams, key, q, p), max);
    var key', k': nat :| IsChunk(h, key', k', MembersOf(cams, key', q, p), max);
    SameChunk(g, h, key, k, MembersOf(cams, key, q, p), key', k', MembersOf(cams, key', q, p), max);
  }

  lemma SameChunk(g: GroupPlan, h: GroupPlan, key: string, k: nat, ms: seq<Camera>, key': string, k': nat,
                  ms': seq<Camera>, max: nat)
    requires IsChunk(g, key, k, ms, max) && IsChunk(h, key', k', ms', max) && g.groupId == h.groupId
    requires key == key' ==> ms == ms'
    ensures g == h
  {
    ChunkIdsDiffer(key, k, key', k');
  }

  lemma SingleNotChunk(cams: seq<Camera>, q: set<string>, p: set<string>, max: nat, g: GroupPlan, c: Camera,
                       h: GroupPlan)
    requires NoClash(cams) && IsSingle(g, c, q, p)
    requires IsBatch(h, cams, q, p, max)
    ensures g.groupId != h.groupId
  {
    var key, k: nat :| IsChunk(h, key, k, MembersOf(cams, key, q, p), max);
    ChunkKeyOk(cams, q, p, h, key, k, max);
    if g.groupId == h.groupId {
      ChunkIdNotPrefixed(key, k, if c.id in p then "probation-" else "solo-", c.id);
    }
  }

  // ---- The plan list is strictly ordered by group id -------------------------------------

  lemma {:induction false} SinglesNoDuplicates(cams: seq<Camera>, q: set<string>, p: set<string>)
    requires DistinctIds(cams)
    ensures NoDuplicates(Singles(cams, q, p))
  {
    if cams != [] {
      SinglesNoDuplicates(cams[1..], q, p);
      var g := Single(cams[0], p);
      SinglesAre(cams[1..], q, p, g);
      forall c | c in cams[1..] ensures !IsSingle(g, c, q, p) {
        assert g.members == [cams[0]] && Single(c, p).members == [c];
      }
    }
  }

  lemma {:induction false} ChunksNoDuplicates(key: string, ms: seq<Camera>, max: nat, chunk: nat)
    requires max >= 1
    ensures NoDuplicates(Chunks(key, ms, max, chunk, chunk * max))
    decreases |ms| - chunk * max
  {
    var off := chunk * max;
    assert (chunk + 1) * max == off + max;
    if off < |ms| {
      ChunksNoDuplicates(key, ms, max, chunk + 1);
      var first := GroupPlan(key + "-" + Dec(chunk), ms[off..Min(|ms|, off + max)], false);
      ChunksAre(key, ms, max, chunk + 1, first);
      forall k: nat | chunk + 1 <= k ensures !IsChunk(first, key, k, ms, max) {
        if key + "-" + Dec(chunk) == key + "-" + Dec(k) { ChunkIdsDiffer(key, chunk, key, k); }
      }
    }
  }

  lemma NoDuplicatesConcat<T>(a: seq<T>, b: seq<T>)
    requires NoDuplicates(a) && NoDuplicates(b)
    requires forall x :: x in a ==> x !in b
    ensures NoDuplicates(a + b)
  {
    var s := a + b;
    forall i, j | 0 <= i < j < |s| ensures s[i] != s[j] {
      if i < |a| <= j { assert s[i] in a && s[j] in b; }
    }
  }

  lemma NotInRest(key: string, rest: seq<string>, cams: seq<Camera>, q: set<string>, p: set<string>, max: nat,
                  g: GroupPlan)
    requires max >= 1 && key !in rest && g in Chunks(key, MembersOf(cams, key, q, p), max, 0, 0)
    ensures g !in BatchPlans(rest, cams, q, p, max)
  {
    var ms := MembersOf(cams, key, q, p);
    ChunksAre(key, ms, max, 0, g);
    var k: nat :| IsChunk(g, key, k, ms, max);
    BatchPlansAre(rest, cams, q, p, max, g);
    forall key', k': nat | key' in rest ensures !IsChunk(g, key', k', MembersOf(cams, key', q, p), max) {
      OtherKey(g, key, k, ms, key', k', MembersOf(cams, key', q, p), max);
    }
  }

  lemma OtherKey(g: GroupPlan, key: string, k: nat, ms: seq<Camera>, key': string, k': nat, ms': seq<Camera>, max: nat)
    requires IsChunk(g, key, k, ms, max) && key != key'
    ensures !IsChunk(g, key', k', ms', max)
  {
    if key + "-" + Dec(k) == key' + "-" + Dec(k') { ChunkIdsDiffer(key, k, key', k'); }
  }

  lemma {:induction false} BatchPlansNoDuplicates(keys: seq<string>, cams: seq<Camera>, q: set<string>, p: set<string>,
                                                  max: nat)
    requires max >= 1 && NoDuplicates(keys)
    ensures NoDuplicates(BatchPlans(keys, cams, q, p, max))
  {
    if keys != [] {
      var ms := MembersOf(cams, keys[0], q, p);
      var first, rest := Chunks(keys[0], ms, max, 0, 0), BatchPlans(keys[1..], cams, q, p, max);
      ChunksNoDuplicates(keys[0], ms, max, 0);
      BatchPlansNoDuplicates(keys[1..], cams, q, p, max);
      forall g | g in first ensures g !in rest {
        assert keys[0] !in keys[1..];
        NotInRest(keys[0], keys[1..], cams, q, p, max, g);
      }
      NoDuplicatesConcat(first, rest);
    }
  }

  lemma BatchNotSingle(cams: seq<Camera>, q: set<string>, p: set<string>, max: nat, g: GroupPlan)
    requires DistinctIds(cams) && max >= 1 && IsBatch(g, cams, q, p, max)
    ensures !IsBespoke(g, cams, q, p)
  {
    BatchMembersBatchable(cams, q, p, max, g);
    forall c ensures IsSingle(g, c, q, p) ==> c in g.members && !Batchable(c, q, p) {}
  }

  lemma UnsortedNoDuplicates(cams: seq<Camera>, q: set<string>, p: set<string>, groupMax: int)
    requires DistinctIds(cams)
    ensures NoDuplicates(Unsorted(cams, q, p, groupMax))
  {
    var max, keys := GroupMax(groupMax), SetOf(BatchKeys(cams, q, p));
    SinglesNoDuplicates(cams, q, p);
    StrLessIsOrder();
    BatchPlansNoDuplicates(keys, cams, q, p, max);
    KeysListed(cams, q, p);
    forall g | g in Singles(cams, q, p) ensures g !in BatchPlans(keys, cams, q, p, max) {
      SinglesAre(cams, q, p, g);
      BatchesAre(keys, cams, q, p, max, g);
      if IsBatch(g, cams, q, p, max) { BatchNotSingle(cams, q, p, max, g); }
    }
    NoDuplicatesConcat(Singles(cams, q, p), BatchPlans(keys, cams, q, p, max));
  }

  /** Group ids are unique, so the final sort leaves the list no freedom. */
  lemma PlanStrict(cams: seq<Camera>, q: set<string>, p: set<string>, groupMax: int)
    requires DistinctIds(cams) && NoClash(cams)
    ensures StrictlySorted(PlanLess, Plan(cams, q, p, groupMax))
  {
    UnsortedNoDuplicates(cams, q, p, groupMax);
    SortedGroupsStrict(cams, q, p, groupMax, Plan(cams, q, p, groupMax));
  }

  lemma SortedGroupsStrict(cams: seq<Camera>, q: set<string>, p: set<string>, groupMax: int, r: seq<GroupPlan>)
    requires DistinctIds(cams) && NoClash(cams)
    requires multiset(r) == multiset(Unsorted(cams, q, p, groupMax)) && Sorted(PlanLess, r)
    ensures StrictlySorted(PlanLess, r)
  {
    UnsortedNoDuplicates(cams, q, p, groupMax);
    NoDuplicatesFromMultiset(Unsorted(cams, q, p, groupMax), r);
    forall i, j | 0 <= i < j < |r| ensures PlanLess(r[i], r[j]) {
      assert r[i] in multiset(r) && r[j] in multiset(r);
      assert r[i] in Plan(cams, q, p, groupMax) && r[j] in Plan(cams, q, p, groupMax);
      PlanAreGroups(cams, q, p, groupMax, r[i]);
      PlanAreGroups(cams, q, p, groupMax, r[j]);
      if r[i].groupId == r[j].groupId { IdsUnique(cams, q, p, groupMax, r[i], r[j]); }
      StrLessTrichotomy(r[i].groupId, r[j].groupId);
    }
  }

  /** Whatever order an unstable sort leaves the groups in, it is the specified list. */
  lemma SortGivesPlan(cams: seq<Camera>, q: set<string>, p: set<string>, groupMax: int, r: seq<GroupPlan>)
    requires DistinctIds(cams) && NoClash(cams)
    requires multiset(r) == multiset(Unsorted(cams, q, p, groupMax)) && Sorted(PlanLess, r)
    ensures r == Plan(cams, q, p, groupMax)
  {
    var plan := Plan(cams, q, p, groupMax);
    SortedGroupsStrict(cams, q, p, groupMax, r);
    PlanStrict(cams, q, p, groupMax);
    StrLessIsOrder();
    forall g ensures g in r <==> g in plan { assert g in r <==> g in multiset(r); }
    SortedUnique(PlanLess, r, plan);
  }

  // ---- Order independence ------------------------------------------------------------------

  lemma MembersDependOnSet(a: seq<Camera>, b: seq<Camera>, key: string, q: set<string>, p: set<string>)
    requires DistinctIds(a) && DistinctIds(b) && forall c :: c in a <==> c in b
    ensures MembersOf(a, key, q, p) == MembersOf(b, key, q, p)
  {
    MembersNoDuplicates(a, key, q, p);
    MembersNoDuplicates(b, key, q, p);
    StrLessIsOrder();
    SortedUnique(CamLess, MembersOf(a, key, q, p), MembersOf(b, key, q, p));
  }

  lemma DistinctIdsPermuted(a: seq<Camera>, b: seq<Camera>)
    requires DistinctIds(a) && multiset(a) == multiset(b)
    ensures DistinctIds(b) && forall c :: c in a <==> c in b
  {
    NoDuplicatesFromMultiset(a, b);
    forall c ensures c in a <==> c in b { assert c in a <==> c in multiset(a); }
    forall i, j | 0 <= i < j < |b| ensures b[i].id != b[j].id {
      assert b[i] in a && b[j] in a;
    }
  }

  lemma GroupDependsOnSet(a: seq<Camera>, b: seq<Camera>, q: set<string>, p: set<string>, groupMax: int, g: GroupPlan)
    requires DistinctIds(a) && DistinctIds(b) && forall c :: c in a <==> c in b
    requires IsGroup(g, a, q, p, groupMax)
    ensures IsGroup(g, b, q, p, groupMax)
  {
    if IsBatch(g, a, q, p, GroupMax(groupMax)) {
      var key, k: nat :| IsChunk(g, key, k, MembersOf(a, key, q, p), GroupMax(groupMax));
      MembersDependOnSet(a, b, key, q, p);
      assert IsChunk(g, key, k, MembersOf(b, key, q, p), GroupMax(groupMax));
    } else {
      var c :| c in a && IsSingle(g, c, q, p);
      assert c in b;
    }
  }

  /** Any permutation of the enabled cameras gives the identical plan list. */
  lemma PlanOrderIndependent(a: seq<Camera>, b: seq<Camera>, q: set<string>, p: set<string>, groupMax: int)
    requires DistinctIds(a) && NoClash(a) && multiset(a) == multiset(b)
    ensures Plan(a, q, p, groupMax) == Plan(b, q, p, groupMax)
  {
    DistinctIdsPermuted(a, b);
    PlanStrict(a, q, p, groupMax);
    PlanStrict(b, q, p, groupMax);
    var x, y := Plan(a, q, p, groupMax), Plan(b, q, p, groupMax);
    forall g ensures g in x <==> g in y {
      PlanAreGroups(a, q, p, groupMax, g);
      PlanAreGroups(b, q, p, groupMax, g);
      if g in x { GroupDependsOnSet(a, b, q, p, groupMax, g); }
      if g in y { GroupDependsOnSet(b, a, q, p, groupMax, g); }
    }
    StrLessIsOrder();
    SortedUnique(PlanLess, x, y);
  }

  // ---- Partition -----------------------------------------------------------------------------

  ghost predicate InExactlyOne(plans: seq<GroupPlan>, c: Camera) {
    exists i :: 0 <= i < |plans| && c in plans[i].members
                && forall j :: 0 <= j < |plans| && c in plans[j].members ==> j == i
  }

  lemma IndexSplits(i: nat, max: nat)
    requires max >= 1
    ensures i / max * max <= i < i / max * max + max
  {
  }

  lemma IndexInChunk(max: nat, k: nat, i: nat)
    requires max >= 1 && k * max <= i < k * max + max
    ensures k == i / max
  {
    var d := i / max;
    IndexSplits(i, max);
    if k < d {
      MulMonotone(k + 1, d, max);
    } else if d < k {
      MulMonotone(d + 1, k, max);
    }
  }

  lemma ChunkHolds(g: GroupPlan, key: string, k: nat, ms: seq<Camera>, max: nat, i: nat)
    requires max >= 1 && NoDuplicates(ms) && i < |ms| && IsChunk(g, key, k, ms, max)
    ensures ms[i] in g.members <==> k == i / max
  {
    IndexSplits(i, max);
    MulMonotone(0, k, max);
    var lo := k * max;
    assert forall j :: 0 <= j < |g.members| ==> g.members[j] == ms[lo + j];
    if ms[i] in g.members {
      var j :| 0 <= j < |g.members| && g.members[j] == ms[i];
      assert lo + j == i;
      IndexInChunk(max, k, i);
    }
    if k == i / max {
      assert g.members[i - lo] == ms[i];
    }
  }

  lemma ChunkFacts(g: GroupPlan, key: string, k: nat, ms: seq<Camera>, max: nat)
    requires max >= 1 && StrictlySorted(CamLess, ms) && IsChunk(g, key, k, ms, max)
    ensures 1 <= |g.members| <= max && StrictlySorted(CamLess, g.members)
    ensures forall c :: c in g.members ==> c in ms
  {
    MulMonotone(0, k, max);
    assert forall j :: 0 <= j < |g.members| ==> g.members[j] == ms[k * max + j];
  }

  lemma ChunkExists(key: string, ms: seq<Camera>, max: nat, i: nat) returns (g: GroupPlan)
    requires max >= 1 && NoDuplicates(ms) && i < |ms|
    ensures IsChunk(g, key, i / max, ms, max) && ms[i] in g.members
  {
    IndexSplits(i, max);
    var k := i / max;
    g := GroupPlan(key + "-" + Dec(k), ms[k * max..Min(|ms|, k * max + max)], false);
    ChunkHolds(g, key, k, ms, max, i);
  }

  /** The one group a plannable camera belongs to. */
  lemma HomeGroup(cams: seq<Camera>, q: set<string>, p: set<string>, groupMax: int, c: Camera) returns (g: GroupPlan)
    requires DistinctIds(cams) && c in cams && c.id !in q
    ensures IsGroup(g, cams, q, p, groupMax) && c in g.members
    ensures forall h :: IsGroup(h, cams, q, p, groupMax) && c in h.members ==> h == g
  {
    if Batchable(c, q, p) {
      g := BatchedHome(cams, q, p, GroupMax(groupMax), c);
    } else {
      g := Single(c, p);
      assert IsSingle(g, c, q, p);
      forall h | IsGroup(h, cams, q, p, groupMax) && c in h.members ensures h == g {
        if IsBatch(h, cams, q, p, GroupMax(groupMax)) {
          BatchMembersBatchable(cams, q, p, GroupMax(groupMax), h);
        }
      }
    }
  }

  lemma BatchMembersBatchable(cams: seq<Camera>, q: set<string>, p: set<string>, max: nat, h: GroupPlan)
    requires DistinctIds(cams) && max >= 1 && IsBatch(h, cams, q, p, max)
    ensures 1 <= |h.members| <= max && StrictlySorted(CamLess, h.members) && !h.probation
    ensures forall c :: c in h.members ==> c in cams && Batchable(c, q, p)
    ensures forall c, d :: c in h.members && d in h.members ==> ShapeKey(c) == ShapeKey(d)
  {
    var key, k: nat :| IsChunk(h, key, k, MembersOf(cams, key, q, p), max);
    MembersNoDuplicates(cams, key, q, p);
    ChunkFacts(h, key, k, MembersOf(cams, key, q, p), max);
  }

  lemma BatchedHome(cams: seq<Camera>, q: set<string>, p: set<string>, max: nat, c: Camera) returns (g: GroupPlan)
    requires DistinctIds(cams) && c in cams && Batchable(c, q, p) && max >= 1
    ensures IsBatch(g, cams, q, p, max) && c in g.members
    ensures forall h :: (IsBespoke(h, cams, q, p) || IsBatch(h, cams, q, p, max)) && c in h.members ==> h == g
  {
    var ms := MembersOf(cams, ShapeKey(c), q, p);
    MembersNoDuplicates(cams, ShapeKey(c), q, p);
    var i := IndexOf(ms, c);
    g := ChunkExists(ShapeKey(c), ms, max, i);
    forall h | (IsBespoke(h, cams, q, p) || IsBatch(h, cams, q, p, max)) && c in h.members ensures h == g {
      NotBespoke(cams, q, p, c, h);
      var k := BatchOf(cams, q, p, max, c, h);
      OneChunkHolds(g, h, ShapeKey(c), k, ms, max, i);
    }
  }

  lemma OneChunkHolds(g: GroupPlan, h: GroupPlan, key: string, k: nat, ms: seq<Camera>, max: nat, i: nat)
    requires max >= 1 && NoDuplicates(ms) && i < |ms|
    requires IsChunk(g, key, i / max, ms, max) && IsChunk(h, key, k, ms, max) && ms[i] in h.members
    ensures g == h
  {
    ChunkHolds(h, key, k, ms, max, i);
  }

  lemma NotBespoke(cams: seq<Camera>, q: set<string>, p: set<string>, c: Camera, h: GroupPlan)
    requires Batchable(c, q, p) && c in h.members
    ensures !IsBespoke(h, cams, q, p)
  {
  }

  lemma IndexOf(ms: seq<Camera>, c: Camera) returns (i: nat)
    requires c in ms
    ensures i < |ms| && ms[i] == c
  {
    i :| 0 <= i < |ms| && ms[i] == c;
  }

  /** Membership fixes the shape key of the batch. */
  lemma BatchOf(cams: seq<Camera>, q: set<string>, p: set<string>, max: nat, c: Camera, h: GroupPlan) returns (k: nat)
    requires DistinctIds(cams) && max >= 1 && IsBatch(h, cams, q, p, max) && c in h.members
    ensures IsChunk(h, ShapeKey(c), k, MembersOf(cams, ShapeKey(c), q, p), max)
  {
    var key, k': nat :| IsChunk(h, key, k', MembersOf(cams, key, q, p), max);
    k := k';
    MembersNoDuplicates(cams, key, q, p);
    ChunkFacts(h, key, k, MembersOf(cams, key, q, p), max);
  }

  /** Every camera that is not quarantined is in exactly one group; quarantined ones are in none. */
  lemma PlanPartitions(cams: seq<Camera>, q: set<string>, p: set<string>, groupMax: int, c: Camera)
    requires DistinctIds(cams) && c in cams
    ensures c.id !in q ==> InExactlyOne(Plan(cams, q, p, groupMax), c)
    ensures c.id in q ==> forall g :: g in Plan(cams, q, p, groupMax) ==> c !in g.members
  {
    var plans := Plan(cams, q, p, groupMax);
    UnsortedNoDuplicates(cams, q, p, groupMax);
    NoDuplicatesFromMultiset(Unsorted(cams, q, p, groupMax), plans);
    forall g ensures g in plans <==> IsGroup(g, cams, q, p, groupMax) { PlanAreGroups(cams, q, p, groupMax, g); }
    if c.id !in q {
      var g := HomeGroup(cams, q, p, groupMax, c);
      OneIndex(plans, g, c);
    } else {
      forall g | g in plans ensures c !in g.members {
        GroupMembers(cams, q, p, groupMax, g);
      }
    }
  }

  lemma OneIndex(plans: seq<GroupPlan>, g: GroupPlan, c: Camera)
    requires NoDuplicates(plans) && g in plans && c in g.members
    requires forall h :: h in plans && c in h.members ==> h == g
    ensures InExactlyOne(plans, c)
  {
    var i :| 0 <= i < |plans| && plans[i] == g;
    forall j | 0 <= j < |plans| && c in plans[j].members ensures j == i {
      assert plans[j] in plans;
    }
  }

  /** No group invents a camera, repeats one, or holds a quarantined one; batched groups share a
      shape and respect the size limit, and only probation groups re-admit. */
  lemma GroupMembers(cams: seq<Camera>, q: set<string>, p: set<string>, groupMax: int, g: GroupPlan)
    requires DistinctIds(cams) && IsGroup(g, cams, q, p, groupMax)
    ensures 1 <= |g.members| <= GroupMax(groupMax)
    ensures StrictlySorted(CamLess, g.members)
    ensures forall c :: c in g.members ==> c in cams && c.id !in q
    ensures g.probation <==> exists c :: c in g.members && c.id in p
    ensures |g.members| > 1 ==> forall c :: c in g.members ==>
      Batchable(c, q, p) && ShapeKey(c) == ShapeKey(g.members[0])
  {
    if IsBatch(g, cams, q, p, GroupMax(groupMax)) {
      BatchMembersBatchable(cams, q, p, GroupMax(groupMax), g);
    }
  }
}
