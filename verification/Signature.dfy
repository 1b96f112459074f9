/** The restart signature: equal exactly when nothing that needs a worker restart has changed. */
module Signature {
  import opened Ordering
  import opened Text
  import opened Grouping
  import opened GroupingProofs

  function Flag(b: bool): string { if b then "1" else "0" }

  function AfterProxy(m: Camera): string { m.recordingMode + (";" + DetectorsKey(m)) }
  function AfterRotation(m: Camera): string { Flag(m.mtxProxy) + (";" + AfterProxy(m)) }
  function AfterSubstream(m: Camera): string { IntStr(m.rotation) + (";" + AfterRotation(m)) }
  function AfterUrl(m: Camera): string { m.substream + (";" + AfterSubstream(m)) }
  function AfterId(m: Camera): string { m.url + (";" + AfterUrl(m)) }

  /** id;url;substream;rotation;proxy;mode;detectors */
  function Record(m: Camera): string { m.id + (";" + AfterId(m)) }

  function Records(ms: seq<Camera>): (r: string)
    ensures StartsWith('|', r)
    ensures ms == [] <==> r == ""
  {
    if ms == [] then "" else "|" + (Record(ms[0]) + Records(ms[1..]))
  }

  function Head(plan: GroupPlan): string { plan.groupId + (if plan.probation then "!p" else "") }

  function Sig(plan: GroupPlan): string { Head(plan) + Records(plan.members) }

  /** The stream writes of the source, one member at a time. */
  method SignatureOf(plan: GroupPlan) returns (os: string)
    ensures os == Sig(plan)
  {
    os := plan.groupId + (if plan.probation then "!p" else "");
    for i := 0 to |plan.members|
      invariant os + Records(plan.members[i..]) == Sig(plan)
    {
      RecordsStep(os, plan.members, i);
      os := os + "|" + Record(plan.members[i]);
    }
    assert plan.members[|plan.members|..] == [];
    assert os + "" == os;
  }

  lemma RecordsStep(os: string, ms: seq<Camera>, i: nat)
    requires i < |ms|
    ensures os + Records(ms[i..]) == os + "|" + Record(ms[i]) + Records(ms[i + 1..])
  {
    assert ms[i..][0] == ms[i] && ms[i..][1..] == ms[i + 1..];
    var r, t := Record(ms[i]), Records(ms[i + 1..]);
    assert os + ("|" + (r + t)) == os + "|" + r + t;
  }

  /** The fields of a camera in a signature. */
  function Fields(m: Camera): seq<string> {
    [m.id, m.url, m.substream, IntStr(m.rotation), if m.mtxProxy then "1" else "0", m.recordingMode, DetectorsKey(m)]
  }

  function Joined(sep: string, fields: seq<string>): string {
    if fields == [] then "" else if |fields| == 1 then fields[0] else fields[0] + (sep + Joined(sep, fields[1..]))
  }

  lemma JoinedStep(s: string, rest: seq<string>)
    requires rest != []
    ensures Joined(";", [s] + rest) == s + (";" + Joined(";", rest))
  {
    assert ([s] + rest)[1..] == rest;
  }

  /** A camera's record is its fields with semicolons between them. */
  lemma RecordReads(m: Camera)
    ensures Record(m) == Joined(";", Fields(m))
  {
    var f := Fields(m);
    assert f[6..] == [f[6]] && f[5..] == [f[5]] + f[6..] && f[4..] == [f[4]] + f[5..] && f[3..] == [f[3]] + f[4..];
    assert f[2..] == [f[2]] + f[3..] && f[1..] == [f[1]] + f[2..] && f == [f[0]] + f[1..];
    JoinedStep(f[5], f[6..]);
    JoinedStep(f[4], f[5..]);
    JoinedStep(f[3], f[4..]);
    JoinedStep(f[2], f[3..]);
    JoinedStep(f[1], f[2..]);
    JoinedStep(f[0], f[1..]);
  }

  // ---- Which text fields keep the signature readable ---------------------------------------

  predicate Plain(s: string) { '|' !in s && ';' !in s }

  /** Detector names as the fixed vocabulary has them; "all" is what an empty list prints as. */
  predicate CleanDetectors(ds: seq<string>) {
    "all" !in ds && forall d :: d in ds ==> d != "" && '+' !in d && Plain(d)
  }

  predicate CleanCamera(c: Camera) {
    Plain(c.id) && Plain(c.url) && Plain(c.substream) && Plain(c.recordingMode) && CleanDetectors(c.detectors)
  }

  /** Only probation groups have ids in the probation namespace (PlannedIsClean). */
  ghost predicate CleanPlan(g: GroupPlan) {
    && '|' !in g.groupId
    && (g.probation <==> "probation-" <= g.groupId)
    && forall c :: c in g.members ==> CleanCamera(c)
  }

  // ---- Detector lists ---------------------------------------------------------------------

  function Tail(names: seq<string>): (r: string)
    ensures StartsWith('+', r)
  {
    if names == [] then "" else "+" + (names[0] + Tail(names[1..]))
  }

  lemma {:induction false} JoinIsTail(out: string, names: seq<string>)
    requires out != ""
    ensures JoinPlus(out, names) == out + Tail(names)
    decreases |names|
  {
    if names == [] {
      assert out + "" == out;
    } else {
      JoinIsTail(out + "+" + names[0], names[1..]);
      assert out + "+" + names[0] + Tail(names[1..]) == out + ("+" + (names[0] + Tail(names[1..])));
    }
  }

  ghost predicate CleanNames(names: seq<string>) {
    forall d :: d in names ==> d != "" && '+' !in d && Plain(d)
  }

  lemma {:induction false} TailInjective(a: seq<string>, b: seq<string>)
    requires CleanNames(a) && CleanNames(b) && Tail(a) == Tail(b)
    ensures a == b
  {
    if a != [] && b != [] {
      assert Tail(a)[1..] == a[0] + Tail(a[1..]);
      assert Tail(b)[1..] == b[0] + Tail(b[1..]);
      assert a[0] in a && b[0] in b;
      FieldUnique('+', a[0], Tail(a[1..]), b[0], Tail(b[1..]));
      assert forall d :: d in a[1..] ==> d in a;
      assert forall d :: d in b[1..] ==> d in b;
      TailInjective(a[1..], b[1..]);
      assert a == [a[0]] + a[1..] && b == [b[0]] + b[1..];
    }
  }

  lemma KeyShape(ds: seq<string>)
    requires ds != [] && CleanNames(ds)
    ensures SetOf(ds) != [] && CleanNames(SetOf(ds))
    ensures JoinPlus("", SetOf(ds)) == SetOf(ds)[0] + Tail(SetOf(ds)[1..])
  {
    assert ds[0] in SetOf(ds);
    assert SetOf(ds)[0] in SetOf(ds);
    JoinIsTail(SetOf(ds)[0], SetOf(ds)[1..]);
    assert "" + SetOf(ds)[0] == SetOf(ds)[0];
  }

  lemma {:induction false} TailPlain(names: seq<string>)
    requires CleanNames(names)
    ensures Plain(Tail(names))
  {
    if names != [] {
      assert names[0] in names;
      assert forall d :: d in names[1..] ==> d in names;
      TailPlain(names[1..]);
    }
  }

  lemma KeyPlain(c: Camera)
    requires CleanDetectors(c.detectors)
    ensures Plain(DetectorsKey(c))
  {
    if c.detectors != [] {
      KeyShape(c.detectors);
      var s := SetOf(c.detectors);
      assert s[0] in s;
      assert forall d :: d in s[1..] ==> d in s;
      TailPlain(s[1..]);
    }
  }

  lemma JoinNotAll(s: seq<string>)
    requires s != [] && CleanNames(s) && "all" !in s
    ensures s[0] + Tail(s[1..]) != "all"
  {
    assert s[0] in s;
    if s[0] + Tail(s[1..]) == "all" {
      assert "all" + "" == "all";
      FieldUnique('+', s[0], Tail(s[1..]), "all", "");
    }
  }

  lemma SetOfElements(a: seq<string>, b: seq<string>)
    ensures SetOf(a) == SetOf(b) <==> forall d :: d in a <==> d in b
  {
    if forall d :: d in a <==> d in b {
      StrLessIsOrder();
      SortedUnique(StrLess, SetOf(a), SetOf(b));
    } else {
      var d :| (d in a) != (d in b);
      assert d in SetOf(a) <==> d in a;
      assert d in SetOf(b) <==> d in b;
    }
  }

  /** Two detector lists share a key exactly when they name the same set of detectors. */
  lemma DetectorsKeyExact(a: Camera, b: Camera)
    requires CleanDetectors(a.detectors) && CleanDetectors(b.detectors)
    ensures DetectorsKey(a) == DetectorsKey(b) <==> forall d :: d in a.detectors <==> d in b.detectors
  {
    var s, t := SetOf(a.detectors), SetOf(b.detectors);
    if a.detectors != [] { KeyShape(a.detectors); JoinNotAll(s); assert a.detectors[0] in a.detectors; }
    if b.detectors != [] { KeyShape(b.detectors); JoinNotAll(t); assert b.detectors[0] in b.detectors; }
    if a.detectors != [] && b.detectors != [] {
      SetOfElements(a.detectors, b.detectors);
      if DetectorsKey(a) == DetectorsKey(b) { SameKeySameNames(s, t); }
    }
  }

  lemma SameKeySameNames(s: seq<string>, t: seq<string>)
    requires s != [] && t != [] && s[0] + Tail(s[1..]) == t[0] + Tail(t[1..])
    requires CleanNames(s) && CleanNames(t)
    ensures s == t
  {
    assert s[0] in s && t[0] in t;
    FieldUnique('+', s[0], Tail(s[1..]), t[0], Tail(t[1..]));
    assert forall d :: d in s[1..] ==> d in s;
    assert forall d :: d in t[1..] ==> d in t;
    TailInjective(s[1..], t[1..]);
    assert s == [s[0]] + s[1..] && t == [t[0]] + t[1..];
  }

  // ---- Members and plans ---------------------------------------------------------------------

  /** The restart-relevant configuration: detectors count as a set, mutes not at all. */
  ghost predicate SameConfig(a: Camera, b: Camera) {
    && a.id == b.id && a.url == b.url && a.substream == b.substream && a.rotation == b.rotation
    && a.mtxProxy == b.mtxProxy && a.recordingMode == b.recordingMode
    && forall d :: d in a.detectors <==> d in b.detectors
  }

  lemma IntStrPlain(n: int)
    ensures Plain(IntStr(n))
  {
  }

  lemma RecordPlain(c: Camera)
    requires CleanCamera(c)
    ensures '|' !in Record(c)
  {
    IntStrPlain(c.rotation);
    KeyPlain(c);
  }

  lemma Field(a: string, x: string, b: string, y: string)
    requires Plain(a) && Plain(b) && a + (";" + x) == b + (";" + y)
    ensures a == b && x == y
  {
    FieldUnique(';', a, ";" + x, b, ";" + y);
    assert x == (";" + x)[1..] && y == (";" + y)[1..];
  }

  lemma RecordExact(a: Camera, b: Camera)
    requires CleanCamera(a) && CleanCamera(b)
    ensures Record(a) == Record(b) <==> SameConfig(a, b)
  {
    DetectorsKeyExact(a, b);
    if Record(a) == Record(b) {
      IntStrPlain(a.rotation);
      IntStrPlain(b.rotation);
      Field(a.id, AfterId(a), b.id, AfterId(b));
      Field(a.url, AfterUrl(a), b.url, AfterUrl(b));
      Field(a.substream, AfterSubstream(a), b.substream, AfterSubstream(b));
      Field(IntStr(a.rotation), AfterRotation(a), IntStr(b.rotation), AfterRotation(b));
      Field(Flag(a.mtxProxy), AfterProxy(a), Flag(b.mtxProxy), AfterProxy(b));
      Field(a.recordingMode, DetectorsKey(a), b.recordingMode, DetectorsKey(b));
      IntStrInjective(a.rotation, b.rotation);
    }
  }

  ghost predicate SameMembers(a: seq<Camera>, b: seq<Camera>) {
    |a| == |b| && forall i :: 0 <= i < |a| ==> SameConfig(a[i], b[i])
  }

  lemma {:induction false} RecordsExact(a: seq<Camera>, b: seq<Camera>)
    requires forall c :: c in a || c in b ==> CleanCamera(c)
    ensures Records(a) == Records(b) <==> SameMembers(a, b)
  {
    if a != [] && b != [] {
      assert a[0] in a && b[0] in b;
      RecordPlain(a[0]);
      RecordPlain(b[0]);
      RecordExact(a[0], b[0]);
      RecordsExact(a[1..], b[1..]);
      if Records(a) == Records(b) {
        assert Records(a)[1..] == Record(a[0]) + Records(a[1..]);
        assert Records(b)[1..] == Record(b[0]) + Records(b[1..]);
        FieldUnique('|', Record(a[0]), Records(a[1..]), Record(b[0]), Records(b[1..]));
      }
      MembersStep(a, b);
    }
  }

  lemma MembersStep(a: seq<Camera>, b: seq<Camera>)
    requires a != [] && b != []
    ensures SameMembers(a, b) <==> SameConfig(a[0], b[0]) && SameMembers(a[1..], b[1..])
  {
    if SameConfig(a[0], b[0]) && SameMembers(a[1..], b[1..]) {
      forall i | 0 <= i < |a| ensures SameConfig(a[i], b[i]) {
        if i > 0 { assert a[i] == a[1..][i - 1] && b[i] == b[1..][i - 1]; }
      }
    }
  }

  ghost predicate SamePlan(a: GroupPlan, b: GroupPlan) {
    a.groupId == b.groupId && a.probation == b.probation && SameMembers(a.members, b.members)
  }

  lemma HeadUnique(a: GroupPlan, b: GroupPlan)
    requires CleanPlan(a) && CleanPlan(b) && Head(a) == Head(b)
    ensures a.groupId == b.groupId && a.probation == b.probation
  {
    var pre := "probation-";
    assert !a.probation ==> Head(a) == a.groupId;
    assert !b.probation ==> Head(b) == b.groupId;
    assert a.probation <==> pre <= Head(a);
    assert b.probation <==> pre <= Head(b);
    var k := if a.probation then 2 else 0;
    assert a.groupId == Head(a)[..|Head(a)| - k] && b.groupId == Head(b)[..|Head(b)| - k];
  }

  /** Main result: a signature changes exactly when the group's identity, its members or a member's
      restart-relevant configuration does. */
  lemma SignatureExact(a: GroupPlan, b: GroupPlan)
    requires CleanPlan(a) && CleanPlan(b)
    ensures Sig(a) == Sig(b) <==> SamePlan(a, b)
  {
    RecordsExact(a.members, b.members);
    if Sig(a) == Sig(b) {
      FieldUnique('|', Head(a), Records(a.members), Head(b), Records(b.members));
      HeadUnique(a, b);
    }
  }

  /** Without the guard the signature is not exact: an address that contains the field separator can
      be moved between url and substream without the group being restarted. */
  lemma SeparatorCollision(id: string, u: string, v: string, w: string, mode: string)
    ensures var a := Camera(id, u + ";" + v, w, mode, 0, false, []);
            var b := Camera(id, u, v + ";" + w, mode, 0, false, []);
            a != b && Sig(GroupPlan("all-0", [a], false)) == Sig(GroupPlan("all-0", [b], false))
  {
    var a := Camera(id, u + ";" + v, w, mode, 0, false, []);
    var b := Camera(id, u, v + ";" + w, mode, 0, false, []);
    assert |a.url| > |b.url|;
    assert (u + ";" + v) + (";" + (w + (";" + AfterSubstream(a)))) ==
           u + (";" + ((v + ";" + w) + (";" + AfterSubstream(b))));
    assert AfterId(a) == AfterId(b);
    assert Record(a) == id + (";" + AfterId(a)) && Record(b) == id + (";" + AfterId(b));
    assert Records([a]) == Records([b]);
  }

  /** An explicit "all" is the other collision: it prints as the empty whitelist does. */
  lemma AllCollision(c: Camera)
    ensures Sig(GroupPlan("g", [c.(detectors := [])], false)) == Sig(GroupPlan("g", [c.(detectors := ["all"])], false))
  {
    var e, a := c.(detectors := []), c.(detectors := ["all"]);
    assert ["all"][..0] == [];
    assert SetOf(["all"]) == SetInsert(SetOf([]), "all") == ["all"];
    assert JoinPlus("", ["all"]) == JoinPlus("all", []) == "all";
    assert Record(e) == Record(a);
  }

  lemma KeyNamespace(key: string, k: nat)
    requires !KeyClash(key)
    ensures !("probation-" <= key + "-" + Dec(k))
  {
    var s := key + "-" + Dec(k);
    if "probation-" <= s {
      assert s == "probation-" + s[10..];
      ChunkIdNotPrefixed(key, k, "probation-", s[10..]);
    }
  }

  /** Groups the planner makes from clean cameras are clean, so SignatureExact applies to them. */
  lemma PlannedIsClean(cams: seq<Camera>, q: set<string>, p: set<string>, groupMax: int, g: GroupPlan)
    requires DistinctIds(cams) && NoClash(cams) && forall c :: c in cams ==> CleanCamera(c)
    requires g in Plan(cams, q, p, groupMax)
    ensures CleanPlan(g)
  {
    PlanAreGroups(cams, q, p, groupMax, g);
    if IsBatch(g, cams, q, p, GroupMax(groupMax)) {
      BatchIsClean(cams, q, p, GroupMax(groupMax), g);
    } else {
      var c :| c in cams && IsSingle(g, c, q, p);
      SingleIsClean(c, p);
    }
  }

  lemma SingleIsClean(c: Camera, p: set<string>)
    requires CleanCamera(c)
    ensures CleanPlan(Single(c, p))
  {
    if c.id !in p { assert Single(c, p).groupId[0] == 's'; }
  }

  lemma BatchIsClean(cams: seq<Camera>, q: set<string>, p: set<string>, max: nat, g: GroupPlan)
    requires DistinctIds(cams) && NoClash(cams) && forall c :: c in cams ==> CleanCamera(c)
    requires max >= 1 && IsBatch(g, cams, q, p, max)
    ensures CleanPlan(g)
  {
    BatchMembersBatchable(cams, q, p, max, g);
    var c := g.members[0];
    assert c in g.members;
    var k := BatchOf(cams, q, p, max, c, g);
    KeyPlain(c);
    KeyNamespace(ShapeKey(c), k);
    assert '|' !in Dec(k);
  }
}
