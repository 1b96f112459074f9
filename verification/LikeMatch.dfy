/** The sidecar path's small LIKE matcher against the LIKE predicate itself (section 8.5 of
    ISO/IEC 9075-2, restricted to '%'), and plate-query normalisation. */
module LikeMatch {

  /** The reference: '%' stands for any string, every other character for itself. */
  ghost predicate Like(s: string, p: string)
    decreases |p|
  {
    if p == "" then s == ""
    else if p[0] == '%' then exists k :: 0 <= k <= |s| && Like(s[k..], p[1..])
    else s != "" && s[0] == p[0] && Like(s[1..], p[1..])
  }

  /** strings.Split(p, "%") */
  function Split(p: string): (segs: seq<string>)
    ensures |segs| >= 1
    ensures |segs| == 1 <==> '%' !in p
  {
    if p == "" then [""]
    else
      var r := Split(p[1..]);
      assert p == [p[0]] + p[1..];
      if p[0] == '%' then [""] + r else [[p[0]] + r[0]] + r[1..]
  }

  predicate HasSuffix(s: string, t: string) { |t| <= |s| && s[|s| - |t|..] == t }

  predicate At(s: string, i: nat, seg: string) { i + |seg| <= |s| && s[i..i + |seg|] == seg }

  /** strings.Index: the first occurrence, or -1. */
  method Index(s: string, seg: string) returns (idx: int)
    ensures -1 <= idx
    ensures idx >= 0 ==> At(s, idx, seg) && forall k :: 0 <= k < idx ==> !At(s, k, seg)
    ensures idx < 0 ==> forall k: nat :: !At(s, k, seg)
  {
    idx := 0;
    while idx + |seg| <= |s|
      invariant 0 <= idx
      invariant forall k :: 0 <= k < idx ==> !At(s, k, seg)
    {
      if s[idx..idx + |seg|] == seg { return; }
      idx := idx + 1;
    }
    idx := -1;
  }

  /** A decomposition of s into the segments in order, with arbitrary text between them. */
  ghost predicate Fits(s: string, segs: seq<string>)
    requires |segs| >= 1
    decreases |segs|, 0
  {
    if |segs| == 1 then s == segs[0]
    else segs[0] <= s && Floats(s[|segs[0]|..], segs[1..])
  }

  /** The same, anywhere to the right. */
  ghost predicate Floats(s: string, segs: seq<string>)
    requires |segs| >= 1
    decreases |segs|, 1
  {
    exists k :: 0 <= k <= |s| && Fits(s[k..], segs)
  }

  lemma {:induction false} LikeIsFits(s: string, p: string)
    ensures Like(s, p) <==> Fits(s, Split(p))
    decreases |p|
  {
    if p != "" {
      var r := Split(p[1..]);
      if p[0] == '%' {
        assert ([""] + r)[1..] == r;
        assert s[0..] == s;
        forall k | 0 <= k <= |s| { LikeIsFits(s[k..], p[1..]); }
      } else {
        var segs := [[p[0]] + r[0]] + r[1..];
        assert segs[1..] == r[1..];
        if s != "" {
          LikeIsFits(s[1..], p[1..]);
          assert s == [s[0]] + s[1..];
          if |r| > 1 {
            assert [p[0]] + r[0] <= s <==> s[0] == p[0] && r[0] <= s[1..];
            if r[0] <= s[1..] { assert s[1..][|r[0]|..] == s[1 + |r[0]|..]; }
          }
        }
      }
    }
  }

  lemma FloatsShift(s: string, i: nat, segs: seq<string>)
    requires |segs| >= 1 && i <= |s| && Floats(s[i..], segs)
    ensures Floats(s, segs)
  {
    var k :| 0 <= k <= |s[i..]| && Fits(s[i..][k..], segs);
    assert s[i..][k..] == s[i + k..];
  }

  /** The leftmost occurrence of a middle segment is never a wrong choice. */
  lemma GreedyIsComplete(s: string, seg: string, more: seq<string>, idx: int)
    requires |more| >= 1 && -1 <= idx
    requires idx >= 0 ==> At(s, idx, seg) && forall k :: 0 <= k < idx ==> !At(s, k, seg)
    requires idx < 0 ==> forall k: nat :: !At(s, k, seg)
    ensures Floats(s, [seg] + more) <==> idx >= 0 && Floats(s[idx + |seg|..], more)
  {
    var segs := [seg] + more;
    assert segs[1..] == more;
    if Floats(s, segs) {
      var k :| 0 <= k <= |s| && Fits(s[k..], segs);
      assert s[k..][..|seg|] == s[k..k + |seg|];
      assert At(s, k, seg);
      assert s[k..][|seg|..] == s[k + |seg|..];
      var d := k - idx;
      assert s[idx + |seg|..][d..] == s[k + |seg|..];
      FloatsShift(s[idx + |seg|..], d, more);
    }
    if idx >= 0 && Floats(s[idx + |seg|..], more) {
      assert s[idx..][..|seg|] == s[idx..idx + |seg|];
      assert s[idx..][|seg|..] == s[idx + |seg|..];
      assert Fits(s[idx..], segs);
    }
  }

  lemma EmptySegment(s: string, more: seq<string>)
    requires |more| >= 1
    ensures Floats(s, [""] + more) <==> Floats(s, more)
  {
    assert s[0..] == s;
    assert forall k: nat :: At(s, k, "") <==> k <= |s|;
    GreedyIsComplete(s, "", more, 0);
    assert s[0 + |""|..] == s;
  }

  lemma LastSegment(s: string, last: string)
    ensures Floats(s, [last]) <==> HasSuffix(s, last)
  {
    if HasSuffix(s, last) {
      assert Fits(s[|s| - |last|..], [last]);
    }
  }

  lemma {:induction false} NoWildcard(p: string)
    requires '%' !in p
    ensures Split(p) == [p]
  {
    if p != "" {
      assert forall c :: c in p[1..] ==> c in p;
      assert p[0] in p;
      NoWildcard(p[1..]);
      assert [p[0]] + p[1..] == p;
    }
  }

  /** Main result: the greedy scan accepts exactly the strings LIKE accepts. */
  method LikeMatch(s: string, pattern: string) returns (b: bool)
    ensures b <==> Like(s, pattern)
  {
    LikeIsFits(s, pattern);
    var segs := Split(pattern);
    if '%' !in pattern {
      NoWildcard(pattern);
      return s == pattern;
    }
    if segs[0] != "" && !(segs[0] <= s) {
      return false;
    }
    assert segs[0] <= s;
    var pos := |segs[0]|;
    var last := segs[|segs| - 1];
    assert segs[1..][..|segs| - 2] == segs[1..|segs| - 1];
    for i := 1 to |segs| - 1
      invariant 0 <= pos <= |s|
      invariant Like(s, pattern) <==> Floats(s[pos..], segs[i..])
    {
      var seg := segs[i];
      assert segs[i..] == [seg] + segs[i + 1..];
      if seg == "" {
        EmptySegment(s[pos..], segs[i + 1..]);
      } else {
        var idx := Index(s[pos..], seg);
        GreedyIsComplete(s[pos..], seg, segs[i + 1..], idx);
        if idx < 0 { return false; }
        assert s[pos..][idx + |seg|..] == s[pos + idx + |seg|..];
        pos := pos + idx + |seg|;
      }
    }
    assert segs[|segs| - 1..] == [last];
    LastSegment(s[pos..], last);
    b := last == "" || HasSuffix(s[pos..], last);
  }

  // ---- Query normalisation ---------------------------------------------------------------------

  predicate PlateChar(c: char) { 'A' <= c <= 'Z' || '0' <= c <= '9' || c == '%' }

  function NormaliseChar(c: char): string {
    if PlateChar(c) then [c]
    else if 'a' <= c <= 'z' then [c - 32 as char]
    else ""
  }

  function Normalise(p: string): (r: string)
    ensures forall c :: c in r ==> PlateChar(c)
  {
    if p == "" then "" else NormaliseChar(p[0]) + Normalise(p[1..])
  }

  lemma NormaliseStep(out: string, p: string, i: nat)
    requires i < |p|
    ensures out + Normalise(p[i..]) == out + NormaliseChar(p[i]) + Normalise(p[i + 1..])
  {
    assert p[i..][0] == p[i] && p[i..][1..] == p[i + 1..];
    assert out + (NormaliseChar(p[i]) + Normalise(p[i + 1..])) == out + NormaliseChar(p[i]) + Normalise(p[i + 1..]);
  }

  method NormalisePlateQuery(p: string) returns (out: string)
    ensures out == Normalise(p)
  {
    out := "";
    for i := 0 to |p|
      invariant Normalise(p) == out + Normalise(p[i..])
    {
      var c := p[i];
      NormaliseStep(out, p, i);
      if ('A' <= c <= 'Z') || ('0' <= c <= '9') || c == '%' {
        out := out + [c];
      } else if 'a' <= c <= 'z' {
        out := out + [c - 32 as char];
      }
    }
  }

  lemma {:induction false} NormaliseConcat(a: string, b: string)
    ensures Normalise(a + b) == Normalise(a) + Normalise(b)
  {
    if a == "" {
      assert a + b == b;
    } else {
      assert (a + b)[1..] == a[1..] + b;
      NormaliseConcat(a[1..], b);
    }
  }

  /** Normalising twice is normalising once. */
  lemma {:induction false} NormaliseIdempotent(p: string)
    ensures Normalise(Normalise(p)) == Normalise(p)
  {
    if p != "" {
      NormaliseIdempotent(p[1..]);
      NormaliseConcat(NormaliseChar(p[0]), Normalise(p[1..]));
      assert Normalise("") == "";
      if NormaliseChar(p[0]) != "" {
        var c := NormaliseChar(p[0]);
        assert c[1..] == "";
        assert Normalise(c) == NormaliseChar(c[0]) + "";
      }
    }
  }

  /** LIKE as Postgres has it: '_' is any one character and '\\' quotes the next one. */
  ghost predicate PgLike(s: string, p: string)
    decreases |p|
  {
    if p == "" then s == ""
    else if p[0] == '%' then exists k :: 0 <= k <= |s| && PgLike(s[k..], p[1..])
    else if p[0] == '_' then s != "" && PgLike(s[1..], p[1..])
    else if p[0] == '\\' && |p| > 1 then s != "" && s[0] == p[1] && PgLike(s[1..], p[2..])
    else s != "" && s[0] == p[0] && PgLike(s[1..], p[1..])
  }

  lemma {:induction false} PlainPatterns(s: string, p: string)
    requires forall c :: c in p ==> PlateChar(c)
    ensures PgLike(s, p) <==> Like(s, p)
    decreases |p|
  {
    if p != "" {
      assert p[0] in p;
      assert forall c :: c in p[1..] ==> c in p;
      forall k | 0 <= k <= |s| { PlainPatterns(s[k..], p[1..]); }
    }
  }

  lemma {:induction false} EqualityIsLike(s: string, p: string)
    requires '%' !in p
    ensures Like(s, p) <==> s == p
  {
    NoWildcard(p);
    LikeIsFits(s, p);
  }

  /** On one plate text and one normalised query the SQL condition is LIKE, whichever form it takes. */
  lemma SqlIsLike(plate: string, query: string)
    ensures var p := Normalise(query);
            Like(plate, p) <==> if '%' in p then PgLike(plate, p) else plate == p
  {
    var p := Normalise(query);
    PlainPatterns(plate, p);
    if '%' !in p { EqualityIsLike(plate, p); }
  }

  // ---- Hot and cold rows ---------------------------------------------------------------------------

  predicate Alphanumeric(c: char) { 'A' <= c <= 'Z' || 'a' <= c <= 'z' || '0' <= c <= '9' }

  /** regexp_replace(raw, '[^A-Za-z0-9]', '', 'g') */
  function KeepAlphanumeric(raw: string): string {
    if raw == "" then ""
    else (if Alphanumeric(raw[0]) then [raw[0]] else "") + KeepAlphanumeric(raw[1..])
  }

  function Upper(s: string): string {
    seq(|s|, i requires 0 <= i < |s| => if 'a' <= s[i] <= 'z' then s[i] - 32 as char else s[i])
  }

  /** The generated column of the detections table; the empty text stands for NULL, which no condition selects. */
  function Column(raw: string): string { Upper(KeepAlphanumeric(raw)) }

  /** A row of the database, whose plate was read as `raw`: no filter for an empty query, LIKE for one with a
      wildcard, equality for any other. */
  ghost predicate HotSelects(raw: string, query: string) {
    var p, plate := Normalise(query), Column(raw);
    p == "" || (plate != "" && if '%' in p then PgLike(plate, p) else plate == p)
  }

  /** A line of a sidecar file, whose plate was read as `raw`. */
  ghost predicate ColdSelects(raw: string, query: string) {
    var p, plate := Normalise(query), Normalise(raw);
    p == "" || (plate != "" && Like(plate, p))
  }

  /** The column drops what normalising keeps of the percent signs, and nothing else. */
  lemma {:induction false} ColumnIsNormalised(raw: string)
    ensures '%' !in raw ==> Column(raw) == Normalise(raw)
    ensures '%' in raw ==> '%' in Normalise(raw)
    ensures '%' !in Column(raw) && Normalise(Column(raw)) == Column(raw)
    ensures Column(raw) == "" ==> forall c :: c in Normalise(raw) ==> c == '%'
  {
    if raw != "" {
      ColumnIsNormalised(raw[1..]);
      ColumnStep(raw);
      NormaliseConcat(Column([raw[0]]), Column(raw[1..]));
    }
  }

  lemma ColumnStep(raw: string)
    requires raw != ""
    ensures Column(raw) == Column([raw[0]]) + Column(raw[1..])
    ensures raw[0] != '%' ==> Column([raw[0]]) == NormaliseChar(raw[0])
    ensures raw[0] == '%' ==> Column([raw[0]]) == ""
    ensures Normalise(Column([raw[0]])) == Column([raw[0]])
    ensures Column([raw[0]]) == "" ==> raw[0] == '%' || NormaliseChar(raw[0]) == ""
  {
    var k := if Alphanumeric(raw[0]) then [raw[0]] else "";
    assert [raw[0]][1..] == "";
    assert KeepAlphanumeric("") == "" && k + "" == k;
    assert KeepAlphanumeric([raw[0]]) == k;
    assert KeepAlphanumeric(raw) == k + KeepAlphanumeric(raw[1..]);
    assert Upper(k + KeepAlphanumeric(raw[1..])) == Upper(k) + Upper(KeepAlphanumeric(raw[1..]));
  }

  /** A plate read with a percent sign is found in one place only: by its letters and digits if it has any, else by a
      lone wildcard. */
  lemma PercentDiffers(raw: string) returns (query: string)
    requires '%' in raw
    ensures query == (if Column(raw) != "" then Column(raw) else "%")
    ensures HotSelects(raw, query) <==> !ColdSelects(raw, query)
  {
    ColumnIsNormalised(raw);
    query := if Column(raw) != "" then Column(raw) else "%";
    if Column(raw) != "" {
      EqualityIsLike(Normalise(raw), query);
    } else {
      var plate := Normalise(raw);
      assert Normalise("%") == "%";
      assert Like(plate[|plate|..], "");
      assert Like(plate, "%");
    }
  }

  /** Main result: database and sidecar select a detection alike, for every query, exactly when its plate was read
      without a percent sign. */
  lemma HotAndColdAgreeExactly(raw: string)
    ensures (forall query :: HotSelects(raw, query) <==> ColdSelects(raw, query)) <==> '%' !in raw
  {
    ColumnIsNormalised(raw);
    if '%' !in raw {
      forall query ensures HotSelects(raw, query) <==> ColdSelects(raw, query) { SqlIsLike(Column(raw), query); }
    } else {
      var query := PercentDiffers(raw);
    }
  }
}
