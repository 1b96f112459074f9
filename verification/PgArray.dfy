/** Reading a text[] value as libpq prints it: elements between braces, bare or quoted. */
module PgArray {
  // ---- The grammar the reader follows ------------------------------------------------------------------

  datatype Split = Split(value: string, rest: string)

  /** Up to the closing quote, which is consumed; a backslash takes the next character as it is. */
  function Unquote(t: string): (s: Split)
    ensures |s.rest| <= |t|
  {
    if t == "" then Split("", "")
    else if t[0] == '"' then Split("", t[1..])
    else if t[0] == '\\' && |t| > 1 then var s := Unquote(t[2..]); Split([t[1]] + s.value, s.rest)
    else var s := Unquote(t[1..]); Split([t[0]] + s.value, s.rest)
  }

  function Bare(t: string): (s: Split)
    ensures s.value + s.rest == t
  {
    if t == "" || t[0] == ',' then Split("", t) else var s := Bare(t[1..]); Split([t[0]] + s.value, s.rest)
  }

  function Element(t: string): (s: Split)
    requires t != ""
    ensures |s.rest| < |t| || (s.rest == t && t[0] == ',')
  {
    if t[0] == '"' then Unquote(t[1..])
    else
      assert t[0] != ',' ==> |Bare(t).rest| == |Bare(t[1..]).rest|;
      Bare(t)
  }

  function SkipComma(t: string): string { if t != "" && t[0] == ',' then t[1..] else t }

  function IfAny(v: string): seq<string> { if v == "" then [] else [v] }

  function Elements(t: string): seq<string>
    decreases |t|
  {
    if t == "" then [] else IfAny(Element(t).value) + Elements(SkipComma(Element(t).rest))
  }

  predicate Braced(s: string) { |s| >= 2 && s[0] == '{' && s[|s| - 1] == '}' }

  function Parse(s: string): seq<string> { if Braced(s) then Elements(s[1..|s| - 1]) else [] }

  // ---- The reader --------------------------------------------------------------------------------------

  /** What is left between position i and the closing brace. */
  function Rest(s: string, i: nat): (t: string)
    requires 1 <= i <= |s| - 1
    ensures |t| == |s| - 1 - i
    ensures t != "" ==> t[0] == s[i]
  {
    s[i..|s| - 1]
  }

  lemma RestStep(s: string, i: nat)
    requires 1 <= i < |s| - 1
    ensures Rest(s, i)[1..] == Rest(s, i + 1)
    ensures i + 1 < |s| - 1 ==> Rest(s, i)[1] == s[i + 1] && Rest(s, i)[2..] == Rest(s, i + 2)
  {
  }

  function Prefixed(v: string, s: Split): Split { Split(v + s.value, s.rest) }

  lemma PrefixedTwice(v: string, c: char, s: Split)
    ensures Prefixed(v, Prefixed([c], s)) == Prefixed(v + [c], s)
    ensures Prefixed("", s) == s
  {
    assert v + ([c] + s.value) == v + [c] + s.value;
  }

  lemma QuotedStep(s: string, v: string, i: nat)
    requires 1 <= i < |s| - 1 && s[i] != '"'
    ensures Prefixed(v, Unquote(Rest(s, i))) ==
              if s[i] == '\\' && i + 1 < |s| - 1 then Prefixed(v + [s[i + 1]], Unquote(Rest(s, i + 2)))
              else Prefixed(v + [s[i]], Unquote(Rest(s, i + 1)))
  {
    RestStep(s, i);
    if s[i] == '\\' && i + 1 < |s| - 1 {
      PrefixedTwice(v, s[i + 1], Unquote(Rest(s, i + 2)));
    } else {
      PrefixedTwice(v, s[i], Unquote(Rest(s, i + 1)));
    }
  }

  /** The reader is at i, inside the quotes, and has read v of the element `whole`. */
  ghost predicate InQuotes(s: string, whole: Split, v: string, i: nat) {
    1 <= i <= |s| - 1 && whole == Prefixed(v, Unquote(Rest(s, i)))
  }

  lemma QuotesStart(s: string, start: nat)
    requires 1 <= start <= |s| - 1
    ensures InQuotes(s, Unquote(Rest(s, start)), "", start)
  {
    PrefixedTwice("", 'x', Unquote(Rest(s, start)));
  }

  lemma QuotesStep(s: string, whole: Split, v: string, i: nat)
    requires InQuotes(s, whole, v, i) && i < |s| - 1 && s[i] != '"'
    ensures s[i] == '\\' && i + 1 < |s| - 1 ==> InQuotes(s, whole, v + [s[i + 1]], i + 2)
    ensures !(s[i] == '\\' && i + 1 < |s| - 1) ==> InQuotes(s, whole, v + [s[i]], i + 1)
  {
    QuotedStep(s, v, i);
  }

  lemma QuotesEnd(s: string, whole: Split, v: string, i: nat)
    requires InQuotes(s, whole, v, i) && (i < |s| - 1 ==> s[i] == '"')
    ensures Split(v, Rest(s, if i < |s| - 1 then i + 1 else i)) == whole
  {
    if i < |s| - 1 { RestStep(s, i); }
  }

  /** Advance over a quoted element whose opening quote is behind i. */
  method ReadQuoted(s: string, start: nat) returns (v: string, i: nat)
    requires 1 <= start <= |s| - 1
    ensures start <= i <= |s| - 1
    ensures Split(v, Rest(s, i)) == Unquote(Rest(s, start))
  {
    ghost var whole := Unquote(Rest(s, start));
    var n := |s|;
    v, i := "", start;
    QuotesStart(s, start);
    while i < n - 1 && s[i] != '"'
      invariant start <= i && InQuotes(s, whole, v, i)
    {
      QuotesStep(s, whole, v, i);
      if s[i] == '\\' && i + 1 < n - 1 {
        v, i := v + [s[i + 1]], i + 2;
      } else {
        v, i := v + [s[i]], i + 1;
      }
    }
    QuotesEnd(s, whole, v, i);
    if i < n - 1 && s[i] == '"' {
      i := i + 1;
    }
  }

  lemma BareStep(s: string, v: string, i: nat)
    requires 1 <= i < |s| - 1 && s[i] != ','
    ensures Prefixed(v, Bare(Rest(s, i))) == Prefixed(v + [s[i]], Bare(Rest(s, i + 1)))
  {
    RestStep(s, i);
    PrefixedTwice(v, s[i], Bare(Rest(s, i + 1)));
  }

  method ReadBare(s: string, start: nat) returns (v: string, i: nat)
    requires 1 <= start <= |s| - 1
    ensures start <= i <= |s| - 1
    ensures Split(v, Rest(s, i)) == Bare(Rest(s, start))
  {
    var n := |s|;
    v, i := "", start;
    PrefixedTwice("", 'x', Bare(Rest(s, start)));
    while i < n - 1 && s[i] != ','
      invariant start <= i <= n - 1
      invariant Bare(Rest(s, start)) == Prefixed(v, Bare(Rest(s, i)))
    {
      BareStep(s, v, i);
      v, i := v + [s[i]], i + 1;
    }
  }

  method ReadElement(s: string, start: nat) returns (v: string, i: nat)
    requires 1 <= start < |s| - 1
    ensures start <= i <= |s| - 1
    ensures Split(v, Rest(s, i)) == Element(Rest(s, start))
  {
    if s[start] == '"' {
      RestStep(s, start);
      v, i := ReadQuoted(s, start + 1);
    } else {
      v, i := ReadBare(s, start);
    }
  }

  method SkipAComma(s: string, j: nat) returns (i: nat)
    requires 1 <= j <= |s| - 1
    ensures 1 <= i <= |s| - 1 && Rest(s, i) == SkipComma(Rest(s, j))
  {
    i := j;
    if j < |s| - 1 && s[j] == ',' {
      RestStep(s, j);
      i := j + 1;
    }
  }

  lemma Progress(t: string)
    requires t != ""
    ensures |SkipComma(Element(t).rest)| < |t|
  {
  }

  lemma ElementsStep(out: seq<string>, t: string, v: string, rest: string, next: string)
    requires t != "" && Element(t) == Split(v, rest) && next == SkipComma(rest)
    ensures (if v != "" then out + [v] else out) + Elements(next) == out + Elements(t)
  {
    assert out + (IfAny(v) + Elements(next)) == out + IfAny(v) + Elements(next);
    assert v == "" ==> out + IfAny(v) == out;
  }

  /** One turn of the loop: an element, kept unless empty, and the comma behind it. */
  method ReadNext(s: string, start: nat, out: seq<string>) returns (out': seq<string>, i: nat)
    requires 1 <= start < |s| - 1
    ensures start < i <= |s| - 1
    ensures out' + Elements(Rest(s, i)) == out + Elements(Rest(s, start))
  {
    ghost var t := Rest(s, start);
    Progress(t);
    var v, j := ReadElement(s, start);
    i := SkipAComma(s, j);
    out' := if v != "" then out + [v] else out;
    ElementsStep(out, t, v, Rest(s, j), Rest(s, i));
  }

  lemma NothingLeft(out: seq<string>, t: string)
    requires t == ""
    ensures out + Elements(t) == out
  {
  }

  /** Terminates on every input, malformed ones included. */
  method ParsePgArray(s: string) returns (out: seq<string>)
    ensures out == Parse(s)
  {
    out := [];
    var i, n := 0, |s|;
    if n < 2 || s[0] != '{' || s[n - 1] != '}' { return; }
    i := 1;
    ghost var all := Elements(Rest(s, 1));
    while i < n - 1
      invariant 1 <= i <= n - 1
      invariant out + Elements(Rest(s, i)) == all
      decreases n - i
    {
      out, i := ReadNext(s, i, out);
    }
    NothingLeft(out, Rest(s, i));
  }

  // ---- The printer it inverts --------------------------------------------------------------------------

  function Escaped(v: string): string {
    if v == "" then ""
    else if v[0] == '"' || v[0] == '\\' then ['\\', v[0]] + Escaped(v[1..])
    else [v[0]] + Escaped(v[1..])
  }

  /** An element and whether it is quoted. The server quotes whatever contains braces, commas, quotes,
      backslashes or blanks; the reader needs only that bare elements hold no comma and start with no quote. */
  datatype Item = Item(value: string, quoted: bool)

  predicate Printable(x: Item) { x.quoted || (',' !in x.value && (x.value == "" || x.value[0] != '"')) }

  function PrintItem(x: Item): string { if x.quoted then "\"" + Escaped(x.value) + "\"" else x.value }

  function PrintItems(xs: seq<Item>): string {
    if xs == [] then ""
    else if |xs| == 1 then PrintItem(xs[0])
    else PrintItem(xs[0]) + "," + PrintItems(xs[1..])
  }

  function Print(xs: seq<Item>): string { "{" + PrintItems(xs) + "}" }

  function NonEmpty(xs: seq<Item>): seq<string> {
    if xs == [] then [] else IfAny(xs[0].value) + NonEmpty(xs[1..])
  }

  lemma {:induction false} UnquoteEscaped(v: string, tail: string)
    ensures Unquote(Escaped(v) + "\"" + tail) == Split(v, tail)
  {
    if v == "" {
      assert Escaped(v) + "\"" + tail == "\"" + tail;
    } else {
      UnquoteEscaped(v[1..], tail);
      EscapedStep(v, tail);
      UnquoteStep(v, Escaped(v[1..]) + "\"" + tail, Escaped(v) + "\"" + tail);
      assert v == [v[0]] + v[1..];
    }
  }

  lemma EscapedStep(v: string, tail: string)
    requires v != ""
    ensures Escaped(v) + "\"" + tail ==
            (if v[0] == '"' || v[0] == '\\' then ['\\', v[0]] else [v[0]]) + (Escaped(v[1..]) + "\"" + tail)
  {
  }

  lemma UnquoteStep(v: string, rest: string, t: string)
    requires v != ""
    requires t == (if v[0] == '"' || v[0] == '\\' then ['\\', v[0]] else [v[0]]) + rest
    ensures Unquote(t) == Prefixed([v[0]], Unquote(rest))
  {
    assert v[0] == '"' || v[0] == '\\' ==> t[2..] == rest;
    assert v[0] != '"' && v[0] != '\\' ==> t[1..] == rest;
  }

  lemma {:induction false} BareRead(v: string, tail: string)
    requires ',' !in v && (tail == "" || tail[0] == ',')
    ensures Bare(v + tail) == Split(v, tail)
  {
    if v == "" {
      assert v + tail == tail;
    } else {
      assert (v + tail)[1..] == v[1..] + tail && v == [v[0]] + v[1..];
      assert ',' !in v[1..];
      BareRead(v[1..], tail);
    }
  }

  lemma ItemRead(x: Item, tail: string)
    requires Printable(x) && (tail == "" || tail[0] == ',') && PrintItem(x) + tail != ""
    ensures Element(PrintItem(x) + tail) == Split(x.value, tail)
  {
    if x.quoted { QuotedRead(x, tail); } else { BareItemRead(x, tail); }
  }

  lemma QuotedRead(x: Item, tail: string)
    requires x.quoted
    ensures Element(PrintItem(x) + tail) == Split(x.value, tail)
  {
    var t := PrintItem(x) + tail;
    UnquoteEscaped(x.value, tail);
    assert t[0] == '"' && t[1..] == Escaped(x.value) + "\"" + tail;
  }

  lemma BareItemRead(x: Item, tail: string)
    requires !x.quoted && Printable(x) && (tail == "" || tail[0] == ',') && x.value + tail != ""
    ensures Element(PrintItem(x) + tail) == Split(x.value, tail)
  {
    BareRead(x.value, tail);
    assert x.value != "" ==> (x.value + tail)[0] == x.value[0];
  }

  lemma {:induction false} ItemsRead(xs: seq<Item>)
    requires forall i :: 0 <= i < |xs| ==> Printable(xs[i])
    ensures Elements(PrintItems(xs)) == NonEmpty(xs)
  {
    if |xs| == 1 {
      assert PrintItem(xs[0]) + "" == PrintItem(xs[0]);
      if PrintItems(xs) != "" { ItemRead(xs[0], ""); }
    } else if |xs| > 1 {
      ItemsRead(xs[1..]);
      var tail := "," + PrintItems(xs[1..]);
      assert PrintItems(xs) == PrintItem(xs[0]) + tail && tail[1..] == PrintItems(xs[1..]);
      ItemRead(xs[0], tail);
    }
  }

  /** Reading back what was printed gives the elements, empty ones left out. */
  lemma ParseInvertsPrint(xs: seq<Item>)
    requires forall i :: 0 <= i < |xs| ==> Printable(xs[i])
    ensures Parse(Print(xs)) == NonEmpty(xs)
  {
    ItemsRead(xs);
    Unbraced(PrintItems(xs));
  }

  lemma Unbraced(t: string)
    ensures Parse("{" + t + "}") == Elements(t)
  {
    var s := "{" + t + "}";
    assert s[0] == '{' && s[|s| - 1] == '}' && s[1..|s| - 1] == t;
  }

  // ---- Text no server prints ---------------------------------------------------------------------------------

  /** Without braces around it a text has no elements. */
  lemma NotAnArray(s: string)
    requires |s| < 2 || s[0] != '{' || s[|s| - 1] != '}'
    ensures Parse(s) == []
  {
  }

  function Quoted(v: string): string { "\"" + Escaped(v) + "\"" }

  /** After a closing quote the next element follows, with a comma or without. */
  lemma QuoteThenText(v: string, rest: string)
    requires rest == "" || rest[0] != ','
    ensures Parse("{" + (Quoted(v) + rest) + "}") == IfAny(v) + Parse("{" + rest + "}")
    ensures Parse("{" + (Quoted(v) + "," + rest) + "}") == IfAny(v) + Parse("{" + rest + "}")
  {
    Unbraced(rest);
    AfterQuote(v, rest);
    AfterQuote(v, "," + rest);
    assert ("," + rest)[1..] == rest;
    assert Quoted(v) + "," + rest == Quoted(v) + ("," + rest);
    Unbraced(Quoted(v) + rest);
    Unbraced(Quoted(v) + "," + rest);
  }

  lemma AfterQuote(v: string, tail: string)
    ensures Elements(Quoted(v) + tail) ==
            IfAny(v) + Elements(if tail != "" && tail[0] == ',' then tail[1..] else tail)
  {
    QuotedRead(Item(v, true), tail);
  }

  lemma {:induction false} Unclosed(v: string, tail: string)
    requires tail == "" || tail == "\\"
    ensures Unquote(Escaped(v) + tail) == Split(v + tail, "")
  {
    if v == "" {
      assert Escaped(v) + tail == tail;
    } else {
      Unclosed(v[1..], tail);
      var rest := Escaped(v[1..]) + tail;
      assert Escaped(v) + tail == (if v[0] == '"' || v[0] == '\\' then ['\\', v[0]] else [v[0]]) + rest;
      UnquoteStep(v, rest, Escaped(v) + tail);
      assert v + tail == [v[0]] + (v[1..] + tail);
    }
  }

  /** A quote that is never closed takes what is left, a backslash at the very end included. */
  lemma UnclosedQuote(v: string, tail: string)
    requires tail == "" || tail == "\\"
    ensures Parse("{" + ("\"" + Escaped(v) + tail) + "}") == IfAny(v + tail)
  {
    var t := "\"" + Escaped(v) + tail;
    Unclosed(v, tail);
    Unbraced(t);
    assert t[1..] == Escaped(v) + tail;
  }
}
