/** Facts about printed text: decimal numbers and separator-delimited fields. */
module Text {

  function Digit(d: nat): (c: char)
    requires d < 10
    ensures '0' <= c <= '9'
  {
    (('0' as int) + d) as char
  }

  /** std::to_string and operator<< on a non-negative integer. */
  function Dec(n: nat): (s: string)
    ensures s != ""
    ensures forall c :: c in s ==> '0' <= c <= '9'
    ensures n >= 10 ==> |s| >= 2
  {
    if n < 10 then [Digit(n)] else Dec(n / 10) + [Digit(n % 10)]
  }

  /** The number that decimal digits spell. */
  function Value(s: string): int {
    if s == "" then 0 else 10 * Value(s[..|s| - 1]) + (s[|s| - 1] as int - '0' as int)
  }

  /** A number prints as the digits that spell it, without leading zeros. */
  lemma {:induction false} DecSpells(n: nat)
    ensures Value(Dec(n)) == n && (n > 0 ==> Dec(n)[0] != '0')
  {
    if n >= 10 {
      DecSpells(n / 10);
      assert Dec(n)[..|Dec(n)| - 1] == Dec(n / 10);
    } else {
      assert Dec(n)[..0] == "";
    }
  }

  lemma {:induction false} DecInjective(m: nat, n: nat)
    requires Dec(m) == Dec(n)
    ensures m == n
  {
    var s, t := Dec(m), Dec(n);
    assert s[|s| - 1] == Digit(m % 10) && t[|t| - 1] == Digit(n % 10);
    if m >= 10 {
      assert n >= 10;
      assert s[..|s| - 1] == Dec(m / 10) && t[..|t| - 1] == Dec(n / 10);
      DecInjective(m / 10, n / 10);
    }
  }

  function IntStr(n: int): (s: string)
    ensures forall c :: c in s ==> c == '-' || '0' <= c <= '9'
    ensures s != "" && (s[0] == '-' <==> n < 0)
  {
    if n < 0 then "-" + Dec(-n) else
      assert Dec(n)[0] in Dec(n);
      Dec(n)
  }

  lemma IntStrInjective(m: int, n: int)
    requires IntStr(m) == IntStr(n)
    ensures m == n
  {
    if m < 0 && n < 0 {
      assert Dec(-m) == IntStr(m)[1..] && Dec(-n) == IntStr(n)[1..];
      DecInjective(-m, -n);
    } else if m >= 0 && n >= 0 {
      DecInjective(m, n);
    }
  }

  predicate StartsWith(c: char, s: string) { s == "" || s[0] == c }

  /** A field that does not contain the separator is recovered from what follows it. */
  lemma FieldUnique(c: char, a: string, x: string, b: string, y: string)
    requires c !in a && c !in b
    requires StartsWith(c, x) && StartsWith(c, y)
    requires a + x == b + y
    ensures a == b && x == y
  {
    var s := a + x;
    assert |a| < |s| ==> s[|a|] == x[0];
    assert forall i :: 0 <= i < |a| ==> s[i] == a[i];
    assert |b| < |s| ==> (b + y)[|b|] == y[0];
    assert forall i :: 0 <= i < |b| ==> (b + y)[i] == b[i];
    assert |a| == |b|;
    assert a == s[..|a|] && b == s[..|b|];
    assert x == s[|a|..] && y == s[|b|..];
  }

  /** As FieldUnique, read from the right: the part after the last separator. */
  lemma LastFieldUnique(c: char, a: string, x: string, b: string, y: string)
    requires c !in x && c !in y
    requires a + [c] + x == b + [c] + y
    ensures a == b && x == y
  {
    var s := a + [c] + x;
    assert forall i :: |a| < i < |s| ==> s[i] == x[i - |a| - 1];
    assert forall i :: |b| < i < |s| ==> (b + [c] + y)[i] == y[i - |b| - 1];
    assert s[|a|] == c && (b + [c] + y)[|b|] == c;
    assert |a| == |b|;
    assert a == s[..|a|] && b == s[..|b|];
    assert x == s[|a| + 1..] && y == s[|b| + 1..];
  }
}
