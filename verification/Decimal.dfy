/** Decimal printing of object ids and page indices, and reading it back. */
module Decimal {

  function Digit(d: nat): char
    requires d < 10
  {
    '0' + d as char
  }

  predicate IsDigit(c: char) {
    '0' <= c <= '9'
  }

  function ToString(n: nat): (s: string)
    ensures |s| > 0 && forall i :: 0 <= i < |s| ==> IsDigit(s[i])
  {
    if n < 10 then [Digit(n)] else ToString(n / 10) + [Digit(n % 10)]
  }

  function DigitValue(c: char): (d: nat)
    requires IsDigit(c)
    ensures d < 10
  {
    (c - '0') as nat
  }

  /** Value of a string of digits. */
  function Value(s: string): nat
    requires forall i :: 0 <= i < |s| ==> IsDigit(s[i])
  {
    if s == [] then 0 else 10 * Value(s[..|s| - 1]) + DigitValue(s[|s| - 1])
  }

  lemma {:induction false} ValueOfToString(n: nat)
    ensures Value(ToString(n)) == n
  {
    if n >= 10 {
      ValueOfToString(n / 10);
      var s := ToString(n);
      assert s[..|s| - 1] == ToString(n / 10);
    }
  }

  lemma ToStringInjective(a: nat, b: nat)
    requires ToString(a) == ToString(b)
    ensures a == b
  {
    ValueOfToString(a);
    ValueOfToString(b);
  }

  /** A printed number: digits, without a leading zero. */
  predicate IsNumber(s: string) {
    s != [] && (forall i :: 0 <= i < |s| ==> IsDigit(s[i])) && (s[0] == '0' ==> |s| == 1)
  }

  lemma {:induction false} ToStringIsNumber(n: nat)
    ensures IsNumber(ToString(n)) && (n > 0 ==> ToString(n)[0] != '0')
  {
    if n >= 10 { ToStringIsNumber(n / 10); }
  }

  lemma {:induction false} ToStringOfValue(s: string)
    requires IsNumber(s)
    ensures ToString(Value(s)) == s && (s[0] != '0' ==> Value(s) > 0)
  {
    var d := DigitValue(s[|s| - 1]);
    assert [Digit(d)] == s[|s| - 1..];
    if |s| > 1 {
      ToStringOfValue(s[..|s| - 1]);
      assert s == s[..|s| - 1] + [Digit(d)];
    } else {
      assert s[..0] == [] && s == [Digit(d)];
    }
  }

  /** A digit-free separator before a run of digits can be found again from the right. */
  lemma SplitAtLast(a: string, b: string, c: string, d: string, sep: char)
    requires sep !in c && sep !in d
    requires a + [sep] + c == b + [sep] + d
    ensures a == b && c == d
  {
    var s, t := a + [sep] + c, b + [sep] + d;
    assert s[|a|] == sep && t[|b|] == sep;
    assert forall i :: |a| < i < |s| ==> s[i] == c[i - |a| - 1];
    assert forall i :: |b| < i < |t| ==> t[i] == d[i - |b| - 1];
    assert |a| == |b|;
    assert a == s[..|a|] && b == t[..|b|];
    assert c == s[|a| + 1..] && d == t[|b| + 1..];
  }
}
