/** Decimal rendering of numbers, as it appears inside composed keys and tokens. */
module Decimal {

  function Digit(d: nat): (c: char)
    requires d < 10
    ensures '0' <= c <= '9'
  {
    '0' + d as char
  }

  function Dec(n: nat): (s: string)
    ensures s != "" && forall i | 0 <= i < |s| :: '0' <= s[i] <= '9'
  {
    if n < 10 then [Digit(n)] else Dec(n / 10) + [Digit(n % 10)]
  }

  function Value(s: string): nat
    requires forall i | 0 <= i < |s| :: '0' <= s[i] <= '9'
  {
    if s == "" then 0 else 10 * Value(s[..|s| - 1]) + (s[|s| - 1] - '0') as nat
  }

  lemma {:induction false} DecRoundTrip(n: nat)
    ensures Value(Dec(n)) == n
  {
    if n >= 10 {
      DecRoundTrip(n / 10);
      assert Dec(n)[..|Dec(n)| - 1] == Dec(n / 10);
    } else {
      assert Dec(n)[..0] == "";
    }
  }

  lemma SeparatorPlace(a: string, x: string, b: string, y: string, sep: char)
    requires a + [sep] + x == b + [sep] + y && sep !in x
    ensures |b| <= |a|
  {
    var s, t := a + [sep] + x, b + [sep] + y;
    assert t[|b|] == sep;
    assert forall i | |a| < i < |s| :: s[i] == x[i - |a| - 1];
  }

  /** A prefix, a separator that is no digit, a number: all three can be read back. */
  lemma NumberedNameInjective(a: string, m: nat, b: string, n: nat, sep: char)
    requires !('0' <= sep <= '9')
    requires a + [sep] + Dec(m) == b + [sep] + Dec(n)
    ensures a == b && m == n
  {
    SeparatorPlace(a, Dec(m), b, Dec(n), sep);
    SeparatorPlace(b, Dec(n), a, Dec(m), sep);
    var s, t := a + [sep] + Dec(m), b + [sep] + Dec(n);
    assert a == s[..|a|] && b == t[..|b|];
    assert Dec(m) == s[|a| + 1..] && Dec(n) == t[|b| + 1..];
    DecRoundTrip(m);
    DecRoundTrip(n);
  }
}
