/** Decimal numerals, as printed by `%u` and `%d` and read back by `strtoull`. */
module Decimal {
  import opened Bytes

  predicate IsDigit(c: char) { '0' <= c <= '9' }

  predicate AllDigits(s: seq<byte>) { forall c :: c in s ==> IsDigit(c) }

  function Digit(d: nat): (c: byte)
    requires d < 10
    ensures IsDigit(c)
  {
    (d + '0' as int) as char
  }

  /** The numeral of `n`, without leading zeros. */
  function Dec(n: nat): (s: seq<byte>)
    ensures |s| > 0 && AllDigits(s)
    ensures s[0] == '0' ==> n == 0
  {
    if n < 10 then [Digit(n)] else Dec(n / 10) + [Digit(n % 10)]
  }

  /** The value of a run of digits. */
  function Value(s: seq<byte>): nat
    requires AllDigits(s)
  {
    if s == [] then 0 else
      assert s[|s| - 1] in s;
      10 * Value(s[..|s| - 1]) + (s[|s| - 1] as int - '0' as int)
  }

  lemma {:induction false} ValueOfDec(n: nat)
    ensures Value(Dec(n)) == n
  {
    if n >= 10 {
      assert Dec(n)[..|Dec(n)| - 1] == Dec(n / 10);
      ValueOfDec(n / 10);
    }
  }

  lemma DecInjective(m: nat, n: nat)
    requires Dec(m) == Dec(n)
    ensures m == n
  {
    ValueOfDec(m);
    ValueOfDec(n);
  }

  /** Two texts that end in a non-digit followed by a numeral agree only piece by piece. */
  lemma LastNumeral(p: seq<byte>, c: byte, m: nat, q: seq<byte>, d: byte, n: nat)
    requires !IsDigit(c) && !IsDigit(d)
    requires p + [c] + Dec(m) == q + [d] + Dec(n)
    ensures p == q && c == d && m == n
  {
    var s, t := p + [c] + Dec(m), q + [d] + Dec(n);
    assert forall i :: |p| < i < |s| ==> s[i] in Dec(m);
    assert forall i :: |q| < i < |t| ==> t[i] in Dec(n);
    assert s[|p|] == c && t[|q|] == d;
    assert p == s[..|p|] == q;
    assert Dec(m) == s[|p| + 1..] == t[|p| + 1..] == Dec(n);
    assert c == s[|p|] == d;
    DecInjective(m, n);
  }
}
