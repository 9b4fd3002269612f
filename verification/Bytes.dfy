/** Octets and the fixed-width integers that the wire records are made of. */
module Bytes {
  const TWO64: nat := 0x1_0000_0000_0000_0000
  const TWO63: nat := 0x8000_0000_0000_0000
  const TWO32: nat := 0x1_0000_0000
  const TWO31: nat := 0x8000_0000

  /** `(dev_t) -1`. */
  const NO_DEVICE: nat := TWO64 - 1

  /** An octet, kept as a character so that banner text and record bytes share one type. */
  type byte = c: char | (c as int) < 256 witness '\0'

  type u64 = x: int | 0 <= x < TWO64

  function Min(a: nat, b: nat): nat { if a < b then a else b }

  /** The size of a standard buffer. */
  const BUFSIZ: nat := 8192

  predicate IsSpace(c: byte) { c == ' ' || '\t' <= c <= '\r' }

  datatype Option<+T> = None | Some(value: T)

  lemma Assoc(a: seq<byte>, b: seq<byte>, c: seq<byte>)
    ensures a + (b + c) == (a + b) + c
  {
  }

  lemma EmptyEnds(a: seq<byte>)
    ensures [] + a == a == a + []
  {
  }

  lemma MulSign(d: int, m: nat)
    ensures d >= 1 ==> d * m >= m
    ensures d <= -1 ==> d * m <= 0 - m
  {
  }

  /** A quotient is known by its bounds. */
  lemma QuotientIs(x: int, q: int, m: nat)
    requires m > 0 && q * m <= x < q * m + m
    ensures x / m == q
  {
    var d := x / m - q;
    MulSign(d, m);
    assert x == x / m * m + x % m && x / m * m == q * m + d * m;
  }

  function Pow256(k: nat): (p: nat)
    ensures p > 0
  {
    if k == 0 then 1 else 256 * Pow256(k - 1)
  }

  /** Bytes in a 64-bit word. */
  const WORD: nat := 8

  lemma Pow256OfWord()
    ensures Pow256(WORD) == TWO64
  {
    assert Pow256(2) == 0x1_0000;
    assert Pow256(4) == 0x1_0000_0000;
    assert Pow256(6) == 0x1_0000_0000_0000;
    assert Pow256(8) == TWO64;
  }

  /** The `k` low-order bytes of `n`, least significant first. */
  function Put(n: nat, k: nat): (s: seq<byte>)
    ensures |s| == k
  {
    if k == 0 then [] else [(n % 256) as char] + Put(n / 256, k - 1)
  }

  function Get(s: seq<byte>): (n: nat)
    ensures n < Pow256(|s|)
  {
    if s == [] then 0 else s[0] as int + 256 * Get(s[1..])
  }

  lemma {:induction false} GetPut(n: nat, k: nat)
    requires n < Pow256(k)
    ensures Get(Put(n, k)) == n
  {
    if k != 0 {
      assert Put(n, k)[1..] == Put(n / 256, k - 1);
      GetPut(n / 256, k - 1);
    }
  }

  function Put64(x: u64): (s: seq<byte>)
    ensures |s| == WORD
  {
    Put(x, WORD)
  }

  /** Reading back the eight bytes that `Put64` wrote gives the same number. */
  lemma Get64Put64(x: u64)
    ensures Get(Put64(x)) == x
  {
    Pow256OfWord();
    GetPut(x, WORD);
  }

  function Zeros(n: nat): (s: seq<byte>)
    ensures |s| == n && forall i :: 0 <= i < n ==> s[i] == '\0'
  {
    seq(n, i => '\0')
  }

  /** `s` laid over `n` zeroed bytes: what a `memcpy` into a cleared buffer leaves. */
  function Fit(s: seq<byte>, n: nat): (t: seq<byte>)
    ensures |t| == n
    ensures |s| <= n ==> s <= t && forall i :: |s| <= i < n ==> t[i] == '\0'
  {
    if |s| <= n then s + Zeros(n - |s|) else s[..n]
  }
}
