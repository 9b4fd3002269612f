/** Printed numbers, and what the scanners make of them. */
module Printed {
  import opened Bytes
  import opened Decimal
  import opened ProcText
  import opened ProcFile

  /** `%d`. */
  function DecInt(f: int): (s: seq<byte>)
    ensures s != [] && !IsSpace(s[0])
    ensures forall c :: c in s ==> IsDigit(c) || c == '-'
  {
    if f < 0 then ['-'] + Dec(0 - f)
    else
      assert Dec(f)[0] in Dec(f);
      Dec(f)
  }

  /** A printed number as a 64-bit unsigned field keeps it. */
  function AsU64(f: int): u64 {
    if 0 - TWO64 < f < TWO64 then f % TWO64 else TWO64 - 1
  }

  /** A printed number as a 32-bit signed field keeps it. */
  function AsInt32(f: int): int {
    ToInt32(if f >= TWO63 then TWO63 - 1 else if f < 0 - TWO63 then 0 - TWO63 else f)
  }

  lemma AsInt32Exact(f: int)
    requires 0 - TWO31 <= f < TWO31
    ensures AsInt32(f) == f
  {
  }

  predicate EndsNumber(t: seq<byte>) { t == [] || (!IsDigit(t[0]) && t[0] != 'x' && t[0] != 'X') }

  lemma {:induction false} DigitsSplit(d: seq<byte>, t: seq<byte>, base: nat, v: nat)
    requires base in {8, 10, 16} && forall c :: c in d ==> IsDigitOf(c, base)
    ensures Digits(d + t, base, v) == Digits(t, base, Digits(d, base, v).0)
  {
    if d == [] {
      assert d + t == t;
    } else {
      assert d[0] in d && (d + t)[1..] == d[1..] + t;
      DigitsSplit(d[1..], t, base, v * base + DigitValue(d[0]));
    }
  }

  const TEN: nat := 10
  const OCTAL: nat := 8

  lemma {:induction false} DigitsOfDec(n: nat)
    ensures Digits(Dec(n), TEN, 0).0 == n
  {
    var last := [Digit(n % 10)];
    assert last[1..] == [];
    if n >= 10 {
      DigitsOfDec(n / 10);
      DigitsSplit(Dec(n / 10), last, TEN, 0);
    }
  }

  lemma MagnitudeOfDec(n: nat, t: seq<byte>)
    requires EndsNumber(t)
    ensures Magnitude(Dec(n) + t) == (n, t)
  {
    var u := Dec(n) + t;
    assert u[0] == Dec(n)[0] && Dec(n)[0] in Dec(n);
    assert u[0..] == u;
    if n == 0 {
      assert u[1..] == t && BaseOf(u) == (8, 0);
      assert Digits(t, OCTAL, 0) == (0, t);
    } else {
      DigitsOfDec(n);
      DigitsSplit(Dec(n), t, TEN, 0);
      assert Digits(t, TEN, n) == (n, t);
    }
  }

  /** `u` is the unsigned part that follows the white space and the sign. */
  lemma ScanOf(s: seq<byte>, sign: seq<byte>, u: seq<byte>)
    requires sign in {[], ['-']} && SkipSpaces(s) == sign + u && u != [] && IsDigit(u[0])
    ensures Scan(s) == Number(sign != [], Magnitude(u).0, Magnitude(u).1)
  {
    var t := SkipSpaces(s);
    if sign == [] {
      assert t == u;
    } else {
      assert t[1..] == u;
    }
  }

  lemma DecStarts(n: nat, t: seq<byte>)
    ensures Dec(n) + t != [] && IsDigit((Dec(n) + t)[0])
  {
    assert Dec(n)[0] in Dec(n);
  }

  lemma ScanNumeral(s: seq<byte>, sign: seq<byte>, n: nat, t: seq<byte>)
    requires sign in {[], ['-']} && SkipSpaces(s) == sign + (Dec(n) + t) && EndsNumber(t)
    ensures Scan(s) == Number(sign != [], n, t)
  {
    MagnitudeOfDec(n, t);
    DecStarts(n, t);
    ScanOf(s, sign, Dec(n) + t);
  }

  lemma DecIntSplits(f: int, t: seq<byte>)
    ensures f < 0 ==> DecInt(f) + t == ['-'] + (Dec(0 - f) + t)
    ensures f >= 0 ==> DecInt(f) + t == [] + (Dec(f) + t)
  {
  }

  lemma ScanSigned(s: seq<byte>, f: int, t: seq<byte>)
    requires SkipSpaces(s) == DecInt(f) + t && EndsNumber(t)
    ensures Scan(s) == Number(f < 0, if f < 0 then 0 - f else f, t)
  {
    DecIntSplits(f, t);
    if f < 0 {
      ScanNumeral(s, ['-'], 0 - f, t);
    } else {
      ScanNumeral(s, [], f, t);
    }
  }

  /** A printed number scans back, wherever white space puts it. */
  lemma ScanPrinted(s: seq<byte>, f: int, t: seq<byte>)
    requires SkipSpaces(s) == DecInt(f) + t && EndsNumber(t)
    ensures Scan(s).rest == t
    ensures Unsigned(Scan(s)) == AsU64(f) && ToInt32(Signed(Scan(s))) == AsInt32(f)
  {
    ScanSigned(s, f, t);
  }

  // ----- numerals in the other bases

  function Figure(d: nat): (c: byte)
    requires d < 16
    ensures IsHex(c) && DigitValue(c) == d && (d < 8 ==> IsOctal(c))
  {
    if d < 10 then ('0' as nat + d) as char else ('a' as nat + d - 10) as char
  }

  /** `%o` and `%x`. */
  function Numeral(n: nat, base: nat): (s: seq<byte>)
    requires base in {8, 16}
    ensures s != [] && forall c :: c in s ==> IsDigitOf(c, base)
  {
    if n < base then [Figure(n)] else Numeral(n / base, base) + [Figure(n % base)]
  }

  lemma {:induction false} DigitsOfNumeral(n: nat, base: nat)
    requires base in {8, 16}
    ensures Digits(Numeral(n, base), base, 0).0 == n
  {
    var last := [Figure(n % base)];
    assert last[1..] == [];
    if n >= base {
      DigitsOfNumeral(n / base, base);
      DigitsSplit(Numeral(n / base, base), last, base, 0);
    }
  }

  lemma NumeralRead(n: nat, base: nat, t: seq<byte>)
    requires base in {8, 16} && (t == [] || !IsDigitOf(t[0], base))
    ensures Digits(Numeral(n, base) + t, base, 0) == (n, t)
  {
    DigitsOfNumeral(n, base);
    DigitsSplit(Numeral(n, base), t, base, 0);
  }

  /** A hexadecimal numeral scans back behind its prefix ... */
  lemma ScanHex(n: nat, t: seq<byte>)
    requires t == [] || !IsHex(t[0])
    ensures Scan("0x" + (Numeral(n, 16) + t)) == Number(false, n, t)
  {
    var r := Numeral(n, 16) + t;
    var u: seq<byte> := "0x" + r;
    NumeralRead(n, 16, t);
    assert Numeral(n, 16)[0] in Numeral(n, 16);
    assert u[2] == r[0] && u[2..] == r && SkipSpaces(u) == [] + u;
    ScanOf(u, [], u);
  }

  /** ... and an octal one behind its zero. */
  lemma ScanOctal(n: nat, t: seq<byte>)
    requires t == [] || !IsOctal(t[0])
    ensures Scan("0" + (Numeral(n, 8) + t)) == Number(false, n, t)
  {
    var u: seq<byte> := "0" + (Numeral(n, 8) + t);
    OctalMagnitude(n, t);
    assert SkipSpaces(u) == [] + u;
    ScanOf(u, [], u);
  }

  lemma OctalMagnitude(n: nat, t: seq<byte>)
    requires t == [] || !IsOctal(t[0])
    ensures Magnitude(['0'] + (Numeral(n, 8) + t)) == (n, t)
  {
    var r := Numeral(n, 8) + t;
    var u: seq<byte> := ['0'] + r;
    NumeralRead(n, 8, t);
    assert Numeral(n, 8)[0] in Numeral(n, 8);
    assert u[1] == r[0] && u[1..] == r && u[0..] == u;
  }

  lemma PrintedStarts(f: int, t: seq<byte>)
    ensures DecInt(f) + t != [] && !IsSpace((DecInt(f) + t)[0])
    ensures SkipSpaces(DecInt(f) + t) == DecInt(f) + t
  {
    assert (DecInt(f) + t)[0] == DecInt(f)[0];
  }

  lemma {:induction false} SkipPrintedWord(w: seq<byte>, t: seq<byte>)
    requires forall c :: c in w ==> !IsSpace(c)
    requires t != [] && IsSpace(t[0])
    ensures SkipWord(w + t) == t
  {
    if w == [] {
      assert w + t == t;
    } else {
      assert w[0] in w && (w + t)[1..] == w[1..] + t;
      SkipPrintedWord(w[1..], t);
    }
  }

  lemma SpacesOnce(s: seq<byte>)
    ensures SkipSpaces(SkipSpaces(s)) == SkipSpaces(s)
  {
  }

  lemma {:induction false} FindFirst(before: seq<byte>, r: seq<byte>, key: seq<byte>)
    requires StartsWith(r, key)
    requires forall i :: 0 <= i < |before| ==> !StartsWith((before + r)[i..], key)
    ensures Find(before + r, key) == Some(r)
  {
    var s := before + r;
    if before == [] {
      assert s == r;
    } else {
      assert s[0..] == s && s[1..] == before[1..] + r;
      forall i | 0 <= i < |before| - 1 ensures !StartsWith((before[1..] + r)[i..], key) {
        assert (before[1..] + r)[i..] == s[i + 1..];
      }
      FindFirst(before[1..], r, key);
    }
  }

  datatype Unit = Plain | Kilo | Mega

  function UnitText(u: Unit): seq<byte> {
    match u case Plain => "" case Kilo => " kB" case Mega => " MB"
  }

  function UnitFactor(u: Unit): nat {
    match u case Plain => 1 case Kilo => 1024 case Mega => 1024 * 1024
  }

  function ScaledLine(key: seq<byte>, n: nat, u: Unit, more: seq<byte>): seq<byte> {
    key + ([' '] + (Dec(n) + (UnitText(u) + (['\n'] + more))))
  }

  lemma FactorOfUnit(u: Unit, more: seq<byte>)
    ensures Factor(UnitText(u) + (['\n'] + more)) == if u == Plain then Factor(more) else UnitFactor(u)
  {
    var r := ['\n'] + more;
    assert r[1..] == more;
    if u == Plain {
      assert UnitText(u) + r == r;
    } else {
      assert (UnitText(u) + r)[0] == ' ' && (UnitText(u) + r)[1] == UnitText(u)[1];
    }
  }

  lemma SkipOneSpace(c: byte, r: seq<byte>)
    requires IsSpace(c) && r != [] && !IsSpace(r[0])
    ensures SkipSpaces([c] + r) == r
  {
    assert ([c] + r)[1..] == r;
  }

  lemma ScanAfterSpace(n: nat, tail: seq<byte>)
    requires EndsNumber(tail)
    ensures Scan([' '] + (Dec(n) + tail)) == Number(false, n, tail)
  {
    DecStarts(n, tail);
    SkipOneSpace(' ', Dec(n) + tail);
    ScanSigned([' '] + (Dec(n) + tail), n, tail);
  }

  /** The number of a line is scaled by its own unit; when it has none, the first `k` or `M` that
      comes anywhere behind the line is taken for one. */
  lemma ScaledOf(before: seq<byte>, key: seq<byte>, n: nat, u: Unit, more: seq<byte>)
    requires n < TWO64
    requires forall i :: 0 <= i < |before| ==> !StartsWith((before + ScaledLine(key, n, u, more))[i..], key)
    ensures Scaled(before + ScaledLine(key, n, u, more), key)
         == Times64(n, if u == Plain then Factor(more) else UnitFactor(u))
  {
    var r := ScaledLine(key, n, u, more);
    var tail := UnitText(u) + (['\n'] + more);
    assert r[..|key|] == key && r[|key|..] == [' '] + (Dec(n) + tail);
    FindFirst(before, r, key);
    ScanAfterSpace(n, tail);
    FactorOfUnit(u, more);
  }

  /** 2^64 leaves 16 modulo 1023, so 0 is its only multiple by less than 1023 that 1023 divides. */
  lemma NoOtherKilo(n: nat, k: nat)
    requires n < TWO64 && n * 1023 == k * TWO64
    ensures n == 0
  {
    var q := n - k * (TWO64 / 1023);
    assert 16 * k == 1023 * q && k < 1023;
    assert q == 16 * (64 * q - k);
  }

  /** The same modulo 1048575. */
  lemma NoOtherMega(n: nat, k: nat)
    requires n < TWO64 && n * 1048575 == k * TWO64
    ensures n == 0
  {
    var q := n - k * (TWO64 / 1048575);
    assert 16 * k == 1048575 * q && k < 1048575;
    assert q == 16 * (65536 * q - k);
  }

  /** The same for a text that starts with the number, when there is no key. */
  lemma ScaledFront(n: nat, u: Unit, more: seq<byte>)
    requires n < TWO64
    ensures ScaledFrom([' '] + (Dec(n) + (UnitText(u) + (['\n'] + more))))
         == Times64(n, if u == Plain then Factor(more) else UnitFactor(u))
  {
    ScanAfterSpace(n, UnitText(u) + (['\n'] + more));
    FactorOfUnit(u, more);
  }

  /** A wrong unit is never hidden by the wrap-around. */
  lemma FixedPoint(n: nat, f: nat)
    requires f in {1, 1024, 1024 * 1024} && 0 < n < TWO64
    ensures Times64(n, f) == n <==> f == 1
  {
    if f == 1 {
      assert n % TWO64 == n;
    } else if f == 1024 && Times64(n, 1024) == n {
      NoOtherKilo(n, n * 1024 / TWO64);
    } else if f == 1048576 && Times64(n, 1048576) == n {
      NoOtherMega(n, n * 1048576 / TWO64);
    }
  }

  lemma KeptIff(n: u64, f: nat)
    ensures Times64(n, f) == n * f <==> n * f < TWO64
  {
    if n * f < TWO64 {
      assert n * f % TWO64 == n * f;
    }
  }

  /** The promise `get_scaled("Size: 32 kB", "Size:") == 32768`, and exactly when it is kept: the line
      has a unit, or nothing behind it looks like one, and the value fits 64 bits. Only 0 is always
      right. */
  lemma ScaledIff(before: seq<byte>, key: seq<byte>, n: nat, u: Unit, more: seq<byte>)
    requires n < TWO64
    requires forall i :: 0 <= i < |before| ==> !StartsWith((before + ScaledLine(key, n, u, more))[i..], key)
    ensures Scaled(before + ScaledLine(key, n, u, more), key) == n * UnitFactor(u)
       <==> n == 0 || (n * UnitFactor(u) < TWO64 && (u != Plain || ('k' !in more && 'M' !in more)))
  {
    ScaledOf(before, key, n, u, more);
    KeptIff(n, UnitFactor(u));
    if n > 0 && u == Plain {
      FixedPoint(n, Factor(more));
    }
  }

  /** 2^54 kilobytes are none. */
  lemma TooManyKilobytes(key: seq<byte>, n: nat, more: seq<byte>)
    requires n * 1024 == TWO64
    ensures Scaled([] + ScaledLine(key, n, Kilo, more), key) == 0
  {
    ScaledOf([], key, n, Kilo, more);
  }

  /** A line without a unit, taken for kilobytes because of one letter behind it. */
  lemma WrongUnit(key: seq<byte>, n: nat, more: seq<byte>)
    requires 0 < n < 1000 && more != [] && more[0] == 'k'
    ensures Scaled([] + ScaledLine(key, n, Plain, more), key) == n * 1024
  {
    ScaledOf([], key, n, Plain, more);
    KeptIff(n, 1024);
  }
}
