/** Scanners over NUL-terminated text.  A pointer into a buffer is specified by the C string that
    starts there; the methods walk the buffer by index. */
module ProcText {
  import opened Bytes
  import opened Decimal

  const NUL: byte := '\0'

  /** The C string at `p`. */
  ghost function CStr(m: seq<byte>, p: nat): (s: seq<byte>)
    requires p <= |m| && NUL in m[p..]
    decreases |m| - p
  {
    if m[p] == NUL then []
    else
      assert m[p..][1..] == m[p + 1..];
      [m[p]] + CStr(m, p + 1)
  }

  /** There is a C string at `p`. */
  ghost predicate InText(m: seq<byte>, p: nat) { p <= |m| && NUL in m[p..] }

  lemma InTextNext(m: seq<byte>, p: nat)
    requires InText(m, p)
    ensures p < |m|
    ensures m[p] == NUL <==> CStr(m, p) == []
    ensures m[p] != NUL ==> InText(m, p + 1) && CStr(m, p)[0] == m[p] && CStr(m, p)[1..] == CStr(m, p + 1)
  {
    assert m[p] != NUL ==> m[p..][1..] == m[p + 1..];
  }

  // ----- tokens and lines

  function SkipSpaces(s: seq<byte>): (r: seq<byte>)
    ensures |r| <= |s| && (r != [] ==> !IsSpace(r[0]))
  {
    if s != [] && IsSpace(s[0]) then SkipSpaces(s[1..]) else s
  }

  function SkipWord(s: seq<byte>): (r: seq<byte>)
    ensures |r| <= |s|
  {
    if s != [] && !IsSpace(s[0]) then SkipWord(s[1..]) else s
  }

  function SkipToken(s: seq<byte>): seq<byte> { SkipSpaces(SkipWord(SkipSpaces(s))) }

  function SkipTokens(s: seq<byte>, n: nat): seq<byte>
    decreases n
  {
    if n == 0 then s else SkipTokens(SkipToken(s), n - 1)
  }

  function SkipLine(s: seq<byte>): (r: seq<byte>)
    ensures s != [] ==> |r| < |s|
    ensures s == [] ==> r == []
  {
    if s == [] then [] else if s[0] == '\n' then s[1..] else SkipLine(s[1..])
  }

  method NextToken(m: array<byte>, p: nat) returns (q: nat)
    requires InText(m[..], p)
    ensures InText(m[..], q) && CStr(m[..], q) == SkipSpaces(CStr(m[..], p))
  {
    q := p;
    InTextNext(m[..], q);
    while IsSpace(m[q])
      invariant q < m.Length && InText(m[..], q) && SkipSpaces(CStr(m[..], q)) == SkipSpaces(CStr(m[..], p))
      decreases m.Length - q
    {
      InTextNext(m[..], q);
      q := q + 1;
      InTextNext(m[..], q);
    }
    InTextNext(m[..], q);
  }

  method SkipTokenAt(m: array<byte>, p: nat) returns (q: nat)
    requires InText(m[..], p)
    ensures InText(m[..], q) && CStr(m[..], q) == SkipToken(CStr(m[..], p))
  {
    q := NextToken(m, p);
    InTextNext(m[..], q);
    ghost var s := CStr(m[..], q);
    while m[q] != NUL && !IsSpace(m[q])
      invariant q < m.Length && InText(m[..], q) && SkipWord(CStr(m[..], q)) == SkipWord(s)
      decreases m.Length - q
    {
      InTextNext(m[..], q);
      q := q + 1;
      InTextNext(m[..], q);
    }
    InTextNext(m[..], q);
    q := NextToken(m, q);
  }

  method SkipMultipleToken(m: array<byte>, p: nat, count: nat) returns (q: nat)
    requires InText(m[..], p)
    ensures InText(m[..], q) && CStr(m[..], q) == SkipTokens(CStr(m[..], p), count)
  {
    q := p;
    var left := count;
    while left > 0
      invariant InText(m[..], q) && SkipTokens(CStr(m[..], q), left) == SkipTokens(CStr(m[..], p), count)
    {
      q := SkipTokenAt(m, q);
      left := left - 1;
    }
  }

  method SkipLineAt(m: array<byte>, p: nat) returns (q: nat)
    requires InText(m[..], p)
    ensures InText(m[..], q) && CStr(m[..], q) == SkipLine(CStr(m[..], p))
  {
    q := p;
    InTextNext(m[..], q);
    while m[q] != NUL && m[q] != '\n'
      invariant q < m.Length && InText(m[..], q) && SkipLine(CStr(m[..], q)) == SkipLine(CStr(m[..], p))
      decreases m.Length - q
    {
      InTextNext(m[..], q);
      q := q + 1;
      InTextNext(m[..], q);
    }
    InTextNext(m[..], q);
    if m[q] != NUL {
      q := q + 1;
    }
  }

  // ----- numbers, with the base taken from the prefix

  predicate IsOctal(c: byte) { '0' <= c <= '7' }

  predicate IsHex(c: byte) { IsDigit(c) || 'a' <= c <= 'f' || 'A' <= c <= 'F' }

  function DigitValue(c: byte): nat
    requires IsHex(c)
  {
    if IsDigit(c) then c as nat - '0' as nat
    else if 'a' <= c then c as nat - 'a' as nat + 10
    else c as nat - 'A' as nat + 10
  }

  predicate IsDigitOf(c: byte, base: nat) {
    if base == 8 then IsOctal(c) else if base == 16 then IsHex(c) else IsDigit(c)
  }

  /** The leading digits of `s`, appended to the value `v`, and what follows them. */
  function Digits(s: seq<byte>, base: nat, v: nat): (nat, seq<byte>)
    requires base in {8, 10, 16}
  {
    if s != [] && IsDigitOf(s[0], base) then Digits(s[1..], base, v * base + DigitValue(s[0])) else (v, s)
  }

  datatype Number = Number(negative: bool, magnitude: nat, rest: seq<byte>)

  /** The base that a prefix of the unsigned part selects, and the prefix's length. */
  function BaseOf(u: seq<byte>): (b: (nat, nat))
    ensures b.0 in {8, 10, 16} && b.1 <= |u|
  {
    if |u| > 2 && u[0] == '0' && (u[1] == 'x' || u[1] == 'X') && IsHex(u[2]) then (16, 2)
    else if u != [] && u[0] == '0' then (8, 0)
    else (10, 0)
  }

  /** The unsigned part of a number: digits in the base that their prefix selects. */
  function Magnitude(u: seq<byte>): (nat, seq<byte>) {
    var (base, skip) := BaseOf(u);
    Digits(u[skip..], base, 0)
  }

  /** `strtoull` and `strtol` with base 0, before their range limits. */
  function Scan(s: seq<byte>): Number {
    var t := SkipSpaces(s);
    var u := if t != [] && (t[0] == '-' || t[0] == '+') then t[1..] else t;
    if u == [] || !IsDigit(u[0]) then
      Number(false, 0, s)
    else
      var (v, r) := Magnitude(u);
      Number(t[0] == '-', v, r)
  }

  /** `strtoull`: too large a magnitude saturates, and a minus sign negates modulo 2^64. */
  function Unsigned(n: Number): u64 {
    if n.magnitude >= TWO64 then TWO64 - 1
    else if n.negative && n.magnitude > 0 then TWO64 - n.magnitude
    else n.magnitude
  }

  /** `strtol` on a 64-bit `long`. */
  function Signed(n: Number): int {
    if n.negative then (if n.magnitude > TWO63 then 0 - TWO63 else 0 - n.magnitude)
    else if n.magnitude >= TWO63 then TWO63 - 1
    else n.magnitude
  }

  /** Assignment of a `long` to a 32-bit `int`. */
  function ToInt32(v: int): int {
    var w := v % TWO32;
    if w >= TWO31 then w - TWO32 else w
  }

  method BaseAt(m: array<byte>, p: nat) returns (base: nat, skip: nat)
    requires InText(m[..], p)
    ensures (base, skip) == BaseOf(CStr(m[..], p)) && InText(m[..], p + skip)
    ensures CStr(m[..], p + skip) == CStr(m[..], p)[skip..]
  {
    ghost var s := m[..];
    InTextNext(s, p);
    if m[p] != '0' {
      return 10, 0;
    }
    InTextNext(s, p + 1);
    if m[p + 1] == 'x' || m[p + 1] == 'X' {
      InTextNext(s, p + 2);
      if IsHex(m[p + 2]) {
        return 16, 2;
      }
    }
    return 8, 0;
  }

  method DigitsAt(m: array<byte>, p: nat, base: nat) returns (v: nat, q: nat)
    requires InText(m[..], p) && base in {8, 10, 16}
    ensures InText(m[..], q) && (v, CStr(m[..], q)) == Digits(CStr(m[..], p), base, 0)
  {
    v, q := 0, p;
    InTextNext(m[..], q);
    while IsDigitOf(m[q], base)
      invariant q < m.Length && InText(m[..], q) && Digits(CStr(m[..], q), base, v) == Digits(CStr(m[..], p), base, 0)
      decreases m.Length - q
    {
      InTextNext(m[..], q);
      v, q := v * base + DigitValue(m[q]), q + 1;
      InTextNext(m[..], q);
    }
    InTextNext(m[..], q);
  }

  method MagnitudeAt(m: array<byte>, p: nat) returns (v: nat, q: nat)
    requires InText(m[..], p)
    ensures InText(m[..], q) && (v, CStr(m[..], q)) == Magnitude(CStr(m[..], p))
  {
    var base, skip := BaseAt(m, p);
    v, q := DigitsAt(m, p + skip, base);
  }

  method ScanAt(m: array<byte>, p: nat) returns (negative: bool, magnitude: nat, q: nat)
    requires InText(m[..], p)
    ensures InText(m[..], q) && Scan(CStr(m[..], p)) == Number(negative, magnitude, CStr(m[..], q))
  {
    var t := NextToken(m, p);
    InTextNext(m[..], t);
    var u := if m[t] == '-' || m[t] == '+' then t + 1 else t;
    InTextNext(m[..], u);
    if !IsDigit(m[u]) {
      return false, 0, p;
    }
    negative := m[t] == '-';
    magnitude, q := MagnitudeAt(m, u);
  }

  method Strtoull(m: array<byte>, p: nat) returns (v: u64, q: nat)
    requires InText(m[..], p)
    ensures InText(m[..], q) && v == Unsigned(Scan(CStr(m[..], p))) && CStr(m[..], q) == Scan(CStr(m[..], p)).rest
  {
    var negative, magnitude;
    negative, magnitude, q := ScanAt(m, p);
    v := if magnitude >= TWO64 then TWO64 - 1 else if negative && magnitude > 0 then TWO64 - magnitude else magnitude;
  }

  method Strtol(m: array<byte>, p: nat) returns (v: int, q: nat)
    requires InText(m[..], p)
    ensures InText(m[..], q) && v == Signed(Scan(CStr(m[..], p))) && CStr(m[..], q) == Scan(CStr(m[..], p)).rest
  {
    var negative, magnitude;
    negative, magnitude, q := ScanAt(m, p);
    v := if negative then (if magnitude > TWO63 then 0 - TWO63 else 0 - magnitude)
         else if magnitude >= TWO63 then TWO63 - 1 else magnitude;
  }

  // ----- searching

  predicate StartsWith(s: seq<byte>, key: seq<byte>) { |key| <= |s| && s[..|key|] == key }

  /** `strstr`: the text from the first occurrence of `key` on. */
  function Find(s: seq<byte>, key: seq<byte>): (r: Option<seq<byte>>)
    ensures r.Some? ==> StartsWith(r.value, key) && |r.value| <= |s|
  {
    if StartsWith(s, key) then Some(s)
    else if s == [] then None
    else Find(s[1..], key)
  }

  /** The text before and after the last `)`. */
  function AfterCmd(s: seq<byte>): Option<(seq<byte>, seq<byte>)> {
    if s == [] then None
    else
      match AfterCmd(s[1..])
      case Some(ba) => Some(([s[0]] + ba.0, ba.1))
      case None => if s[0] == ')' then Some(([], s[1..])) else None
  }

  lemma {:induction false} AfterCmdAppend(s: seq<byte>, c: byte)
    ensures AfterCmd(s + [c]) == if c == ')' then Some((s, []))
                                 else match AfterCmd(s) case Some(ba) => Some((ba.0, ba.1 + [c])) case None => None
  {
    if s == [] {
      assert [] + [c] == [c];
    } else {
      assert (s + [c])[1..] == s[1..] + [c];
      AfterCmdAppend(s[1..], c);
      assert [s[0]] + s[1..] == s;
    }
  }

  lemma {:induction false} CStrIs(m: seq<byte>, p: nat, q: nat)
    requires p <= q < |m| && m[q] == NUL && NUL !in m[p..q]
    ensures InText(m, p) && CStr(m, p) == m[p..q]
    decreases q - p
  {
    assert m[p..][q - p] == NUL;
    if p < q {
      assert m[p] == m[p..q][0] && m[p..q][1..] == m[p + 1..q];
      CStrIs(m, p + 1, q);
    }
  }

  /** The loop of `strrchr`: the last `)`, and the end of the text. */
  method LastParen(m: array<byte>) returns (p: Option<nat>, q: nat)
    requires InText(m[..], 0)
    ensures q < m.Length && m[q] == NUL && NUL !in m[..q] && (p.Some? ==> p.value < q)
    ensures AfterCmd(m[..q]) == match p case None => None case Some(i) => Some((m[..i], m[i + 1..q]))
  {
    p, q := None, 0;
    InTextNext(m[..], q);
    while m[q] != NUL
      invariant q < m.Length && InText(m[..], q) && NUL !in m[..q] && (p.Some? ==> p.value < q)
      invariant AfterCmd(m[..q]) == match p case None => None case Some(i) => Some((m[..i], m[i + 1..q]))
      decreases m.Length - q
    {
      InTextNext(m[..], q);
      AfterCmdAppend(m[..q], m[q]);
      assert m[..q + 1] == m[..q] + [m[q]];
      if m[q] == ')' {
        p := Some(q);
        assert m[q + 1..q + 1] == [];
      } else if p.Some? {
        assert m[p.value + 1..q + 1] == m[p.value + 1..q] + [m[q]];
      }
      q := q + 1;
      InTextNext(m[..], q);
    }
  }

  /** `strrchr` for `)`, then the `NUL` that ends the text there. */
  method ProcStatAfterCmd(m: array<byte>) returns (p: Option<nat>)
    requires InText(m[..], 0)
    modifies m
    ensures InText(m[..], 0)
    ensures match AfterCmd(old(CStr(m[..], 0)))
            case None => p == None && m[..] == old(m[..])
            case Some(ba) => p.Some? && InText(m[..], p.value) && CStr(m[..], 0) == ba.0 && CStr(m[..], p.value) == ba.1
  {
    var q;
    p, q := LastParen(m);
    CStrIs(m[..], 0, q);
    if p.Some? {
      var i := p.value;
      ghost var was := m[..];
      m[i] := NUL;
      p := Some(i + 1);
      assert m[..i] == was[..i] && m[i + 1..q] == was[i + 1..q];
      assert forall c :: c in was[..i] || c in was[i + 1..q] ==> c in was[..q];
      CStrIs(m[..], 0, i);
      CStrIs(m[..], i + 1, q);
    }
  }

  method StartsWithAt(m: array<byte>, p: nat, key: seq<byte>) returns (b: bool)
    requires InText(m[..], p) && NUL !in key
    ensures b == StartsWith(CStr(m[..], p), key)
  {
    var i := 0;
    while i < |key|
      invariant i <= |key| && InText(m[..], p + i)
      invariant StartsWith(CStr(m[..], p), key) == StartsWith(CStr(m[..], p + i), key[i..])
    {
      InTextNext(m[..], p + i);
      StartsWithNext(CStr(m[..], p + i), key[i..]);
      if m[p + i] != key[i] {
        return false;
      }
      assert key[i..][1..] == key[i + 1..];
      i := i + 1;
    }
    return true;
  }

  lemma StartsWithNext(s: seq<byte>, key: seq<byte>)
    requires key != []
    ensures StartsWith(s, key) <==> s != [] && s[0] == key[0] && StartsWith(s[1..], key[1..])
  {
    if s != [] && |key| <= |s| && s[0] == key[0] && StartsWith(s[1..], key[1..]) {
      assert s[..|key|] == [s[0]] + s[1..][..|key| - 1];
      assert key == [key[0]] + key[1..];
    }
    if StartsWith(s, key) {
      assert s[1..][..|key| - 1] == s[..|key|][1..];
    }
  }

  /** `strstr`. */
  method Strstr(m: array<byte>, p: nat, key: seq<byte>) returns (q: Option<nat>)
    requires InText(m[..], p) && NUL !in key
    ensures match Find(CStr(m[..], p), key)
            case None => q == None
            case Some(r) => q.Some? && InText(m[..], q.value) && CStr(m[..], q.value) == r
  {
    var at := p;
    while true
      invariant InText(m[..], at) && Find(CStr(m[..], at), key) == Find(CStr(m[..], p), key)
      decreases m.Length - at
    {
      var here := StartsWithAt(m, at, key);
      if here {
        return Some(at);
      }
      InTextNext(m[..], at);
      if m[at] == NUL {
        return None;
      }
      at := at + 1;
    }
  }
}
