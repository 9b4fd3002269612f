/** A file of the proc file system, read into a buffer, and numbers with a unit behind them. */
module ProcFile {
  import opened Bytes
  import opened ProcText
  import opened Streams

  const READ_OK := 0
  const OPEN_FAILED := -1
  const READ_FAILED := -2

  function BeforeNul(s: seq<byte>): (r: seq<byte>)
    ensures NUL !in r && r <= s
    ensures NUL !in s ==> r == s
  {
    if s == [] || s[0] == NUL then [] else [s[0]] + BeforeNul(s[1..])
  }

  /** The text that a buffer of `size` bytes shows of a file. */
  function Shown(content: seq<byte>, size: nat): seq<byte>
    requires size > 0
  {
    BeforeNul(content[..Min(|content|, size - 1)])
  }

  lemma ShownWhole(text: seq<byte>, size: nat)
    requires NUL !in text && |text| < size
    ensures Shown(text, size) == text
  {
    assert text[..|text|] == text;
  }

  lemma {:induction false} CStrShown(m: seq<byte>, p: nat, n: nat)
    requires p <= n < |m| && m[n] == NUL
    ensures InText(m, p) && CStr(m, p) == BeforeNul(m[p..n])
    decreases n - p
  {
    assert m[p..][n - p] == NUL;
    if p < n && m[p] != NUL {
      CStrShown(m, p + 1, n);
      assert m[p..n][1..] == m[p + 1..n];
    }
  }

  lemma TakeMore(content: seq<byte>, n: nat, k: nat)
    requires n + k <= |content|
    ensures content[..n] + content[n..][..k] == content[..n + k]
    ensures content[n..][k..] == content[n + k..]
  {
  }

  /** `try_file_to_buffer`: `file` is what `open` gave, and `broken` allows a read to fail for
      another reason than a signal. */
  method TryFileToBuffer(buffer: array<byte>, file: Option<Input>, broken: bool) returns (r: int)
    requires buffer.Length > 0
    modifies buffer, if file.Some? then {file.value} else {}
    ensures r in {READ_OK, OPEN_FAILED, READ_FAILED}
    ensures r == OPEN_FAILED <==> file == None
    ensures r == READ_FAILED ==> broken
    ensures r == READ_OK ==> InText(buffer[..], 0)
    ensures r == READ_OK ==> CStr(buffer[..], 0) == Shown(old(file.value.pending), buffer.Length)
  {
    var bufsiz := buffer.Length - 1;
    buffer[0] := NUL;
    if file == None {
      return OPEN_FAILED;
    }
    var fd := file.value;
    ghost var content := fd.pending;
    var len := 0;
    while len < bufsiz
      invariant len <= bufsiz && len <= |content| && fd.pending == content[len..]
      invariant buffer[..len] == content[..len]
      decreases bufsiz - len + fd.interrupts
    {
      var failed: bool := *;
      if broken && failed {
        return READ_FAILED;
      }
      var nread := fd.Read(buffer, len, bufsiz - len);
      if nread == 0 {
        break;
      }
      if nread > 0 {
        TakeMore(content, len, nread);
        assert buffer[..len + nread] == content[..len] + content[len..][..nread];
        len := len + nread;
      }
    }
    buffer[len] := NUL;
    assert len == Min(|content|, bufsiz);
    CStrShown(buffer[..], 0, len);
    assert buffer[..][0..len] == content[..len];
    return READ_OK;
  }

  // ----- scaled values

  /** The factor of the first `k` or `M` in `s`. */
  function Factor(s: seq<byte>): (f: nat)
    ensures f in {1, 1024, 1024 * 1024}
    ensures f == 1 <==> 'k' !in s && 'M' !in s
  {
    if s == [] then 1
    else if s[0] == 'k' then 1024
    else if s[0] == 'M' then 1024 * 1024
    else Factor(s[1..])
  }

  /** Unsigned 64-bit multiplication. */
  function Times64(v: u64, f: nat): u64 { v * f % TWO64 }

  /** The number that `s` starts with, in its unit. */
  function ScaledFrom(s: seq<byte>): u64 {
    var n := Scan(s);
    Times64(Unsigned(n), Factor(n.rest))
  }

  function Scaled(s: seq<byte>, key: seq<byte>): u64 {
    match Find(s, key)
    case None => 0
    case Some(r) => ScaledFrom(r[|key|..])
  }

  method FactorAt(m: array<byte>, p: nat) returns (f: nat)
    requires InText(m[..], p)
    ensures f == Factor(CStr(m[..], p))
  {
    var q := p;
    InTextNext(m[..], q);
    while m[q] != NUL
      invariant q < m.Length && InText(m[..], q) && Factor(CStr(m[..], q)) == Factor(CStr(m[..], p))
      decreases m.Length - q
    {
      InTextNext(m[..], q);
      if m[q] == 'k' {
        return 1024;
      } else if m[q] == 'M' {
        return 1024 * 1024;
      }
      q := q + 1;
      InTextNext(m[..], q);
    }
    InTextNext(m[..], q);
    return 1;
  }

  lemma {:induction false} CStrSkip(m: seq<byte>, p: nat, k: nat)
    requires InText(m, p) && k <= |CStr(m, p)|
    ensures InText(m, p + k) && CStr(m, p + k) == CStr(m, p)[k..]
    decreases k
  {
    if k > 0 {
      InTextNext(m, p);
      CStrSkip(m, p + 1, k - 1);
    }
  }

  /** `get_scaled`; without a key the number is at the front. */
  method GetScaled(m: array<byte>, key: Option<seq<byte>>) returns (v: u64)
    requires InText(m[..], 0) && (key.Some? ==> NUL !in key.value)
    ensures v == match key case None => ScaledFrom(CStr(m[..], 0)) case Some(k) => Scaled(CStr(m[..], 0), k)
  {
    var ptr := 0;
    if key.Some? {
      var at := Strstr(m, 0, key.value);
      if at == None {
        return 0;
      }
      CStrSkip(m[..], at.value, |key.value|);
      ptr := at.value + |key.value|;
    }
    var value, next := Strtoull(m, ptr);
    var f := FactorAt(m, next);
    return Times64(value, f);
  }
}
