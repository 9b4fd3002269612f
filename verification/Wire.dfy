/** What the client and the daemon say to each other: the version banner, the fixed-size
    command record, and the fixed-size response record with its optional trailing data. */
module Wire {
  import opened Bytes
  import opened Decimal

  const QUIT := 0
  const SYSDEPS := 1
  const NETLIST := 24
  const PROC_OPEN_FILES := 25
  const PROC_WD := 26
  const PROC_AFFINITY := 27
  const PROC_IO := 28
  const DISK := 29
  const MAX_CMND := 30

  /** The three 64-bit words in front of a command's parameter and of a response's union. */
  const HEAD := 24

  function Max(a: nat, b: nat): nat { if a < b then b else a }

  /** What is compiled into one side: its version strings and the sizes of its structures. */
  datatype Build = Build(version: seq<byte>, serverVersion: seq<byte>,
                         paramSize: nat, unionSize: nat, sysdepsSize: nat)
  {
    function CommandSize(): nat { HEAD + paramSize }
    function BodySize(): nat { Max(unionSize, sysdepsSize) }
    function ResponseSize(): nat { HEAD + BodySize() }
  }

  // ----- version banner

  const SEPARATOR: seq<byte> := " server version "

  function Versions(b: Build): seq<byte> { b.version + SEPARATOR + b.serverVersion }

  function SizesTo(b: Build, n: nat): seq<byte>
    requires n <= 4
  {
    var lead: seq<byte> := "Libgtop ";
    match n
    case 0 => lead + Versions(b) + [' ']
    case 1 => SizesTo(b, 0) + ['('] + Dec(b.CommandSize())
    case 2 => SizesTo(b, 1) + [','] + Dec(b.ResponseSize())
    case 3 => SizesTo(b, 2) + [','] + Dec(b.unionSize)
    case 4 => SizesTo(b, 3) + [','] + Dec(b.sysdepsSize)
  }

  /** `LIBGTOP_VERSION_STRING` filled in, with its closing NUL. */
  function BannerText(b: Build): (t: seq<byte>)
    ensures |t| > 0
  {
    var close: seq<byte> := ").\0";
    SizesTo(b, 4) + close
  }

  /** Both sides print the banner into a buffer of BUFSIZ bytes. */
  predicate BannerFits(b: Build) { |BannerText(b)| <= BUFSIZ }

  /** The length of the banner, sent ahead of its text. */
  function BannerSize(b: Build): (s: seq<byte>)
    requires BannerFits(b)
    ensures |s| == 8
  {
    Put64(|BannerText(b)|)
  }

  lemma CutEnd(p: seq<byte>, q: seq<byte>, e: seq<byte>)
    requires p + e == q + e
    ensures p == q
  {
    assert p == (p + e)[..|p|];
    assert q == (q + e)[..|q|];
  }

  /** Equal banners mean equal structure sizes, so both sides cut the streams into records of
      the same length; the version texts then agree as one string. */
  lemma EqualBanners(a: Build, b: Build)
    requires BannerText(a) == BannerText(b)
    ensures a.CommandSize() == b.CommandSize() && a.ResponseSize() == b.ResponseSize()
    ensures a.unionSize == b.unionSize && a.sysdepsSize == b.sysdepsSize
    ensures Versions(a) == Versions(b)
  {
    CutEnd(SizesTo(a, 4), SizesTo(b, 4), ").\0");
    LastNumeral(SizesTo(a, 3), ',', a.sysdepsSize, SizesTo(b, 3), ',', b.sysdepsSize);
    LastNumeral(SizesTo(a, 2), ',', a.unionSize, SizesTo(b, 2), ',', b.unionSize);
    LastNumeral(SizesTo(a, 1), ',', a.ResponseSize(), SizesTo(b, 1), ',', b.ResponseSize());
    LastNumeral(SizesTo(a, 0), '(', a.CommandSize(), SizesTo(b, 0), '(', b.CommandSize());
    var lead: seq<byte> := "Libgtop ";
    CutEnd(lead + Versions(a), lead + Versions(b), [' ']);
    assert Versions(a) == (lead + Versions(a))[8..];
    assert Versions(b) == (lead + Versions(b))[8..];
  }

  predicate OccursAt(t: seq<byte>, i: nat, s: seq<byte>) {
    i + |s| <= |t| && t[i..i + |s|] == s
  }

  /** A banner determines its two version strings exactly when the separator text occurs in
      it only once, between them. */
  lemma VersionsRecovered(v: seq<byte>, w: seq<byte>)
    ensures (forall i: nat :: OccursAt(v + SEPARATOR + w, i, SEPARATOR) ==> i == |v|) <==>
            (forall v': seq<byte>, w': seq<byte> {:trigger v' + SEPARATOR + w'} ::
               v' + SEPARATOR + w' == v + SEPARATOR + w ==> v' == v && w' == w)
  {
    var t, n := v + SEPARATOR + w, |SEPARATOR|;
    forall i: nat | OccursAt(t, i, SEPARATOR)
      ensures t[..i] + SEPARATOR + t[i + n..] == t && |t[..i]| == i
    {
    }
    forall v': seq<byte>, w': seq<byte> | v' + SEPARATOR + w' == t
      ensures OccursAt(t, |v'|, SEPARATOR) && v' == t[..|v'|] && w' == t[|v'| + n..]
    {
    }
    assert v == t[..|v|] && w == t[|v| + n..];
  }

  /** Versions that do not contain the separator are not enough: it may straddle the seam. */
  lemma SeparatorFreeVersionsMayClash()
    ensures var v, w: seq<byte>, v', w' := "2 server version", "3", "2", "server version 3";
            && v + SEPARATOR + w == v' + SEPARATOR + w'
            && v != v'
            && (forall i: nat :: !OccursAt(v, i, SEPARATOR) && !OccursAt(w, i, SEPARATOR))
            && (forall i: nat :: !OccursAt(v', i, SEPARATOR) && !OccursAt(w', i, SEPARATOR))
  {
    var v: seq<byte>, w', s := "2 server version", "server version 3", SEPARATOR;
    assert s[0] == ' ' && s[|s| - 1] == ' ';
    assert v[0] == '2' && v[15] == 'n' && w'[0] == 's' && w'[15] == '3';
    assert v[0..16][0] != s[0] && w'[0..16][0] != s[0];
  }

  // ----- command record

  datatype Command = Command(command: u64, size: u64, dataSize: u64, parameter: seq<byte>)

  function EncodeCommand(c: Command): (s: seq<byte>)
    ensures |s| == HEAD + |c.parameter|
  {
    Put64(c.command) + Put64(c.size) + Put64(c.dataSize) + c.parameter
  }

  function Word(s: seq<byte>, i: nat): u64
    requires 8 * i + 8 <= |s|
  {
    Pow256OfWord();
    Get(s[8 * i..8 * i + 8])
  }

  function DecodeCommand(s: seq<byte>): Command
    requires |s| >= HEAD
  {
    Command(Word(s, 0), Word(s, 1), Word(s, 2), s[HEAD..])
  }

  lemma Words(a: u64, b: u64, c: u64, rest: seq<byte>)
    ensures var s := Put64(a) + Put64(b) + Put64(c) + rest;
            Word(s, 0) == a && Word(s, 1) == b && Word(s, 2) == c && s[HEAD..] == rest
  {
    var s := Put64(a) + Put64(b) + Put64(c) + rest;
    assert s[0..8] == Put64(a) && s[8..16] == Put64(b) && s[16..24] == Put64(c);
    Get64Put64(a);
    Get64Put64(b);
    Get64Put64(c);
  }

  lemma CommandRoundTrip(c: Command)
    ensures DecodeCommand(EncodeCommand(c)) == c
  {
    Words(c.command, c.size, c.dataSize, c.parameter);
  }

  /** The words of a command record in their order, and the parameter behind them. */
  lemma CommandWords(c: Command)
    ensures var s := EncodeCommand(c);
            Word(s, 0) == c.command && Word(s, 1) == c.size && Word(s, 2) == c.dataSize && s[24..] == c.parameter
  {
    Words(c.command, c.size, c.dataSize, c.parameter);
  }

  /** How `glibtop_call_l` fills the record: a short request travels inside it, a long one only
      announces its length. */
  function Pack(b: Build, command: u64, send: seq<byte>): Command
    requires |send| < TWO64
  {
    if |send| <= b.paramSize
    then Command(command, |send|, 0, Fit(send, b.paramSize))
    else Command(command, 0, |send|, Zeros(b.paramSize))
  }

  // ----- response record

  type Data = s: seq<byte> | |s| < TWO64

  /** What the daemon hands to `do_output`: the offset of the answer inside the response record,
      the bytes of the response union and the trailing data. */
  datatype Reply = Reply(offset: u64, body: seq<byte>, data: Data)

  function EncodeHeader(b: Build, r: Reply): (s: seq<byte>)
    ensures |s| == b.ResponseSize()
  {
    Put64(r.offset) + Put64(0) + Put64(|r.data|) + Fit(r.body, b.BodySize())
  }

  lemma HeaderWords(b: Build, r: Reply)
    ensures var s := EncodeHeader(b, r);
            Word(s, 0) == r.offset && Word(s, 2) == |r.data| && s[HEAD..] == Fit(r.body, b.BodySize())
  {
    Words(r.offset, 0, |r.data|, Fit(r.body, b.BodySize()));
  }

  /** `memcpy (recv_buf, (char *) &response + offset, n)`; `None` stands for a copy that would
      leave the record, or for a caller without a receive buffer. */
  function Window(record: seq<byte>, offset: nat, recv: Option<nat>): Option<seq<byte>> {
    match recv
    case None => None
    case Some(n) => if offset + n <= |record| then Some(record[offset..offset + n]) else None
  }

  /** What `glibtop_call_l` leaves in `recv_buf` and returns as trailing data. */
  datatype Result = Result(recv: Option<seq<byte>>, data: Option<Data>)

  /** The client's view of a response record and the data behind it. */
  function Received(header: seq<byte>, data: Data, recv: Option<nat>): Result
    requires |header| >= HEAD
  {
    Result(Window(header, Word(header, 0), recv), if data == [] then None else Some(data))
  }
}
