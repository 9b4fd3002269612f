/** The daemon's side of a connection: framing and the command loop. */
module Daemon {
  import opened Bytes
  import opened Wire
  import opened Service
  import opened Streams

  /** How many bytes have come in. */
  ghost function Came(was: seq<byte>, pending: seq<byte>): (n: nat)
    ensures n <= |was|
  {
    if |pending| <= |was| then |was| - |pending| else 0
  }

  /** Read exactly `size` bytes to the front of `ptr`.  End of file and every failed read, a
      signal among them, end the attempt with 0, whatever has been read by then. */
  method DoRead(s: Input, ptr: array<byte>, size: nat) returns (r: nat)
    requires size <= ptr.Length
    modifies s, ptr
    ensures s.interrupts <= old(s.interrupts) && Came(old(s.pending), s.pending) <= size
    ensures r == if Came(old(s.pending), s.pending) == size then size else 0
    ensures s.pending == old(s.pending)[Came(old(s.pending), s.pending)..]
    ensures ptr[..] == Filled(old(ptr[..]), old(s.pending)[..Came(old(s.pending), s.pending)])
    ensures r < size ==> s.pending == [] || s.interrupts < old(s.interrupts)
  {
    ghost var at, was := s.pending, ptr[..];
    var alreadyRead, remaining := 0, size;
    while alreadyRead < size
      invariant alreadyRead <= size && alreadyRead + remaining == size && alreadyRead <= |at|
      invariant s.interrupts == old(s.interrupts) && s.pending == at[alreadyRead..]
      invariant ptr[..] == Filled(was, at[..alreadyRead])
    {
      var nread := s.Read(ptr, alreadyRead, remaining);
      if nread <= 0 {
        assert Came(at, s.pending) == alreadyRead;
        return 0;
      }
      FillMore(was, at, alreadyRead, nread);
      alreadyRead, remaining := alreadyRead + nread, remaining - nread;
      assert s.pending == at[alreadyRead..];
    }
    assert Came(at, s.pending) == alreadyRead;
    return alreadyRead;
  }

  /** The response record and, when there is any, the trailing data. */
  ghost function EncodeReply(b: Build, r: Reply): seq<byte> {
    EncodeHeader(b, r) + r.data
  }

  /** What arrives of `bytes` when its write fails or not. */
  ghost function IfSent(sent: bool, bytes: seq<byte>): seq<byte> { if sent then bytes else [] }

  /** Each write is tried once; a failure is only warned about. */
  method DoOutput(s: Output, b: Build, r: Reply) returns (ghost header: bool, ghost data: bool)
    modifies s
    ensures s.interrupts <= old(s.interrupts)
    ensures s.written == old(s.written) + (IfSent(header, EncodeHeader(b, r)) + IfSent(data, r.data))
    ensures !s.broken && old(s.interrupts) == 0 ==> header && data
  {
    ghost var was := s.written;
    var done := s.Write(EncodeHeader(b, r));
    header, data := done == Done, true;
    if r.data != [] {
      done := s.Write(r.data);
      data := done == Done;
    }
    assert s.written == was + (IfSent(header, EncodeHeader(b, r)) + IfSent(data, r.data));
  }

  /** Two writes in order. */
  method WriteBoth(s: Output, first: seq<byte>, second: seq<byte>) returns (ghost a: bool, ghost b: bool)
    modifies s
    ensures s.interrupts <= old(s.interrupts)
    ensures s.written == old(s.written) + (IfSent(a, first) + IfSent(b, second))
    ensures !s.broken && old(s.interrupts) == 0 ==> a && b
  {
    ghost var was := s.written;
    var done := s.Write(first);
    a := done == Done;
    done := s.Write(second);
    b := done == Done;
    assert s.written == was + (IfSent(a, first) + IfSent(b, second));
  }

  method SendVersion(s: Output, b: Build) returns (ghost size: bool, ghost text: bool)
    requires BannerFits(b)
    modifies s
    ensures s.interrupts <= old(s.interrupts)
    ensures s.written == old(s.written) + (IfSent(size, BannerSize(b)) + IfSent(text, BannerText(b)))
    ensures !s.broken && old(s.interrupts) == 0 ==> size && text
  {
    var buffer := BannerText(b);
    size, text := WriteBoth(s, Put64(|buffer|), buffer);
  }

  // ----- what the command loop does to its streams

  /** The bytes that the loop writes, and the input it leaves behind. */
  datatype Served = Served(output: seq<byte>, rest: seq<byte>)

  ghost function Before(prefix: seq<byte>, s: Served): Served { s.(output := prefix + s.output) }

  /** What the top of a round finds: a command with its filled parameter buffer, or a reason to
      leave the loop. */
  datatype Fetched = Request(command: Command, parameter: seq<byte>, rest: seq<byte>) | End(rest: seq<byte>)

  /** What goes wrong in one round: a signal after some bytes of the command or of the data, and the
      writes that do not succeed. */
  datatype Strike = Strike(onCommand: Option<nat>, onData: Option<nat>, header: bool, data: bool)

  const CALM := Strike(None, None, true, true)

  /** How much of `size` bytes is read. */
  ghost function Taken(input: seq<byte>, size: nat, signal: Option<nat>): (n: nat)
    ensures n <= size && n <= |input|
  {
    var n := if size <= |input| then size else |input|;
    match signal
    case None => n
    case Some(m) => if m < n then m else n
  }

  ghost function Fetch(b: Build, input: seq<byte>, k: Strike): (f: Fetched)
    ensures f.Request? ==> |f.rest| < |input| && |f.parameter| == BUFSIZ
  {
    var n := Taken(input, b.CommandSize(), k.onCommand);
    if n < b.CommandSize() then End(input[n..])
    else
      var c, rest := DecodeCommand(input[..n]), input[n..];
      if c.dataSize >= BUFSIZ || (c.dataSize == 0 && c.size >= BUFSIZ) then End(rest)
      else if c.dataSize == 0 then Request(c, InlineParameter(c), rest)
      else
        var m := Taken(rest, c.dataSize, k.onData);
        Request(c, Fit(rest[..m], BUFSIZ), rest[m..])
  }

  ghost function Loop(b: Build, side: Side, impl: Impl, served: nat, input: seq<byte>): Served
    decreases |input|, 1
  {
    match Fetch(b, input, CALM)
    case End(rest) => Served([], rest)
    case Request(c, parameter, rest) =>
      React(b, side, impl, served, Serve(side, impl, served, c.command, parameter), rest)
  }

  ghost function React(b: Build, side: Side, impl: Impl, served: nat, next: Next, rest: seq<byte>): Served
    decreases |rest|, 2
  {
    match next
    case Respond(reply, last) =>
      Before(EncodeReply(b, reply), if last then Served([], rest) else Loop(b, side, impl, served + 1, rest))
    case Ignore => Loop(b, side, impl, served + 1, rest)
    case Leave => Served([], rest)
  }

  method Clear(a: array<byte>)
    modifies a
    ensures a[..] == Zeros(a.Length)
  {
    forall i | 0 <= i < a.Length {
      a[i] := '\0';
    }
  }

  /** `memcpy` of the inline parameter into the cleared buffer. */
  method CopyParameter(c: Command, parameter: array<byte>)
    requires parameter.Length == BUFSIZ && parameter[..] == Zeros(BUFSIZ)
    modifies parameter
    ensures parameter[..] == InlineParameter(c)
  {
    var n := if c.size <= |c.parameter| then c.size else |c.parameter|;
    var m := if n <= BUFSIZ then n else BUFSIZ;
    forall i | 0 <= i < m {
      parameter[i] := c.parameter[i];
    }
    assert parameter[..] == c.parameter[..m] + Zeros(BUFSIZ - m);
  }

  /** The signal that explains a read. */
  ghost function SignalIn(was: seq<byte>, pending: seq<byte>, size: nat): Option<nat> {
    if Came(was, pending) < size && pending != [] then Some(Came(was, pending)) else None
  }

  method FetchRequest(input: Input, b: Build, cmnd: array<byte>, parameter: array<byte>)
    returns (c: Option<Command>, ghost k: Strike)
    requires cmnd != parameter && cmnd.Length == b.CommandSize() && parameter.Length == BUFSIZ
    modifies input, cmnd, parameter
    ensures input.interrupts <= old(input.interrupts)
    ensures k.header && k.data && (k != CALM ==> input.interrupts < old(input.interrupts))
    ensures match Fetch(b, old(input.pending), k)
            case End(rest) => c == None && input.pending == rest
            case Request(command, p, rest) => c == Some(command) && parameter[..] == p && input.pending == rest
  {
    ghost var at := input.pending;
    k := CALM;
    var r := DoRead(input, cmnd, b.CommandSize());
    k := k.(onCommand := SignalIn(at, input.pending, b.CommandSize()));
    if r == 0 {
      return None, k;
    }
    assert cmnd[..] == at[..b.CommandSize()];
    var command := DecodeCommand(cmnd[..]);
    Clear(parameter);
    if command.dataSize > 0 {
      if command.dataSize >= BUFSIZ {
        return None, k;
      }
      ghost var rest := input.pending;
      r := DoRead(input, parameter, command.dataSize);
      k := k.(onData := SignalIn(rest, input.pending, command.dataSize));
      assert parameter[..] == Fit(rest[..Taken(rest, command.dataSize, k.onData)], BUFSIZ);
    } else {
      if command.size >= BUFSIZ {
        return None, k;
      }
      CopyParameter(command, parameter);
    }
    return Some(command), k;
  }

  // ----- rounds

  /** How far the loop has got: all its output, its unread input, and whether it goes on. */
  datatype Progress = Progress(output: seq<byte>, rest: seq<byte>, go: bool)

  ghost function Answered(b: Build, next: Next, written: seq<byte>, header: bool, data: bool): (bool, seq<byte>) {
    match next
    case Respond(reply, last) =>
      (!last, written + (IfSent(header, EncodeHeader(b, reply)) + IfSent(data, reply.data)))
    case Ignore => (true, written)
    case Leave => (false, written)
  }

  ghost function RoundOf(b: Build, side: Side, impl: Impl, served: nat, p: Progress, k: Strike): Progress {
    match Fetch(b, p.rest, k)
    case End(rest) => Progress(p.output, rest, false)
    case Request(c, parameter, rest) =>
      var a := Answered(b, Serve(side, impl, served, c.command, parameter), p.output, k.header, k.data);
      Progress(a.1, rest, a.0)
  }

  /** The rounds of a loop that these strikes accompany. */
  ghost function Rounds(b: Build, side: Side, impl: Impl, start: Progress, strikes: seq<Strike>): Progress {
    if strikes == [] then start
    else
      var n: nat := |strikes| - 1;
      var p := Rounds(b, side, impl, start, strikes[..n]);
      if p.go then RoundOf(b, side, impl, n, p, strikes[n]) else p
  }

  /** What the loop does about a command, on the output side. */
  method Answer(output: Output, b: Build, next: Next) returns (go: bool, ghost header: bool, ghost data: bool)
    modifies output
    ensures output.interrupts <= old(output.interrupts)
    ensures (go, output.written) == Answered(b, next, old(output.written), header, data)
    ensures !output.broken && old(output.interrupts) == 0 ==> header && data
  {
    header, data := true, true;
    match next {
      case Respond(reply, last) =>
        header, data := DoOutput(output, b, reply);
        go := !last;
      case Ignore => go := true;
      case Leave => go := false;
    }
  }

  lemma RoundIs(b: Build, side: Side, impl: Impl, served: nat, p: Progress, k: Strike, header: bool, data: bool)
    ensures var q := k.(header := header, data := data);
            match Fetch(b, p.rest, k)
            case End(rest) => RoundOf(b, side, impl, served, p, q) == Progress(p.output, rest, false)
            case Request(c, parameter, rest) =>
              var a := Answered(b, Serve(side, impl, served, c.command, parameter), p.output, header, data);
              RoundOf(b, side, impl, served, p, q) == Progress(a.1, rest, a.0)
  {
    assert Fetch(b, p.rest, k.(header := header, data := data)) == Fetch(b, p.rest, k);
  }

  /** One round of the command loop. */
  method Round(input: Input, output: Output, b: Build, side: Side, impl: Impl, served: nat,
               cmnd: array<byte>, parameter: array<byte>)
    returns (go: bool, ghost k: Strike)
    requires cmnd != parameter && cmnd.Length == b.CommandSize() && parameter.Length == BUFSIZ
    modifies input, output, cmnd, parameter
    ensures input.interrupts <= old(input.interrupts) && output.interrupts <= old(output.interrupts)
    ensures go ==> |input.pending| < |old(input.pending)|
    ensures Progress(output.written, input.pending, go)
         == RoundOf(b, side, impl, served, Progress(old(output.written), old(input.pending), true), k)
    ensures old(Calm(input, output)) ==> k == CALM
  {
    ghost var p := Progress(output.written, input.pending, true);
    var c;
    c, k := FetchRequest(input, b, cmnd, parameter);
    if c == None {
      RoundIs(b, side, impl, served, p, k, true, true);
      return false, k;
    }
    ghost var header, data;
    go, header, data := Answer(output, b, Serve(side, impl, served, c.value.command, parameter[..]));
    RoundIs(b, side, impl, served, p, k, header, data);
    k := k.(header := header, data := data);
  }

  /** Nothing can strike any more. */
  ghost predicate Calm(input: Input, output: Output)
    reads input, output
  {
    input.interrupts == 0 && output.interrupts == 0 && !output.broken
  }

  lemma RoundsNext(b: Build, side: Side, impl: Impl, start: Progress, strikes: seq<Strike>, k: Strike)
    requires Rounds(b, side, impl, start, strikes).go
    ensures Rounds(b, side, impl, start, strikes + [k])
         == RoundOf(b, side, impl, |strikes|, Rounds(b, side, impl, start, strikes), k)
  {
    assert (strikes + [k])[..|strikes|] == strikes;
  }

  /** The loop over commands, whatever strikes it. */
  method ServeCommands(input: Input, output: Output, b: Build, side: Side, impl: Impl,
                       cmnd: array<byte>, parameter: array<byte>)
    returns (ghost strikes: seq<Strike>)
    requires cmnd != parameter && cmnd.Length == b.CommandSize() && parameter.Length == BUFSIZ
    modifies input, output, cmnd, parameter
    ensures Progress(output.written, input.pending, false)
         == Rounds(b, side, impl, Progress(old(output.written), old(input.pending), true), strikes)
    ensures old(Calm(input, output)) ==> forall k :: k in strikes ==> k == CALM
  {
    ghost var start := Progress(output.written, input.pending, true);
    strikes := [];
    var served, go := 0, true;
    while go
      invariant served == |strikes|
      invariant input.interrupts <= old(input.interrupts) && output.interrupts <= old(output.interrupts)
      invariant Progress(output.written, input.pending, go) == Rounds(b, side, impl, start, strikes)
      invariant old(Calm(input, output)) ==> forall k :: k in strikes ==> k == CALM
      decreases go, |input.pending|
    {
      ghost var k;
      go, k := Round(input, output, b, side, impl, served, cmnd, parameter);
      RoundsNext(b, side, impl, start, strikes, k);
      strikes := strikes + [k];
      served := served + 1;
    }
  }

  lemma BeforeTwice(a: seq<byte>, c: seq<byte>, s: Served)
    ensures Before(a, Before(c, s)) == Before(a + c, s)
    ensures Before([], s) == s
  {
    assert a + (c + s.output) == (a + c) + s.output;
    assert [] + s.output == s.output;
  }

  /** What is still to come of a calm loop. */
  ghost function Ahead(b: Build, side: Side, impl: Impl, served: nat, p: Progress): Served {
    if p.go then Loop(b, side, impl, served, p.rest) else Served([], p.rest)
  }

  lemma CalmRound(b: Build, side: Side, impl: Impl, served: nat, p: Progress)
    requires p.go
    ensures var q := RoundOf(b, side, impl, served, p, CALM);
            Before(p.output, Ahead(b, side, impl, served, p)) == Before(q.output, Ahead(b, side, impl, served + 1, q))
  {
    var q := RoundOf(b, side, impl, served, p, CALM);
    match Fetch(b, p.rest, CALM)
    case End(rest) =>
    case Request(c, parameter, rest) =>
      var next := Serve(side, impl, served, c.command, parameter);
      assert Ahead(b, side, impl, served, p) == React(b, side, impl, served, next, rest);
      if next.Respond? {
        assert q == Progress(p.output + EncodeReply(b, next.reply), rest, !next.last);
        BeforeTwice(p.output, EncodeReply(b, next.reply), Ahead(b, side, impl, served + 1, q));
      }
  }

  /** Without strikes the rounds make what the loop is specified to make. */
  lemma {:induction false} CalmRounds(b: Build, side: Side, impl: Impl, start: Progress, strikes: seq<Strike>)
    requires start.go && forall k :: k in strikes ==> k == CALM
    ensures var p := Rounds(b, side, impl, start, strikes);
            Before(start.output, Loop(b, side, impl, 0, start.rest))
            == Before(p.output, Ahead(b, side, impl, |strikes|, p))
  {
    if strikes != [] {
      var n: nat := |strikes| - 1;
      var init := strikes[..n];
      var p := Rounds(b, side, impl, start, init);
      assert forall k :: k in init ==> k in strikes;
      CalmRounds(b, side, impl, start, init);
      if p.go {
        assert strikes[n] in strikes;
        CalmRound(b, side, impl, n, p);
      }
    }
  }

  /** A connection: the banner, and then the loop.  Without strikes it makes from the bytes that arrive
      exactly the banner and the bytes of `Loop`. */
  method HandleConnection(input: Input, output: Output, b: Build, side: Side, impl: Impl)
    returns (ghost size: bool, ghost text: bool, ghost strikes: seq<Strike>)
    requires BannerFits(b)
    modifies input, output
    ensures var banner := IfSent(size, BannerSize(b)) + IfSent(text, BannerText(b));
            Progress(output.written, input.pending, false)
            == Rounds(b, side, impl, Progress(old(output.written) + banner, old(input.pending), true), strikes)
    ensures old(Calm(input, output)) ==>
              var s := Loop(b, side, impl, 0, old(input.pending));
              && output.written == old(output.written) + (BannerSize(b) + BannerText(b)) + s.output
              && input.pending == s.rest
  {
    ghost var calm := Calm(input, output);
    size, text := SendVersion(output, b);
    ghost var start := Progress(output.written, input.pending, true);
    var cmnd := new byte[b.CommandSize()](_ => '\0');
    var parameter := new byte[BUFSIZ](_ => '\0');
    strikes := ServeCommands(input, output, b, side, impl, cmnd, parameter);
    if calm {
      CalmRounds(b, side, impl, start, strikes);
      assert output.written + [] == output.written;
    }
  }
}
