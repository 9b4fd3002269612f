/** The client library: its lazy initialiser, the calls that go through it, and the choice of how
    to reach the server. */
module Library {
  import opened Bytes
  import opened Decimal
  import opened Wire
  import opened Streams

  datatype StateBit = INIT | OPEN | SERVER | SYSTEM

  datatype Method = Unset | Direct | Pipe | Inet | Unix

  /** The `flags` argument of the initialisers. */
  datatype Options = Options(noOpen: bool, noInit: bool, noServer: bool, except: bool)

  const PLAIN := Options(false, false, false, false)

  /** A feature mask, as the set of its bits. */
  type Features = set<nat>

  const ALL_FEATURES: Features := set i: nat | i < 29
  const ALL_BITS: Features := set i: nat | i < 64
  const LOW_BITS: Features := set i: nat | i < 32

  const DEFAULT_PORT := 42800

  function Pow2(n: nat): (p: nat)
    ensures p > 0
  {
    if n == 0 then 1 else 2 * Pow2(n - 1)
  }

  function Bits(x: nat): Features { set i: nat | i < 64 && (x / Pow2(i)) % 2 == 1 }

  // ----- the server command string

  function FindColon(s: seq<byte>): (i: nat)
    ensures i <= |s|
  {
    if s == [] || s[0] == ':' then 0 else 1 + FindColon(s[1..])
  }

  /** The colon-separated fields of `s`; there is always at least one. */
  function Fields(s: seq<byte>): (f: seq<seq<byte>>)
    ensures |f| >= 1
    decreases |s|
  {
    var i := FindColon(s);
    if i == |s| then [s] else [s[..i]] + Fields(s[i + 1..])
  }

  function DigitRun(s: seq<byte>): (d: seq<byte>)
    ensures d <= s && AllDigits(d)
  {
    if s != [] && IsDigit(s[0]) then [s[0]] + DigitRun(s[1..]) else []
  }

  /** A number that is too large for a 64-bit `long` becomes the nearest one that is not. */
  function ToLong(v: int): int { if v >= TWO63 then TWO63 - 1 else if v < 0 - TWO63 then 0 - TWO63 else v }

  /** `sscanf (s, "%ld")`. */
  function ScanLong(s: seq<byte>): Option<int> {
    if s == [] then None
    else if IsSpace(s[0]) then ScanLong(s[1..])
    else
      var t := if s[0] == '-' || s[0] == '+' then s[1..] else s;
      var d := DigitRun(t);
      var v: int := if s[0] == '-' then 0 - Value(d) else Value(d);
      if d == [] then None else Some(ToLong(v))
  }

  /** What `_init_server` settles: the method, and host and port for an Internet connection. */
  datatype Target = Target(how: Method, host: Option<seq<byte>>, port: int)

  /** Carried out on the part behind the leading colon. */
  ghost function ParseCommand(s: seq<byte>, host: Option<seq<byte>>, port: int): Option<Target> {
    var f := Fields(s);
    if f[0] == "direct" then Some(Target(Direct, host, port))
    else if f[0] == "inet" then
      Some(Target(Inet,
                  if |f| > 1 then Some(f[1]) else if host == None then Some("localhost") else host,
                  if |f| > 2 then
                    match ScanLong(f[2]) { case Some(p) => p % TWO64 case None => DEFAULT_PORT }
                  else if port == 0 then DEFAULT_PORT else port))
    else if f[0] == "unix" then Some(Target(Unix, host, port))
    else if f[0] == "pipe" then Some(Target(Pipe, host, port))
    else None
  }

  lemma ParsedInet(s: seq<byte>, i: nat, host: Option<seq<byte>>, port: int)
    requires i == FindColon(s) && s[..i] == "inet"
    ensures var f := if i == |s| then [] else Fields(s[i + 1..]);
            var h := if |f| > 0 then Some(f[0]) else if host == None then Some("localhost") else host;
            var q := if |f| > 1 then
                       match ScanLong(f[1]) { case Some(p) => p % TWO64 case None => DEFAULT_PORT }
                     else if port == 0 then DEFAULT_PORT else port;
            ParseCommand(s, host, port) == Some(Target(Inet, h, q))
  {
    assert s[..|s|] == s;
  }

  ghost predicate AsksForPipe(command: seq<byte>) {
    command != [] && command[0] == ':' && Fields(command[1..])[0] == "pipe"
  }

  ghost function Choose(preset: Method, command: seq<byte>, features: Features, mask: Features,
                        host: Option<seq<byte>>, port: int): Option<Target>
  {
    if preset != Unset then Some(Target(preset, host, port))
    else if command == [] || command[0] != ':' then
      Some(Target(if features * LOW_BITS * mask != {} then Pipe else Direct, host, port))
    else ParseCommand(command[1..], host, port)
  }

  /** The features that an initialisation asks for. */
  function Requested(features: Features, o: Options): Features {
    var f := if o.except then ALL_FEATURES - features else features;
    if o.noServer then {} else if f == {} then ALL_FEATURES else f
  }

  /** A local server that none of the requested features needs is not used. */
  function Settle(m: Method, requested: Features, mask: Features): Method {
    if (m == Pipe || m == Unix) && mask * requested == {} then Direct else m
  }

  /** What an initialisation settles in the end. */
  ghost function Settled(preset: Method, command: seq<byte>, fs: Features, o: Options, mask: Features,
                         host: Option<seq<byte>>, port: int): Option<Target>
  {
    var asked := Requested(fs, o);
    match Choose(if o.noServer then Direct else preset, command, asked, mask, host, port)
    case Some(t) => Some(t.(how := Settle(t.how, asked, mask)))
    case None => None
  }

  /** `strstr (s, ":")`, as an index; `|s|` when there is none. */
  method Colon(s: seq<byte>) returns (i: nat)
    ensures i == FindColon(s)
  {
    i := 0;
    while i < |s| && s[i] != ':'
      invariant i <= |s| && FindColon(s) == i + FindColon(s[i..])
    {
      assert s[i..][1..] == s[i + 1..];
      i := i + 1;
    }
  }

  // ----- the handshake

  /** Mask word of the `glibtop_sysdeps` answer. */
  function ServerFeatures(recv: Option<seq<byte>>): Features {
    match recv
    case Some(s) => if |s| >= 16 then Bits(Word(s, 1)) else {}
    case None => {}
  }

  /** The incoming bytes hold one response record, with all of its trailing data. */
  ghost predicate HasReply(b: Build, p: seq<byte>) {
    |p| >= b.ResponseSize() && |p| >= b.ResponseSize() + Word(p, 2)
  }

  ghost function ReplyOf(b: Build, p: seq<byte>, recv: Option<nat>): Result
    requires HasReply(b, p)
  {
    var n := b.ResponseSize();
    Received(p[..n], p[n..n + Word(p, 2)], recv)
  }

  ghost function AfterReply(b: Build, p: seq<byte>): seq<byte>
    requires HasReply(b, p)
  {
    p[b.ResponseSize() + Word(p, 2)..]
  }

  /** The incoming bytes start with the client's own banner. */
  ghost predicate Greeted(b: Build, p: seq<byte>) {
    && |p| >= 8 + |BannerText(b)|
    && Get(p[..8]) == |BannerText(b)| && p[8..8 + |BannerText(b)|] == BannerText(b)
  }

  ghost predicate Handshake(b: Build, p: seq<byte>) {
    Greeted(b, p) && HasReply(b, p[8 + |BannerText(b)|..])
  }

  lemma WordInside(s: seq<byte>, n: nat)
    requires HEAD <= n <= |s|
    ensures Word(s[..n], 2) == Word(s, 2)
  {
    assert s[..n][16..24] == s[16..24];
  }

  lemma Pieces(s: seq<byte>, n: nat, m: nat)
    requires n + m <= |s|
    ensures s[n..][..m] == s[n..n + m] && s[n..][m..] == s[n + m..]
  {
  }

  class Glibtop {
    const build: Build
    const mask: Features               // glibtop_server_features
    const environment: Option<seq<byte>>   // LIBGTOP_SERVER in the environment
    const program: seq<byte>           // LIBGTOP_SERVER as compiled in
    const reachable: bool              // connecting or forking succeeds
    const hooks: nat
    const input: Input
    const output: Output

    var flags: set<StateBit>
    var how: Method
    var features: Features
    var command: Option<seq<byte>>
    var host: Option<seq<byte>>
    var port: int
    var failed: bool                   // an error handler has ended the program

    ghost var requested: Features      // of the first initialisation
    ghost var machines: nat            // allocations of the machine data
    ghost var opens: nat               // entries into the body of glibtop_open_l
    ghost var hookRuns: seq<nat>

    /** What has happened so far, read off the state bits: nothing has happened twice. */
    ghost predicate Valid()
      reads this
    {
      && build.sysdepsSize >= 16 && BannerFits(build)
      && |hookRuns| == hooks
      && machines <= 1 && (!failed ==> machines == if INIT in flags then 1 else 0)
      && opens == (if OPEN in flags then 1 else 0)
      && (forall h :: 0 <= h < hooks ==> hookRuns[h] == if SYSTEM in flags then 1 else 0)
      && (OPEN in flags ==> INIT in flags)
      && (SERVER in flags ==> OPEN in flags && how != Direct)
      && (INIT in flags ==> how != Unset)
      && (INIT in flags && (how == Pipe || how == Unix) ==> mask * requested != {})
    }

    ghost predicate Ready()
      reads this
    {
      !failed && INIT in flags && OPEN in flags
    }

    ghost function Core(): (set<StateBit>, Method, Features, Option<seq<byte>>, Option<seq<byte>>, int, Features)
      reads this
    {
      (flags, how, features, command, host, port, requested)
    }

    constructor (build: Build, mask: Features, environment: Option<seq<byte>>, program: seq<byte>, reachable: bool,
                 hooks: nat, input: Input, output: Output, preset: Method)
      requires build.sysdepsSize >= 16 && BannerFits(build)
      ensures Valid() && flags == {} && !failed
    {
      this.build, this.mask, this.environment, this.program := build, mask, environment, program;
      this.reachable, this.hooks, this.input, this.output := reachable, hooks, input, output;
      flags, how, features, command, host, port, failed := {}, preset, {}, None, None, 0, false;
      requested, machines, opens, hookRuns := {}, 0, 0, seq(hooks, i => 0);
    }

    ghost function CommandText(): seq<byte>
      reads this
    {
      match command
      case Some(c) => c
      case None => (match environment { case Some(e) => e case None => program })
    }

    /** `_init_server`.  A command that asks for a pipe gives way to the compiled-in program. */
    method InitServer(fs: Features)
      requires !failed
      modifies this`command, this`how, this`host, this`port, this`failed
      ensures match Choose(old(how), old(CommandText()), fs, mask, old(host), old(port))
              case Some(t) => !failed && how == t.how && host == t.host && port == t.port
              case None => failed && how == old(how)
      ensures command == Some(if old(how) == Unset && AsksForPipe(old(CommandText())) then program
                              else old(CommandText()))
    {
      if command == None {
        command := if environment.Some? then environment else Some(program);
      }
      if how != Unset {
        return;
      }
      var text := command.value;
      if text == [] || text[0] != ':' {
        how := if fs * LOW_BITS * mask != {} then Pipe else Direct;
        return;
      }
      var s := text[1..];
      var temp := Colon(s);
      if s[..temp] == "direct" {
        how := Direct;
      } else if s[..temp] == "inet" {
        ParsedInet(s, temp, host, port);
        how := Inet;
        ParseInet(if temp == |s| then None else Some(s[temp + 1..]));
      } else if s[..temp] == "unix" {
        how := Unix;
      } else if s[..temp] == "pipe" {
        how := Pipe;
        command := Some(program);
      } else {
        failed := true;
      }
    }

    /** Host and port of an Internet connection from what follows `inet:`, if anything does. */
    method ParseInet(tail: Option<seq<byte>>)
      modifies this`host, this`port
      ensures var f := if tail.Some? then Fields(tail.value) else [];
              && host == (if |f| > 0 then Some(f[0]) else if old(host) == None then Some("localhost") else old(host))
              && port == if |f| > 1 then
                           match ScanLong(f[1]) { case Some(p) => p % TWO64 case None => DEFAULT_PORT }
                         else if old(port) == 0 then DEFAULT_PORT else old(port)
    {
      var temp := tail;
      if temp == None {
        if host == None {
          host := Some("localhost");
        }
      } else {
        var temp2 := Colon(temp.value);
        host := Some(temp.value[..temp2]);
        assert temp.value[..|temp.value|] == temp.value;
        temp := if temp2 == |temp.value| then None else Some(temp.value[temp2 + 1..]);
      }
      if temp == None {
        if port == 0 {
          port := DEFAULT_PORT;
        }
      } else {
        var temp2 := Colon(temp.value);
        var field := temp.value[..temp2];
        assert Fields(temp.value)[0] == field;
        match ScanLong(field) {
          case Some(p) => port := p % TWO64;
          case None => port := DEFAULT_PORT;
        }
      }
    }

    // ----- the mutually recursive entries

    /** `glibtop_init_s`: the system-dependent part, run once. */
    method InitS(o: Options)
      requires Valid() && !failed
      modifies this`flags, this`hookRuns
      ensures Valid() && flags == old(flags) + if o.noInit then {} else {SYSTEM}
    {
      if o.noInit {
        return;
      }
      if SYSTEM !in flags {
        var fkt := 0;
        while fkt < hooks
          invariant fkt <= hooks && |hookRuns| == hooks && flags == old(flags)
          invariant forall h :: 0 <= h < hooks ==> hookRuns[h] == if h < fkt then 1 else 0
        {
          hookRuns := hookRuns[fkt := hookRuns[fkt] + 1];
          fkt := fkt + 1;
        }
        flags := flags + {SYSTEM};
      }
    }

    /** The part of `glibtop_init_r` that is done at most once. */
    method FirstInit(fs: Features, o: Options)
      requires Valid() && !failed && INIT !in flags
      modifies this
      ensures Valid() && old(flags) <= flags
      ensures match Settled(old(how), old(CommandText()), fs, o, mask, old(host), old(port))
              case Some(t) =>
                && !failed && flags == old(flags) + {INIT} && requested == features == Requested(fs, o)
                && how == t.how && host == t.host && port == t.port
              case None => failed
    {
      machines := machines + 1;
      requested := Requested(fs, o);
      PickMethod(fs, o);
      if !failed {
        flags := flags + {INIT};
      }
    }

    method PickMethod(fs: Features, o: Options)
      requires !failed
      modifies this`how, this`features, this`command, this`host, this`port, this`failed
      ensures match Settled(old(how), old(CommandText()), fs, o, mask, old(host), old(port))
              case Some(t) => !failed && how == t.how && host == t.host && port == t.port
              case None => failed && how == if o.noServer then Direct else old(how)
      ensures features == Requested(fs, o)
    {
      var fs' := if o.except then ALL_FEATURES - fs else fs;
      if fs' == {} {
        fs' := ALL_FEATURES;
      }
      if o.noServer {
        how := Direct;
        fs' := {};
      }
      features := fs';
      InitServer(fs');
      if !failed && (how == Pipe || how == Unix) && mask * fs' == {} {
        how := Direct;
      }
    }

    /** `glibtop_init_r`.  Opening the server calls back into it; the recursion ends because the
        open bit is set first. */
    method InitR(fs: Features, o: Options)
      requires Valid()
      modifies this, input, output
      ensures Valid() && old(flags) <= flags && (old(failed) ==> failed)
      ensures old(Ready()) || old(failed) || o.noInit ==>
                && Core() == old(Core()) && failed == old(failed)
                && input.pending == old(input.pending) && output.written == old(output.written)
      ensures !old(failed) && !o.noInit && INIT !in old(flags) ==>
                match Settled(old(how), old(CommandText()), fs, o, mask, old(host), old(port))
                case Some(t) => INIT in flags && how == t.how && host == t.host && port == t.port
                case None => failed
      ensures !failed && !o.noInit ==> INIT in flags && (o.noOpen || OPEN in flags)
      decreases if OPEN in flags then 0 else 3, 0
    {
      if failed || o.noInit {
        return;
      }
      if INIT !in flags {
        FirstInit(fs, o);
      }
      if failed || o.noOpen {
        return;
      }
      if OPEN !in flags {
        OpenL(o);
      }
    }

    /** The loop of `glibtop_read_l`, which retries interrupted reads. */
    method Fill(size: nat, buf: array<byte>) returns (ok: bool)
      requires size <= buf.Length
      modifies input, buf
      ensures ok <==> size <= |old(input.pending)|
      ensures ok ==>
                && buf[..] == Filled(old(buf[..]), old(input.pending)[..size])
                && input.pending == old(input.pending)[size..]
    {
      ghost var at, was := input.pending, buf[..];
      var nread := 0;
      while nread < size
        invariant nread <= size && nread <= |at| && input.pending == at[nread..]
        invariant buf[..] == Filled(was, at[..nread])
        decreases size - nread, input.interrupts
      {
        var n := input.Read(buf, nread, size - nread);
        if n == INTERRUPTED {
          continue;
        }
        if n <= 0 {
          return false;
        }
        FillMore(was, at, nread, n);
        nread := nread + n;
      }
      return true;
    }

    /** `glibtop_read_l`: fill the first `size` elements of `buf`, whatever the chunks. */
    method ReadL(size: nat, buf: array<byte>)
      requires Valid() && size <= buf.Length
      modifies this, input, output, buf
      ensures Valid() && old(flags) <= flags && (old(failed) ==> failed)
      ensures old(Ready()) ==> Core() == old(Core()) && output.written == old(output.written)
      ensures old(Ready()) ==> (failed <==> size > |old(input.pending)|)
      ensures old(Ready()) && !failed ==>
                && buf[..] == Filled(old(buf[..]), old(input.pending)[..size])
                && input.pending == old(input.pending)[size..]
      decreases if OPEN in flags then 0 else 3, 1
    {
      InitR({}, PLAIN);
      if failed {
        return;
      }
      var ok := Fill(size, buf);
      failed := !ok;
    }

    /** `glibtop_write_l`. */
    method WriteL(bytes: seq<byte>)
      requires Valid()
      modifies this, input, output
      ensures Valid() && old(flags) <= flags && (old(failed) ==> failed)
      ensures old(Ready()) ==> Core() == old(Core()) && input.pending == old(input.pending)
      ensures old(Ready()) ==> (failed <==> output.broken && bytes != [])
      ensures old(Ready()) && !failed ==> output.written == old(output.written) + bytes
      decreases if OPEN in flags then 0 else 3, 1
    {
      InitR({}, PLAIN);
      if failed || bytes == [] {
        return;
      }
      var ret := Interrupted;
      ghost var was := output.written;
      while ret == Interrupted
        invariant output.written == if ret == Done then was + bytes else was
        invariant ret == Done ==> !output.broken
        invariant ret == Error ==> output.broken
        modifies output
        decreases ret == Interrupted, output.interrupts
      {
        ret := output.Write(bytes);
      }
      if ret == Error {
        failed := true;
      }
    }

    /** `glibtop_call_l`. */
    method CallL(command: nat, send: seq<byte>, recv: Option<nat>) returns (result: Result)
      requires Valid() && command < MAX_CMND && |send| < TWO64
      modifies this, input, output
      ensures Valid() && old(flags) <= flags && (old(failed) ==> failed)
      ensures old(Ready()) ==> Core() == old(Core())
      ensures old(Ready()) ==> (!failed <==> !output.broken && HasReply(build, old(input.pending)))
      ensures old(Ready()) && !failed ==>
                && output.written == old(output.written) + EncodeCommand(Pack(build, command, send))
                && result == ReplyOf(build, old(input.pending), recv)
                && input.pending == AfterReply(build, old(input.pending))
      decreases if OPEN in flags then 0 else 3, 3
    {
      result := Result(None, None);
      InitR({}, PLAIN);
      if failed {
        return;
      }
      WriteL(EncodeCommand(Pack(build, command, send)));
      if failed {
        return;
      }
      result := ReadReply(recv);
    }

    /** The second half of `glibtop_call_l`: the response record and the data behind it. */
    method ReadReply(recv: Option<nat>) returns (result: Result)
      requires Valid() && Ready()
      modifies this, input, output
      ensures Valid() && Core() == old(Core()) && output.written == old(output.written)
      ensures !failed <==> HasReply(build, old(input.pending))
      ensures !failed ==>
                && result == ReplyOf(build, old(input.pending), recv)
                && input.pending == AfterReply(build, old(input.pending))
      decreases 0, 2
    {
      result := Result(None, None);
      ghost var at := input.pending;
      var response := new byte[build.ResponseSize()](_ => '\0');
      ReadL(response.Length, response);
      if failed {
        return;
      }
      var header := response[..];
      ghost var n := build.ResponseSize();
      assert header == at[..n];
      WordInside(at, n);
      ghost var m := Word(header, 2);
      var data := [];
      if Word(header, 2) != 0 {
        var ptr := new byte[Word(header, 2)](_ => '\0');
        ReadL(ptr.Length, ptr);
        if failed {
          return;
        }
        data := ptr[..];
        Pieces(at, n, m);
      }
      assert data == at[n..n + m];
      result := Received(header, data, recv);
    }

    /** The banner check of `glibtop_open_l`. */
    method CheckVersion()
      requires Valid() && Ready()
      modifies this, input, output
      ensures Valid() && Core() == old(Core()) && output.written == old(output.written)
      ensures !failed <==> Greeted(build, old(input.pending))
      ensures !failed ==> input.pending == old(input.pending)[8 + |BannerText(build)|..]
      decreases 0, 2
    {
      var version := BannerText(build);
      var size := |version|;
      var nbytes := new byte[8](_ => '\0');
      ghost var at := input.pending;
      ReadL(8, nbytes);
      if failed {
        return;
      }
      assert nbytes[..] == at[..8];
      if Get(nbytes[..]) != size {
        failed := true;
        return;
      }
      var buffer := new byte[BUFSIZ](_ => '\0');
      ReadL(size, buffer);
      if failed {
        return;
      }
      assert buffer[..size] == at[8..8 + size];
      if buffer[..size] != version {
        failed := true;
      }
    }

    /** Asking the server for its features. */
    method AskFeatures()
      requires Valid() && Ready()
      modifies this, input, output
      ensures Valid() && flags == old(flags) && how == old(how) && host == old(host) && port == old(port)
      ensures requested == old(requested)
      ensures !failed <==> !output.broken && HasReply(build, old(input.pending))
      ensures !failed ==>
                && output.written == old(output.written) + EncodeCommand(Pack(build, SYSDEPS, []))
                && features == ServerFeatures(ReplyOf(build, old(input.pending), Some(build.sysdepsSize)).recv)
                && input.pending == AfterReply(build, old(input.pending))
      decreases 0, 4
    {
      var sysdeps := CallL(SYSDEPS, [], Some(build.sysdepsSize));
      if failed {
        return;
      }
      features := ServerFeatures(sysdeps.recv);
    }

    /** Reaching the server, and asking it for its features. */
    method Connect()
      requires Valid() && Ready() && SERVER !in flags && how != Direct
      modifies this, input, output
      ensures Valid() && old(flags) <= flags
      ensures how == old(how) && host == old(host) && port == old(port) && requested == old(requested)
      ensures !failed <==> reachable && !output.broken && Handshake(build, old(input.pending))
      ensures !failed ==>
                && flags == old(flags) + {SERVER}
                && output.written == old(output.written) + EncodeCommand(Pack(build, SYSDEPS, []))
                && var p := old(input.pending)[8 + |BannerText(build)|..];
                && features == ServerFeatures(ReplyOf(build, p, Some(build.sysdepsSize)).recv)
                && input.pending == AfterReply(build, p)
      decreases 0, 5
    {
      if !reachable {
        failed := true;
        return;
      }
      flags, features := flags + {SERVER}, ALL_BITS;
      CheckVersion();
      if failed {
        return;
      }
      AskFeatures();
    }

    /** `glibtop_open_l`. */
    method OpenL(o: Options)
      requires Valid() && !failed && INIT in flags && OPEN !in flags && !o.noInit
      modifies this, input, output
      ensures Valid() && old(flags) + {OPEN} <= flags
      ensures how == old(how) && host == old(host) && port == old(port) && requested == old(requested)
      ensures how == Direct ==>
                && !failed && features == {} && SERVER !in flags
                && input.pending == old(input.pending) && output.written == old(output.written)
      ensures how != Direct ==> (!failed <==> reachable && !output.broken && Handshake(build, old(input.pending)))
      ensures how != Direct && !failed ==>
                && SERVER in flags
                && output.written == old(output.written) + EncodeCommand(Pack(build, SYSDEPS, []))
                && var p := old(input.pending)[8 + |BannerText(build)|..];
                && features == ServerFeatures(ReplyOf(build, p, Some(build.sysdepsSize)).recv)
                && input.pending == AfterReply(build, p)
      decreases 1, 0
    {
      flags, opens := flags + {OPEN}, opens + 1;
      if how == Direct {
        features := {};
      } else {
        Connect();
      }
      if !failed {
        InitS(o);
      }
    }
  }

  // ----- any sequence of entries

  datatype Entry =
    | EnterInit(fs: Features, o: Options)
    | EnterSystem(o: Options)
    | EnterCall(command: nat, send: seq<byte>, recv: Option<nat>)
    | EnterRead(size: nat)
    | EnterWrite(bytes: seq<byte>)

  predicate Legal(e: Entry) { e.EnterCall? ==> e.command < MAX_CMND && |e.send| < TWO64 }

  /** However the library is entered, state bits are never lost, the machine data is allocated at
      most once, the server is opened at most once, every hook runs at most once, and a direct
      connection never counts as a server. */
  method Drive(g: Glibtop, entries: seq<Entry>)
    requires g.Valid() && forall e :: e in entries ==> Legal(e)
    modifies g, g.input, g.output
    ensures g.Valid() && old(g.flags) <= g.flags
    ensures g.machines <= 1 && g.opens <= 1 && forall h :: 0 <= h < g.hooks ==> g.hookRuns[h] <= 1
    ensures SERVER in g.flags ==> g.how != Direct
  {
    for i := 0 to |entries|
      invariant g.Valid() && old(g.flags) <= g.flags
    {
      assert entries[i] in entries;
      match entries[i] {
        case EnterInit(fs, o) => g.InitR(fs, o);
        case EnterSystem(o) =>
          if !g.failed {
            g.InitS(o);
          }
        case EnterCall(command, send, recv) => var _ := g.CallL(command, send, recv);
        case EnterRead(size) =>
          var buf := new byte[size](_ => '\0');
          g.ReadL(size, buf);
        case EnterWrite(bytes) => g.WriteL(bytes);
      }
    }
  }

  // ----- the server command string

  lemma {:induction false} ColonAfter(s: seq<byte>, t: seq<byte>)
    requires ':' !in s
    ensures FindColon(s) == |s| && FindColon(s + [':'] + t) == |s|
  {
    if s != [] {
      ColonAfter(s[1..], t);
      assert (s + [':'] + t)[1..] == s[1..] + [':'] + t;
    }
  }

  lemma FieldsOf(s: seq<byte>, t: seq<byte>)
    requires ':' !in s
    ensures Fields(s) == [s] && Fields(s + [':'] + t) == [s] + Fields(t)
  {
    ColonAfter(s, t);
    assert (s + [':'] + t)[..|s|] == s && (s + [':'] + t)[|s| + 1..] == t;
  }

  lemma {:induction false} WholeRun(d: seq<byte>)
    requires AllDigits(d)
    ensures DigitRun(d) == d
  {
    if d != [] {
      assert d[0] in d;
      assert forall c :: c in d[1..] ==> c in d;
      WholeRun(d[1..]);
    }
  }

  lemma ScanDec(p: nat)
    ensures ScanLong(Dec(p)) == Some(ToLong(p))
  {
    var d := Dec(p);
    assert d[0] in d;
    WholeRun(d);
    ValueOfDec(p);
  }

  /** A negative number, too. */
  lemma ScanNegative(p: nat)
    ensures ScanLong(['-'] + Dec(p)) == Some(if p <= TWO63 then 0 - p else 0 - TWO63)
  {
    var s := ['-'] + Dec(p);
    assert s[1..] == Dec(p);
    WholeRun(Dec(p));
    ValueOfDec(p);
  }

  lemma InetFields(hostname: seq<byte>, p: nat)
    requires ':' !in hostname
    ensures Fields(INET + [':'] + (hostname + [':'] + Dec(p))) == [INET, hostname, Dec(p)]
  {
    var d := Dec(p);
    assert ':' !in d;
    FieldsOf(INET, hostname + [':'] + d);
    FieldsOf(hostname, d);
    FieldsOf(d, []);
    assert [INET] + ([hostname] + [d]) == [INET, hostname, d];
  }

  const INET: seq<byte> := "inet"

  lemma InetChoice(s: seq<byte>, hostname: seq<byte>, p: nat, fs: Features, mask: Features,
                   host: Option<seq<byte>>, port: int)
    requires Fields(s) == [INET, hostname, Dec(p)]
    ensures Choose(Unset, [':'] + s, fs, mask, host, port) == Some(Target(Inet, Some(hostname), ToLong(p)))
  {
    assert ([':'] + s)[1..] == s;
    ScanDec(p);
    assert ToLong(p) % TWO64 == ToLong(p);
  }

  /** `:inet:host:port` means that host, and that port exactly when it fits a `long`. */
  lemma InetAddress(hostname: seq<byte>, p: nat, fs: Features, mask: Features, host: Option<seq<byte>>, port: int)
    requires ':' !in hostname
    ensures var s := INET + [':'] + (hostname + [':'] + Dec(p));
            && Choose(Unset, [':'] + s, fs, mask, host, port) == Some(Target(Inet, Some(hostname), ToLong(p)))
            && (Choose(Unset, [':'] + s, fs, mask, host, port) == Some(Target(Inet, Some(hostname), p)) <==> p < TWO63)
  {
    InetFields(hostname, p);
    InetChoice(INET + [':'] + (hostname + [':'] + Dec(p)), hostname, p, fs, mask, host, port);
  }

  // ----- feature words

  lemma {:induction false} PowSplits(i: nat, k: nat)
    ensures Pow2(i + k) == Pow2(i) * Pow2(k)
    decreases k
  {
    if k > 0 { PowSplits(i, k - 1); }
  }

  /** The word that holds a set of features. */
  ghost function WordOf(f: Features, n: nat): (w: nat)
    ensures w < Pow2(n)
  {
    if n == 0 then 0 else WordOf(f, n - 1) + if n - 1 in f then Pow2(n - 1) else 0
  }

  lemma TopBit(w: nat, p: nat)
    requires w < p
    ensures w / p == 0 && (w + p) / p == 1
  {
  }

  /** A multiple of twice `p` does not change the bit of `p`. */
  lemma HigherBit(w: nat, p: nat, m: nat)
    requires p > 0
    ensures (w + p * (2 * m)) / p % 2 == w / p % 2
  {
    var q := w / p + 2 * m;
    assert w == w / p * p + w % p;
    assert p * (2 * m) == 2 * m * p && (w / p + 2 * m) * p == w / p * p + 2 * m * p;
    QuotientIs(w + p * (2 * m), q, p);
  }

  lemma {:induction false} BitOfWord(f: Features, n: nat, i: nat)
    requires i < n
    ensures WordOf(f, n) / Pow2(i) % 2 == if i in f then 1 else 0
    decreases n
  {
    var w := WordOf(f, n - 1);
    if i == n - 1 {
      TopBit(w, Pow2(i));
    } else {
      BitOfWord(f, n - 1, i);
      PowSplits(i, n - 1 - i);
      assert Pow2(n - 1 - i) == 2 * Pow2(n - 2 - i);
      HigherBit(w, Pow2(i), Pow2(n - 2 - i));
    }
  }

  /** A set of features that is sent as a word of 64 bits comes back from it. */
  lemma FeaturesComeBack(f: Features)
    requires f <= ALL_BITS
    ensures Bits(WordOf(f, 64)) == f
  {
    forall i: nat | i < 64 ensures i in Bits(WordOf(f, 64)) <==> i in f {
      BitOfWord(f, 64, i);
    }
  }

  // ----- the settled method

  /** Feature `i` is named by the caller, or by the exception that the caller makes. */
  ghost predicate Names(fs: Features, o: Options, i: nat) { if o.except then i < 29 && i !in fs else i in fs }

  /** Feature `i` is asked for: it is named, or nothing is and it is one of the 29. */
  ghost predicate Asks(fs: Features, o: Options, i: nat) {
    Names(fs, o, i) || (i < 29 && forall j :: !Names(fs, o, j))
  }

  /** Some feature is asked for that the machine can only give through the server. */
  ghost predicate Needed(mask: Features, fs: Features, o: Options) { exists i :: i in mask && Asks(fs, o, i) }

  lemma AsksIff(fs: Features, o: Options, i: nat)
    requires !o.noServer
    ensures i in Requested(fs, o) <==> Asks(fs, o, i)
  {
    var f := if o.except then ALL_FEATURES - fs else fs;
    assert forall j :: j in f <==> Names(fs, o, j);
  }

  lemma NeededIff(mask: Features, fs: Features, o: Options)
    requires !o.noServer
    ensures Needed(mask, fs, o) <==> mask * Requested(fs, o) != {}
  {
    forall i ensures i in Requested(fs, o) <==> Asks(fs, o, i) { AsksIff(fs, o, i); }
    if mask * Requested(fs, o) != {} {
      var i :| i in mask * Requested(fs, o);
    }
    if Needed(mask, fs, o) {
      var i :| i in mask && Asks(fs, o, i);
      assert i in mask * Requested(fs, o);
    }
  }

  /** What stands behind a method's name in a command: nothing, or more fields. */
  ghost predicate Tail(tail: seq<byte>) { tail == [] || tail[0] == ':' }

  lemma FirstField(word: seq<byte>, tail: seq<byte>)
    requires ':' !in word && Tail(tail)
    ensures Fields(word + tail)[0] == word
    ensures |Fields(word + tail)| == if tail == [] then 1 else 1 + |Fields(tail[1..])|
    ensures tail != [] ==> Fields(word + tail)[1..] == Fields(tail[1..])
  {
    if tail == [] {
      EmptyEnds(word);
      FieldsOf(word, []);
    } else {
      assert word + tail == word + [':'] + tail[1..];
      FieldsOf(word, tail[1..]);
    }
  }

  lemma ParsesTo(word: seq<byte>, tail: seq<byte>, fs: Features, mask: Features, host: Option<seq<byte>>, port: int)
    requires ':' !in word && Tail(tail)
    ensures Choose(Unset, [':'] + (word + tail), fs, mask, host, port) == ParseCommand(word + tail, host, port)
    ensures Fields(word + tail)[0] == word
  {
    FirstField(word, tail);
    assert ([':'] + (word + tail))[1..] == word + tail;
  }

  /** The four names of a method, and every other name. */
  lemma NameSettles(word: seq<byte>, tail: seq<byte>, fs: Features, o: Options, mask: Features,
                    host: Option<seq<byte>>, port: int)
    requires ':' !in word && Tail(tail) && !o.noServer
    ensures var t := Settled(Unset, [':'] + (word + tail), fs, o, mask, host, port);
            && (t == None <==> word !in {"direct", "inet", "unix", "pipe"})
            && (word == "direct" ==> t == Some(Target(Direct, host, port)))
            && (word == "inet" ==> t.Some? && t.value.how == Inet)
            && (word == "unix" ==> t == Some(Target(if Needed(mask, fs, o) then Unix else Direct, host, port)))
            && (word == "pipe" ==> t == Some(Target(if Needed(mask, fs, o) then Pipe else Direct, host, port)))
  {
    ParsesTo(word, tail, Requested(fs, o), mask, host, port);
    NeededIff(mask, fs, o);
  }

  lemma InetSettles(tail: seq<byte>, fs: Features, o: Options, mask: Features, host: Option<seq<byte>>, port: int)
    requires Tail(tail) && !o.noServer
    ensures var f := if tail == [] then [] else Fields(tail[1..]);
            var h := if |f| > 0 then Some(f[0]) else if host == None then Some("localhost") else host;
            var q := if |f| > 1 then
                       match ScanLong(f[1]) { case Some(p) => p % TWO64 case None => 42800 }
                     else if port == 0 then 42800 else port;
            Settled(Unset, [':'] + (INET + tail), fs, o, mask, host, port) == Some(Target(Inet, h, q))
  {
    ParsesTo(INET, tail, Requested(fs, o), mask, host, port);
    FirstField(INET, tail);
    var g := Fields(INET + tail);
    assert forall i :: 0 < i < |g| ==> g[i] == g[1..][i - 1];
  }

  lemma NoHost(fs: Features, o: Options, mask: Features, host: Option<seq<byte>>, port: int)
    requires !o.noServer
    ensures Settled(Unset, ":inet", fs, o, mask, host, port)
         == Some(Target(Inet, if host == None then Some("localhost") else host, if port == 0 then 42800 else port))
  {
    InetSettles([], fs, o, mask, host, port);
    EmptyEnds(INET);
    assert [':'] + INET == ":inet";
  }

  lemma NoPort(hostname: seq<byte>, fs: Features, o: Options, mask: Features, host: Option<seq<byte>>, port: int)
    requires ':' !in hostname && !o.noServer
    ensures Settled(Unset, ":inet:" + hostname, fs, o, mask, host, port)
         == Some(Target(Inet, Some(hostname), if port == 0 then 42800 else port))
  {
    InetSettles([':'] + hostname, fs, o, mask, host, port);
    assert ([':'] + hostname)[1..] == hostname;
    FieldsOf(hostname, []);
    InetText(hostname);
  }

  lemma InetText(s: seq<byte>)
    ensures [':'] + (INET + ([':'] + s)) == ":inet:" + s
  {
  }

  lemma TwoFields(s: seq<byte>, t: seq<byte>)
    requires ':' !in s && ':' !in t
    ensures Fields(s + ([':'] + t)) == [s, t]
  {
    assert s + ([':'] + t) == s + [':'] + t;
    FieldsOf(s, t);
    FieldsOf(t, []);
  }

  lemma HostAndPort(hostname: seq<byte>, q: seq<byte>, fs: Features, o: Options, mask: Features,
                    host: Option<seq<byte>>, port: int)
    requires ':' !in hostname && ':' !in q && !o.noServer
    ensures Settled(Unset, ":inet:" + (hostname + ([':'] + q)), fs, o, mask, host, port)
         == Some(Target(Inet, Some(hostname), match ScanLong(q) { case Some(p) => p % TWO64 case None => 42800 }))
  {
    var address := hostname + ([':'] + q);
    assert ([':'] + address)[1..] == address;
    TwoFields(hostname, q);
    AddressSettles([':'] + address, hostname, q, fs, o, mask, host, port);
    InetText(address);
  }

  lemma AddressSettles(tail: seq<byte>, hostname: seq<byte>, q: seq<byte>, fs: Features, o: Options, mask: Features,
                       host: Option<seq<byte>>, port: int)
    requires tail != [] && tail[0] == ':' && Fields(tail[1..]) == [hostname, q] && !o.noServer
    ensures Settled(Unset, [':'] + (INET + tail), fs, o, mask, host, port)
         == Some(Target(Inet, Some(hostname), match ScanLong(q) { case Some(p) => p % TWO64 case None => 42800 }))
  {
    InetSettles(tail, fs, o, mask, host, port);
  }

  lemma PrintedPort(p: nat)
    ensures var n := if p < TWO63 then p else TWO63 - 1;
            ScanLong(Dec(p)) == Some(n) && n % TWO64 == n
  {
    ScanDec(p);
  }

  lemma NumericPort(hostname: seq<byte>, p: nat, fs: Features, o: Options, mask: Features,
                    host: Option<seq<byte>>, port: int)
    requires ':' !in hostname && !o.noServer
    ensures Settled(Unset, ":inet:" + (hostname + ([':'] + Dec(p))), fs, o, mask, host, port)
         == Some(Target(Inet, Some(hostname), if p < TWO63 then p else TWO63 - 1))
  {
    assert ':' !in Dec(p);
    PrintedPort(p);
    HostAndPort(hostname, Dec(p), fs, o, mask, host, port);
  }

  lemma BadPort(hostname: seq<byte>, word: seq<byte>, fs: Features, o: Options, mask: Features,
                host: Option<seq<byte>>, port: int)
    requires ':' !in hostname && !o.noServer && ':' !in word
    requires word != [] ==> !IsSpace(word[0]) && !IsDigit(word[0]) && word[0] != '-' && word[0] != '+'
    ensures Settled(Unset, ":inet:" + (hostname + ([':'] + word)), fs, o, mask, host, port)
         == Some(Target(Inet, Some(hostname), 42800))
  {
    HostAndPort(hostname, word, fs, o, mask, host, port);
  }

  /** The fields of an Internet address, with the defaults for those that are missing or not numbers. */
  lemma InternetSettles(hostname: seq<byte>, p: nat, word: seq<byte>, fs: Features, o: Options, mask: Features,
                        host: Option<seq<byte>>, port: int)
    requires ':' !in hostname && !o.noServer && ':' !in word
    requires word != [] ==> !IsSpace(word[0]) && !IsDigit(word[0]) && word[0] != '-' && word[0] != '+'
    ensures Settled(Unset, ":inet", fs, o, mask, host, port)
         == Some(Target(Inet, if host == None then Some("localhost") else host, if port == 0 then 42800 else port))
    ensures Settled(Unset, ":inet:" + hostname, fs, o, mask, host, port)
         == Some(Target(Inet, Some(hostname), if port == 0 then 42800 else port))
    ensures Settled(Unset, ":inet:" + (hostname + ([':'] + Dec(p))), fs, o, mask, host, port)
         == Some(Target(Inet, Some(hostname), if p < TWO63 then p else TWO63 - 1))
    ensures Settled(Unset, ":inet:" + (hostname + ([':'] + word)), fs, o, mask, host, port)
         == Some(Target(Inet, Some(hostname), 42800))
  {
    NoHost(fs, o, mask, host, port);
    NoPort(hostname, fs, o, mask, host, port);
    NumericPort(hostname, p, fs, o, mask, host, port);
    BadPort(hostname, word, fs, o, mask, host, port);
  }

  /** A command that starts with a colon, on a fresh library: what `glibtop_init_r` makes of it. */
  method InitNamed(g: Glibtop, word: seq<byte>, tail: seq<byte>, fs: Features, o: Options)
    requires g.Valid() && !g.failed && INIT !in g.flags && g.how == Unset && !o.noInit && !o.noServer
    requires ':' !in word && Tail(tail) && g.CommandText() == [':'] + (word + tail)
    modifies g, g.input, g.output
    ensures word == "direct" ==> g.how == Direct
    ensures word == "inet" ==> g.how == Inet
    ensures word == "unix" ==> g.how == if Needed(g.mask, fs, o) then Unix else Direct
    ensures word == "pipe" ==> g.how == if Needed(g.mask, fs, o) then Pipe else Direct
    ensures word !in {"direct", "inet", "unix", "pipe"} ==> g.failed
    ensures word in {"direct", "unix", "pipe"} ==> g.host == old(g.host) && g.port == old(g.port)
  {
    NameSettles(word, tail, fs, o, g.mask, g.host, g.port);
    g.InitR(fs, o);
  }

  /** The same for the address of an Internet server: it is used whatever the machine can do itself. */
  method InitInternet(g: Glibtop, hostname: seq<byte>, p: nat, fs: Features, o: Options)
    requires g.Valid() && !g.failed && INIT !in g.flags && g.how == Unset && !o.noInit && !o.noServer
    requires ':' !in hostname && g.CommandText() == ":inet:" + (hostname + ([':'] + Dec(p)))
    modifies g, g.input, g.output
    ensures g.how == Inet && g.host == Some(hostname) && g.port == if p < TWO63 then p else TWO63 - 1
  {
    InternetSettles(hostname, p, [], fs, o, g.mask, g.host, g.port);
    g.InitR(fs, o);
  }

  /** The same for a path of a server program, and for a caller that wants no server. */
  method InitPlain(g: Glibtop, fs: Features, o: Options)
    requires g.Valid() && !g.failed && INIT !in g.flags && !o.noInit && g.mask <= ALL_FEATURES
    requires o.noServer || (g.how == Unset && (g.CommandText() == [] || g.CommandText()[0] != ':'))
    modifies g, g.input, g.output
    ensures g.how == if !o.noServer && Needed(g.mask, fs, o) then Pipe else Direct
  {
    if !o.noServer {
      PlainCommandStartsServerIff(g.CommandText(), fs, o, g.mask, g.host, g.port);
    }
    g.InitR(fs, o);
  }

  /** Without a preset method and with a plain path as the server command, the server is started
      exactly when a feature in its mask is asked for. */
  lemma PlainCommandStartsServerIff(path: seq<byte>, fs: Features, o: Options, mask: Features,
                                    host: Option<seq<byte>>, port: int)
    requires path == [] || path[0] != ':'
    requires mask <= ALL_FEATURES && !o.noServer
    ensures Settled(Unset, path, fs, o, mask, host, port)
         == Some(Target(if Needed(mask, fs, o) then Pipe else Direct, host, port))
  {
    var r := Requested(fs, o);
    assert ALL_FEATURES <= LOW_BITS;
    assert r * LOW_BITS * mask == mask * r;
    NeededIff(mask, fs, o);
  }
}
