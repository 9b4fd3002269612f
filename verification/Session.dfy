/** A client and a daemon joined by two byte streams, as a state machine whose steps are single
    system calls.  Every list of calls, every interleaving and every way of cutting the streams
    into chunks is covered. */
module Session {
  import opened Bytes
  import opened Wire
  import opened Service

  datatype Call = Call(command: nat, send: seq<byte>, recv: Option<nat>)
  type Request = c: Call | c.command < MAX_CMND && |c.send| < TWO64
    witness Call(QUIT, [], None)

  datatype World = World(client: Build, server: Build, side: Side, impl: Impl, calls: seq<Request>)
  {
    ghost predicate Valid() { BannerFits(client) && BannerFits(server) }

    ghost predicate SameBanner() { BannerText(client) == BannerText(server) }
  }

  datatype Client =
    | WaitSize(got: seq<byte>)
    | WaitText(got: seq<byte>)
    | Idle(results: seq<Result>)
    | WaitHeader(results: seq<Result>, got: seq<byte>)
    | WaitData(results: seq<Result>, header: seq<byte>, got: seq<byte>)
    | Failed(results: seq<Result>)
    | Closed(results: seq<Result>)

  datatype Daemon =
    | SendSize
    | SendText
    | ReadCommand(served: nat, got: seq<byte>)
    | ReadData(served: nat, command: Command, got: seq<byte>)
    | SendHeader(served: nat, reply: Reply, last: bool)
    | SendData(served: nat, reply: Reply, last: bool)
    | Leaving
    | Gone

  /** The write that a daemon has lost: one of the banner's, or one of the reply's to a command. */
  datatype Loss = InBanner | InReply(k: nat)

  /** `answered` counts the response records written so far.  The last three fields record what has
      gone wrong for the daemon: `dropped` is the number of the command whose read a signal ended,
      `cut` holds the calls whose data a signal kept from being read, and `lost` is the first write
      that did not succeed. */
  datatype State = State(client: Client, daemon: Daemon,
                         toServer: seq<byte>, toClient: seq<byte>, answered: nat,
                         dropped: Option<nat>, cut: set<nat>, lost: Option<Loss>)

  const INITIAL := State(WaitSize([]), SendSize, [], [], 0, None, {}, None)

  datatype Action =
    | ClientRead(n: nat)     // read returns n bytes
    | ClientInterrupted      // read returns EINTR
    | ClientEof              // read returns 0: the error handler ends the client
    | ClientWrite            // one command record
    | ClientClose            // no calls left
    | DaemonRead(n: nat)
    | DaemonEof
    | DaemonInterrupted      // read returns EINTR, which do_read takes for the end
    | DaemonWrite
    | DaemonWriteLost        // write fails, by a signal or an error: do_output only warns
    | DaemonExit

  // ----- the client

  predicate Reading(c: Client) { c.WaitSize? || c.WaitText? || c.WaitHeader? || c.WaitData? }

  predicate Ended(c: Client) { c.Failed? || c.Closed? }

  function Got(c: Client): seq<byte>
    requires Reading(c)
  {
    match c
    case WaitSize(got) => got
    case WaitText(got) => got
    case WaitHeader(_, got) => got
    case WaitData(_, _, got) => got
  }

  function Results(c: Client): seq<Result> {
    if c.WaitSize? || c.WaitText? then [] else c.results
  }

  /** The length of the read that the client is in. */
  function Wanted(w: World, c: Client): nat
    requires Reading(c)
  {
    match c
    case WaitSize(_) => 8
    case WaitText(_) => |BannerText(w.client)|
    case WaitHeader(_, _) => w.client.ResponseSize()
    case WaitData(_, header, _) => if |header| >= HEAD then Word(header, 2) else 0
  }

  function Finish(w: World, results: seq<Result>, header: seq<byte>, data: Data): Client
    requires |header| >= HEAD
  {
    var recv := if |results| < |w.calls| then w.calls[|results|].recv else None;
    Idle(results + [Received(header, data, recv)])
  }

  function ClientTake(w: World, c: Client, chunk: seq<byte>): Client
    requires Reading(c) && |Got(c)| + |chunk| <= Wanted(w, c)
  {
    var got := Got(c) + chunk;
    var full := |got| == Wanted(w, c);
    match c
    case WaitSize(_) =>
      if !full then WaitSize(got)
      else if Get(got) == |BannerText(w.client)| then WaitText([])
      else Failed([])
    case WaitText(_) =>
      if !full then WaitText(got)
      else if got == BannerText(w.client) then Idle([])
      else Failed([])
    case WaitHeader(results, _) =>
      if !full then WaitHeader(results, got)
      else if Word(got, 2) == 0 then Finish(w, results, got, [])
      else WaitData(results, got, [])
    case WaitData(results, header, _) =>
      if !full || |header| < HEAD then WaitData(results, header, got)
      else Finish(w, results, header, got)
  }

  // ----- the daemon

  function WantedCommand(w: World, d: Daemon): nat
    requires d.ReadCommand? || d.ReadData?
  {
    if d.ReadCommand? then w.server.CommandSize() else d.command.dataSize
  }

  function Follow(n: Next, served: nat): Daemon {
    match n
    case Respond(reply, last) => SendHeader(served, reply, last)
    case Ignore => ReadCommand(served + 1, [])
    case Leave => Leaving
  }

  function AfterCommand(w: World, served: nat, c: Command): Daemon {
    if c.dataSize > 0 then
      if c.dataSize >= BUFSIZ then Leaving else ReadData(served, c, [])
    else if c.size >= BUFSIZ then
      Leaving
    else
      Follow(Serve(w.side, w.impl, served, c.command, InlineParameter(c)), served)
  }

  function AfterData(w: World, served: nat, c: Command, data: seq<byte>): Daemon {
    Follow(Serve(w.side, w.impl, served, c.command, Fit(data, BUFSIZ)), served)
  }

  function AfterReply(served: nat, last: bool): Daemon {
    if last then Leaving else ReadCommand(served + 1, [])
  }

  function DaemonTake(w: World, d: Daemon, chunk: seq<byte>): Daemon
    requires d.ReadCommand? || d.ReadData?
    requires |d.got| + |chunk| <= WantedCommand(w, d)
  {
    var got := d.got + chunk;
    if |got| < WantedCommand(w, d) then d.(got := got)
    else if d.ReadCommand? then AfterCommand(w, d.served, DecodeCommand(got))
    else AfterData(w, d.served, d.command, got)
  }

  predicate Sending(d: Daemon) { d.SendSize? || d.SendText? || d.SendHeader? || d.SendData? }

  /** What the daemon does after a write, successful or not. */
  function AfterWrite(d: Daemon): Daemon
    requires Sending(d)
  {
    match d
    case SendSize => SendText
    case SendText => ReadCommand(0, [])
    case SendHeader(served, reply, last) =>
      if reply.data == [] then AfterReply(served, last) else SendData(served, reply, last)
    case SendData(served, _, last) => AfterReply(served, last)
  }

  function LossOf(d: Daemon): Loss
    requires Sending(d)
  {
    match d
    case SendHeader(served, _, _) => InReply(served)
    case SendData(served, _, _) => InReply(served)
    case _ => InBanner
  }

  // ----- steps

  predicate Enabled(w: World, s: State, a: Action) {
    match a
    case ClientRead(n) =>
      Reading(s.client) && 0 < n <= |s.toClient| && |Got(s.client)| + n <= Wanted(w, s.client)
    case ClientInterrupted => Reading(s.client)
    case ClientEof => Reading(s.client) && s.toClient == [] && s.daemon.Gone?
    case ClientWrite => s.client.Idle? && |s.client.results| < |w.calls|
    case ClientClose => s.client.Idle? && |s.client.results| >= |w.calls|
    case DaemonRead(n) =>
      && (s.daemon.ReadCommand? || s.daemon.ReadData?)
      && 0 < n <= |s.toServer| && |s.daemon.got| + n <= WantedCommand(w, s.daemon)
    case DaemonEof =>
      (s.daemon.ReadCommand? || s.daemon.ReadData?) && s.toServer == [] && Ended(s.client)
    case DaemonInterrupted => s.daemon.ReadCommand? || s.daemon.ReadData?
    case DaemonWrite => Sending(s.daemon)
    case DaemonWriteLost => Sending(s.daemon)
    case DaemonExit => s.daemon.Leaving?
  }

  function Apply(w: World, s: State, a: Action): State
    requires BannerFits(w.server) && Enabled(w, s, a)
  {
    match a
    case ClientRead(n) =>
      s.(client := ClientTake(w, s.client, s.toClient[..n]), toClient := s.toClient[n..])
    case ClientInterrupted => s
    case ClientEof => s.(client := Failed(Results(s.client)))
    case ClientWrite =>
      var results := s.client.results;
      var call := w.calls[|results|];
      if s.daemon.Gone? then
        s.(client := Failed(results))
      else
        s.(client := WaitHeader(results, []),
           toServer := s.toServer + EncodeCommand(Pack(w.client, call.command, call.send)))
    case ClientClose => s.(client := Closed(s.client.results))
    case DaemonRead(n) =>
      s.(daemon := DaemonTake(w, s.daemon, s.toServer[..n]), toServer := s.toServer[n..])
    case DaemonEof =>
      s.(daemon := match s.daemon
                   case ReadData(served, c, got) => AfterData(w, served, c, got)
                   case _ => Leaving)
    case DaemonInterrupted =>
      (match s.daemon
       case ReadCommand(served, _) => s.(daemon := Leaving, dropped := Some(served))
       case ReadData(served, c, got) => s.(daemon := AfterData(w, served, c, got), cut := s.cut + {served})
       case _ => s)
    case DaemonWrite => DaemonSend(w, s)
    case DaemonWriteLost =>
      s.(daemon := AfterWrite(s.daemon), lost := if s.lost == None then Some(LossOf(s.daemon)) else s.lost)
    case DaemonExit => s.(daemon := Gone)
  }

  function DaemonSend(w: World, s: State): State
    requires BannerFits(w.server) && Sending(s.daemon)
  {
    var t := s.(daemon := AfterWrite(s.daemon));
    match s.daemon
    case SendSize => t.(toClient := s.toClient + BannerSize(w.server))
    case SendText => t.(toClient := s.toClient + BannerText(w.server))
    case SendHeader(_, reply, _) =>
      t.(toClient := s.toClient + EncodeHeader(w.server, reply), answered := s.answered + 1)
    case SendData(_, reply, _) => t.(toClient := s.toClient + reply.data)
  }

  /** The actions can be taken one after the other from `s`. */
  predicate Runs(w: World, s: State, run: seq<Action>)
    requires BannerFits(w.server)
    decreases |run|
  {
    run == [] || (Enabled(w, s, run[0]) && Runs(w, Apply(w, s, run[0]), run[1..]))
  }

  function After(w: World, s: State, run: seq<Action>): State
    requires BannerFits(w.server) && Runs(w, s, run)
    decreases |run|
  {
    if run == [] then s else After(w, Apply(w, s, run[0]), run[1..])
  }

  predicate Mishap(a: Action) { a in {ClientInterrupted, DaemonInterrupted, DaemonWriteLost} }

  /** No party can do more than be interrupted: the session has ended or is stuck. */
  ghost predicate Terminal(w: World, s: State) {
    forall a: Action :: Enabled(w, s, a) ==> Mishap(a)
  }
}
