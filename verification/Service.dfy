/** What the daemon does with one command, for both of its command loops. */
module Service {
  import opened Bytes
  import opened Wire

  /** `Parent` is the loop behind a socket; `Slave` is the loop behind a pipe, whose switch holds
      only the features compiled in as privileged. */
  datatype Side = Parent | Slave(enabled: set<nat>)

  datatype Answer = Answer(body: seq<byte>, data: Data)

  /** The system query behind a command: the number of commands served before it stands for the
      state of the system at that moment. */
  type Impl = (nat, u64, seq<byte>) -> Answer

  datatype Next = Respond(reply: Reply, last: bool) | Ignore | Leave

  predicate Answers(side: Side, command: nat) {
    match side
    case Parent => SYSDEPS <= command < NETLIST || command == PROC_IO || command == DISK
    case Slave(enabled) => command == SYSDEPS || command in enabled
  }

  const QUIT_REPLY := Reply(0, [], [])

  function Serve(side: Side, impl: Impl, served: nat, command: u64, parameter: seq<byte>): Next {
    if command == QUIT then
      Respond(QUIT_REPLY, true)
    else if Answers(side, command) then
      var a := impl(served, command, parameter);
      Respond(Reply(HEAD, a.body, a.data), false)
    else if side.Parent? then
      Ignore
    else
      Leave
  }

  /** The cleared parameter buffer after the inline parameter has been copied into it. */
  function InlineParameter(c: Command): (p: seq<byte>)
    ensures |p| == BUFSIZ
  {
    Fit(if c.size <= |c.parameter| then c.parameter[..c.size] else c.parameter, BUFSIZ)
  }

  /** `memcpy` takes what it copies from inside the record, for every command that the library packs. */
  lemma CopyStaysInside(b: Build, command: u64, send: seq<byte>)
    requires |send| < TWO64
    ensures Pack(b, command, send).size <= |Pack(b, command, send).parameter| == b.paramSize
  {
  }

  /** A packed short request reaches the handler as its own bytes, zero-padded. */
  lemma InlineParameterOfPack(b: Build, command: u64, send: seq<byte>)
    requires |send| <= b.paramSize && |send| < TWO64
    ensures InlineParameter(Pack(b, command, send)) == Fit(send, BUFSIZ)
  {
    assert Fit(send, b.paramSize)[..|send|] == send;
  }
}
