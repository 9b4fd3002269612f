/** What the command loops make of one command, by its number on the wire. */
module CommandLoop {
  import opened Bytes
  import opened Wire
  import opened Service
  import opened Daemon

  /** The parameter buffer that a handler sees: the data, or else the inline parameter, over zeros. */
  ghost function Seen(c: Command, data: seq<byte>): seq<byte> {
    Fit(if c.dataSize > 0 then data else c.parameter[..Min(c.size, |c.parameter|)], 8192)
  }

  /** The numbers that a loop writes a response record for. */
  ghost predicate Known(side: Side, command: nat) {
    match side
    case Parent => command <= 23 || command == 28 || command == 29
    case Slave(enabled) => command == 0 || command == 1 || command in enabled
  }

  lemma FetchWhole(b: Build, c: Command, data: seq<byte>, rest: seq<byte>)
    requires |c.parameter| == b.paramSize && |data| == c.dataSize
    ensures var f := Fetch(b, EncodeCommand(c) + (data + rest), CALM);
            f == if c.dataSize >= 8192 || (c.dataSize == 0 && c.size >= 8192) then End(data + rest)
                 else Request(c, Seen(c, data), rest)
  {
    var e := EncodeCommand(c);
    CommandRoundTrip(c);
    assert (e + (data + rest))[..|e|] == e && (e + (data + rest))[|e|..] == data + rest;
    assert (data + rest)[..|data|] == data && (data + rest)[|data|..] == rest;
  }

  /** The loop on one whole command.  Number 0 is answered and ends it; a known number has one record
      and its data; an unknown one is passed over by the parent's loop and ends the slave's; sizes of
      a buffer and more end both. */
  lemma LoopOnCommand(b: Build, side: Side, impl: Impl, served: nat, c: Command, data: seq<byte>, rest: seq<byte>)
    requires |c.parameter| == b.paramSize && |data| == c.dataSize
    ensures var s := Loop(b, side, impl, served, EncodeCommand(c) + (data + rest));
            var a := impl(served, c.command, Seen(c, data));
            if c.dataSize >= 8192 || (c.dataSize == 0 && c.size >= 8192) then s == Served([], data + rest)
            else if c.command == 0 then s == Served(EncodeReply(b, Reply(0, [], [])), rest)
            else if Known(side, c.command) then
              s == Before(EncodeReply(b, Reply(24, a.body, a.data)), Loop(b, side, impl, served + 1, rest))
            else if side == Parent then s == Loop(b, side, impl, served + 1, rest)
            else s == Served([], rest)
  {
    FetchWhole(b, c, data, rest);
  }

  lemma LoopAtEnd(b: Build, side: Side, impl: Impl, served: nat)
    ensures Loop(b, side, impl, served, []) == Served([], [])
  {
  }

  /** For every command that fits its buffers: the parent's loop writes something exactly for the
      numbers 0 to 23, 28 and 29, and that is one response record with its data. */
  lemma ParentAnswersIff(b: Build, impl: Impl, served: nat, c: Command, data: seq<byte>)
    requires |c.parameter| == b.paramSize && |data| == c.dataSize < 8192 && (c.dataSize == 0 ==> c.size < 8192)
    ensures var s := Loop(b, Parent, impl, served, EncodeCommand(c) + (data + []));
            && s.rest == []
            && (s.output != [] <==> c.command <= 23 || c.command == 28 || c.command == 29)
            && (s.output != [] ==> |s.output| >= b.ResponseSize() && |s.output| == b.ResponseSize() + Word(s.output, 2))
  {
    LoopOnCommand(b, Parent, impl, served, c, data, []);
    LoopAtEnd(b, Parent, impl, served + 1);
    var a := impl(served, c.command, Seen(c, data));
    ReplyMeasures(b, Reply(0, [], []));
    ReplyMeasures(b, Reply(24, a.body, a.data));
    EmptyEnds(EncodeReply(b, Reply(24, a.body, a.data)));
  }

  lemma ReplyMeasures(b: Build, r: Reply)
    ensures |EncodeReply(b, r)| == b.ResponseSize() + |r.data| && Word(EncodeReply(b, r), 2) == |r.data|
  {
    HeaderWords(b, r);
    var e := EncodeHeader(b, r);
    assert (e + r.data)[16..24] == e[16..24];
  }
}
