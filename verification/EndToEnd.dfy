/** The client's methods and the daemon's methods, put together: what one side's contract writes
    is what the other side's contract reads. */
module EndToEnd {
  import opened Bytes
  import opened Wire
  import opened Service
  import opened Session
  import opened SessionProofs
  import opened CommandLoop
  import Daemon
  import Library

  /** The command records of the calls from `k` on. */
  ghost function CommandsFrom(w: World, k: nat): seq<byte>
    decreases |w.calls| - k
  {
    if k >= |w.calls| then [] else EncodeCommand(CommandOf(w, k)) + CommandsFrom(w, k + 1)
  }

  /** One reply for each call from `k` on. */
  ghost function RepliesFrom(w: World, k: nat): seq<byte>
    decreases |w.calls| - k
  {
    if k >= |w.calls| then [] else Daemon.EncodeReply(w.server, ReplyTo(w, k)) + RepliesFrom(w, k + 1)
  }

  lemma FetchesCommand(w: World, k: nat, rest: seq<byte>)
    requires w.SameBanner() && k < |w.calls| && Good(w, k)
    ensures Daemon.Fetch(w.server, EncodeCommand(CommandOf(w, k)) + rest, Daemon.CALM)
         == Daemon.Request(CommandOf(w, k), Fit(w.calls[k].send, BUFSIZ), rest)
  {
    var e, c := EncodeCommand(CommandOf(w, k)), w.calls[k];
    CommandArrives(w, k);
    assert (e + rest)[..|e|] == e && (e + rest)[|e|..] == rest;
    InlineParameterOfPack(w.client, c.command, c.send);
  }

  lemma QuitIsLast(w: World, k: nat)
    requires k < |w.calls| && AllGood(w, |w.calls|) && w.calls[k].command == QUIT
    ensures k == |w.calls| - 1
  {
    var last: nat := |w.calls| - 1;
    assert Good(w, last);
    assert k < last ==> QuitBefore(w, last);
  }

  lemma AnswersOne(w: World, k: nat, rest: seq<byte>)
    requires w.SameBanner() && k < |w.calls| && Good(w, k)
    ensures var r := Daemon.EncodeReply(w.server, ReplyTo(w, k));
            Daemon.Loop(w.server, w.side, w.impl, k, EncodeCommand(CommandOf(w, k)) + rest)
            == if w.calls[k].command == QUIT then Daemon.Served(r, rest)
               else Daemon.Before(r, Daemon.Loop(w.server, w.side, w.impl, k + 1, rest))
  {
    FetchesCommand(w, k, rest);
    EmptyEnds(Daemon.EncodeReply(w.server, QUIT_REPLY));
  }

  /** The command loop answers a list of good calls with exactly one reply per command, in order,
      and leaves nothing unread. */
  lemma {:induction false} DaemonAnswersAll(w: World, k: nat)
    requires w.SameBanner() && AllGood(w, |w.calls|) && k <= |w.calls|
    ensures Daemon.Loop(w.server, w.side, w.impl, k, CommandsFrom(w, k)) == Daemon.Served(RepliesFrom(w, k), [])
    decreases |w.calls| - k
  {
    if k < |w.calls| {
      AnswersOne(w, k, CommandsFrom(w, k + 1));
      if w.calls[k].command == QUIT {
        QuitIsLast(w, k);
        EmptyEnds(Daemon.EncodeReply(w.server, QUIT_REPLY));
      } else {
        DaemonAnswersAll(w, k + 1);
      }
    }
  }

  /** Reading one reply off such a stream yields the direct result and the rest of the stream. */
  lemma ClientReadsNext(w: World, k: nat)
    requires w.SameBanner() && k < |w.calls|
    ensures var p := RepliesFrom(w, k);
            && Library.HasReply(w.client, p)
            && Library.ReplyOf(w.client, p, w.calls[k].recv) == Direct(w, k)
            && Library.AfterReply(w.client, p) == RepliesFrom(w, k + 1)
  {
    var r, rest := ReplyTo(w, k), RepliesFrom(w, k + 1);
    var header := EncodeHeader(w.server, r);
    var p, n := RepliesFrom(w, k), w.client.ResponseSize();
    ReplyArrives(w, k);
    assert p == header + r.data + rest;
    assert p[..n] == header && header[16..24] == p[16..24];
    assert p[n..n + |r.data|] == r.data && p[n + |r.data|..] == rest;
  }

  lemma GreetedIff(b: Build, server: Build, rest: seq<byte>)
    requires BannerFits(b) && BannerFits(server)
    ensures var p := BannerSize(server) + BannerText(server) + rest;
            && (Library.Greeted(b, p) <==> BannerText(b) == BannerText(server))
            && (Library.Greeted(b, p) ==> p[8 + |BannerText(b)|..] == rest)
  {
    var text, size := BannerText(server), BannerSize(server);
    var p := size + text + rest;
    Get64Put64(|text|);
    assert p[..8] == size;
    assert p[8..8 + |text|] == text && p[8 + |text|..] == rest;
  }

  /** The first command that a client sends when it opens its connection. */
  ghost function Opening(client: Build): Command { Pack(client, SYSDEPS, []) }

  ghost function Opened(client: Build, server: Build, side: Side, impl: Impl): World {
    World(client, server, side, impl, [Call(SYSDEPS, [], Some(client.sysdepsSize))])
  }

  /** The body of the answer to it. */
  ghost function Sysdeps(client: Build, impl: Impl): seq<byte> {
    Fit(impl(0, 1, Zeros(BUFSIZ)).body, client.BodySize())
  }

  /** Both of the daemon's loops answer that command, with one record, and leave nothing unread. */
  lemma OpeningAnswered(client: Build, server: Build, side: Side, impl: Impl)
    requires BannerText(client) == BannerText(server)
    ensures var a := impl(0, 1, Zeros(BUFSIZ));
            Daemon.Loop(server, side, impl, 0, EncodeCommand(Opening(client)))
            == Daemon.Served(Daemon.EncodeReply(server, Reply(24, a.body, a.data)), [])
  {
    var c, a := Opening(client), impl(0, 1, Zeros(BUFSIZ));
    EqualBanners(client, server);
    LoopOnCommand(server, side, impl, 0, c, [], []);
    LoopAtEnd(server, side, impl, 1);
    assert Seen(c, []) == Zeros(BUFSIZ);
    EmptyEnds(EncodeCommand(c));
    EmptyEnds(Daemon.EncodeReply(server, Reply(24, a.body, a.data)));
  }

  lemma SysdepsAnswer(w: World)
    requires w.SameBanner() && w.calls == [Call(SYSDEPS, [], Some(w.client.sysdepsSize))] && w.client.sysdepsSize >= 16
    ensures Library.ServerFeatures(Direct(w, 0).recv) == Library.Bits(Word(Sysdeps(w.client, w.impl), 1))
  {
    assert Fit([], BUFSIZ) == Zeros(BUFSIZ);
    var body := Sysdeps(w.client, w.impl);
    assert body[0..w.client.sysdepsSize][8..16] == body[8..16];
  }

  lemma OneReply(w: World)
    requires |w.calls| == 1 && w.calls[0].command == SYSDEPS && w.calls[0].send == []
    ensures var a := w.impl(0, 1, Zeros(BUFSIZ));
            RepliesFrom(w, 0) == Daemon.EncodeReply(w.server, Reply(24, a.body, a.data)) && RepliesFrom(w, 1) == []
  {
    assert Fit([], BUFSIZ) == Zeros(BUFSIZ);
    EmptyEnds(Daemon.EncodeReply(w.server, ReplyTo(w, 0)));
  }

  /** Opening a connection to a daemon succeeds exactly when the two builds print the same banner: what
      arrives is the banner and what the daemon's loop makes of the client's first command.  The client
      then holds the feature word that the daemon sent, and nothing is left over. */
  lemma HandshakeIff(client: Build, server: Build, side: Side, impl: Impl)
    requires BannerFits(client) && BannerFits(server) && client.sysdepsSize >= 16
    ensures var served := Daemon.Loop(server, side, impl, 0, EncodeCommand(Opening(client)));
            var p := BannerSize(server) + BannerText(server) + served.output;
            && (Library.Handshake(client, p) <==> BannerText(client) == BannerText(server))
            && (BannerText(client) == BannerText(server) ==>
                  var q := p[8 + |BannerText(client)|..];
                  && served.rest == [] && Library.AfterReply(client, q) == []
                  && Library.ServerFeatures(Library.ReplyOf(client, q, Some(client.sysdepsSize)).recv)
                     == Library.Bits(Word(Sysdeps(client, impl), 1)))
  {
    var w := Opened(client, server, side, impl);
    var served := Daemon.Loop(server, side, impl, 0, EncodeCommand(Opening(client)));
    GreetedIff(client, server, served.output);
    if BannerText(client) == BannerText(server) {
      OpeningAnswered(client, server, side, impl);
      OneReply(w);
      ClientReadsNext(w, 0);
      SysdepsAnswer(w);
    }
  }
}
