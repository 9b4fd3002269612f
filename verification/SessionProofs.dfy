/** The invariant and the measure of a session in which no write is lost: a remote call returns what the
    direct call returns, the streams stay in step, and a session gets exactly as far as its first
    unanswered call. */
module SessionProofs {
  import opened Bytes
  import opened Wire
  import opened Service
  import opened Session

  // ----- what a session should compute

  /** The result of running call `k` in the daemon's own process, without any streams. */
  ghost function Direct(w: World, k: nat): Result
    requires k < |w.calls|
  {
    var c := w.calls[k];
    if c.command == QUIT then
      Result(Window(Zeros(w.client.ResponseSize()), 0, c.recv), None)
    else
      var a := w.impl(k, c.command, Fit(c.send, BUFSIZ));
      Result(Window(Fit(a.body, w.client.BodySize()), 0, c.recv),
             if a.data == [] then None else Some(a.data))
  }

  ghost function Directs(w: World, n: nat): seq<Result>
    requires n <= |w.calls|
  {
    seq(n, k requires 0 <= k < n => Direct(w, k))
  }

  ghost predicate QuitBefore(w: World, k: nat) {
    exists j :: 0 <= j < k && j < |w.calls| && w.calls[j].command == QUIT
  }

  /** Call `k` can be answered: the daemon is still there, the request travels inside the command
      record, and the command is one that the daemon replies to. */
  ghost predicate Good(w: World, k: nat)
    requires k < |w.calls|
  {
    var c := w.calls[k];
    && !QuitBefore(w, k)
    && |c.send| <= w.client.paramSize && |c.send| < BUFSIZ
    && (c.command == QUIT || Answers(w.side, c.command))
  }

  ghost predicate AllGood(w: World, n: nat) {
    n <= |w.calls| && forall k :: 0 <= k < n ==> Good(w, k)
  }

  ghost function ReplyTo(w: World, k: nat): Reply
    requires k < |w.calls|
  {
    var c := w.calls[k];
    if c.command == QUIT then QUIT_REPLY
    else
      var a := w.impl(k, c.command, Fit(c.send, BUFSIZ));
      Reply(HEAD, a.body, a.data)
  }

  ghost function CommandOf(w: World, k: nat): Command
    requires k < |w.calls|
  {
    Pack(w.client, w.calls[k].command, w.calls[k].send)
  }

  // ----- the invariant

  predicate Off(d: Daemon) { d.Leaving? || d.Gone? }

  /** A signal can only have ended the read of command `k` or of the one behind it. */
  predicate DroppedNear(s: State, k: nat) { s.dropped == None || s.dropped == Some(k) || s.dropped == Some(k + 1) }

  /** The daemon has dealt with call `k` and nothing else is under way. */
  ghost predicate Settled(w: World, s: State, k: nat)
    requires k < |w.calls|
  {
    if s.dropped.Some? then s.dropped == Some(k + 1) && Off(s.daemon)
    else if w.calls[k].command == QUIT then Off(s.daemon)
    else s.daemon == ReadCommand(k + 1, [])
  }

  /** The daemon's state once it has read the command of call `k`. */
  ghost predicate Reaction(w: World, k: nat, d: Daemon)
    requires k < |w.calls|
  {
    AfterCommand(w, k, CommandOf(w, k)) == d
  }

  /** Call `k` has been sent and its response record has not been read completely. */
  ghost predicate Awaiting(w: World, s: State, k: nat, got: seq<byte>)
    requires k < |w.calls|
  {
    var d, r := s.daemon, ReplyTo(w, k);
    var header := EncodeHeader(w.server, r);
    && |got| < w.client.ResponseSize() && DroppedNear(s, k) && (s.dropped.Some? ==> Off(d))
    && match d
       case ReadCommand(served, sgot) =>
         if served == k then
           && !QuitBefore(w, k)
           && |sgot| < w.server.CommandSize() && sgot + s.toServer == EncodeCommand(CommandOf(w, k))
           && got == [] && s.toClient == [] && s.answered == k
         else
           && s.toServer == [] && sgot == [] && served == k + 1
           && if Good(w, k) then Settled(w, s, k) && got + s.toClient == header + r.data && s.answered == k + 1
              else got == [] && s.toClient == [] && s.answered == k && !QuitBefore(w, k) && Reaction(w, k, d)
       case SendHeader(served, reply, last) =>
         && Good(w, k) && served == k && reply == r && last == (w.calls[k].command == QUIT)
         && s.toServer == [] && got == [] && s.toClient == [] && s.answered == k
       case SendData(served, reply, last) =>
         && Good(w, k) && served == k && reply == r && last == (w.calls[k].command == QUIT)
         && r.data != [] && s.toServer == [] && got + s.toClient == header && s.answered == k + 1
       case ReadData(served, c, sgot) =>
         && !Good(w, k) && served == k && sgot == [] && c.dataSize > 0 && !QuitBefore(w, k) && Reaction(w, k, d)
         && s.toServer == [] && got == [] && s.toClient == [] && s.answered == k
       case _ =>
         && Off(d)
         && if Good(w, k) && s.dropped != Some(k) then
              && Settled(w, s, k) && s.toServer == []
              && got + s.toClient == header + r.data && s.answered == k + 1
            else got == [] && s.toClient == [] && s.answered == k && (s.dropped == Some(k) || Unheard(w, s, k))
  }

  /** Call `k` is one that makes the daemon leave, or comes too late, or is skipped by a daemon that a
      signal then ends. */
  ghost predicate Unheard(w: World, s: State, k: nat)
    requires k < |w.calls|
  {
    QuitBefore(w, k) || Reaction(w, k, Leaving) || (s.dropped == Some(k + 1) && Reaction(w, k, ReadCommand(k + 1, [])))
  }

  /** The response record of call `k` has been read, its trailing data has not. */
  ghost predicate Trailing(w: World, s: State, k: nat, header: seq<byte>, got: seq<byte>)
    requires k < |w.calls|
  {
    var d, r := s.daemon, ReplyTo(w, k);
    && Good(w, k) && header == EncodeHeader(w.server, r) && |got| < |r.data|
    && s.toServer == [] && s.answered == k + 1
    && ((d == SendData(k, r, w.calls[k].command == QUIT) && got == [] && s.toClient == [])
        || (Settled(w, s, k) && got + s.toClient == r.data))
    && (s.dropped.Some? ==> Settled(w, s, k))
  }

  /** The client is between two calls, `k` of which are done. */
  ghost predicate Between(w: World, s: State, k: nat) {
    && k <= |w.calls|
    && s.toServer == [] && s.toClient == [] && s.answered == k
    && if k > 0 then Settled(w, s, k - 1)
       else if s.dropped.Some? then s.dropped == Some(0) && Off(s.daemon)
       else s.daemon == ReadCommand(0, [])
  }

  ghost predicate Greeting(w: World, s: State)
    requires w.Valid() && (s.client.WaitSize? || s.client.WaitText?)
  {
    var got, text := Got(s.client), BannerText(w.server);
    && s.toServer == [] && s.answered == 0 && |got| < Wanted(w, s.client)
    && (s.client.WaitText? ==> |BannerText(w.client)| == |text|)
    && s.dropped == (if Off(s.daemon) then Some(0) else None)
    && match s.daemon
       case SendSize => s.client.WaitSize? && got == [] && s.toClient == []
       case SendText => got + s.toClient == if s.client.WaitSize? then BannerSize(w.server) else []
       case ReadCommand(served, sgot) =>
         && served == 0 && sgot == []
         && got + s.toClient == if s.client.WaitSize? then BannerSize(w.server) + text else text
       case _ =>
         Off(s.daemon) && got + s.toClient == if s.client.WaitSize? then BannerSize(w.server) + text else text
  }

  ghost predicate Sync(w: World, s: State)
    requires w.Valid()
  {
    var c, d, k := s.client, s.daemon, |Results(s.client)|;
    if c.WaitSize? || c.WaitText? then Greeting(w, s)
    else if !w.SameBanner() then
      && c == Failed([]) && s.toServer == [] && s.answered == 0
      && (d.SendText? || d == ReadCommand(0, []) || d.Leaving? || d.Gone?)
    else
      && AllGood(w, k) && c.results == Directs(w, k)
      && match c
         case Idle(_) => Between(w, s, k)
         case WaitHeader(_, got) => k < |w.calls| && Awaiting(w, s, k, got)
         case WaitData(_, header, got) => k < |w.calls| && Trailing(w, s, k, header, got)
         case Failed(_) => k < |w.calls| && d.Gone? && s.answered == k && s.toClient == []
                           && (s.dropped == Some(k) || (!Good(w, k) && Unheard(w, s, k)))
         case Closed(_) =>
           && k == |w.calls| && s.toServer == [] && s.toClient == [] && s.answered == k
           && (d == ReadCommand(k, []) || Off(d)) && (s.dropped == None || (s.dropped == Some(k) && Off(d)))
  }

  // ----- one call across the wire

  lemma CommandArrives(w: World, k: nat)
    requires w.SameBanner() && k < |w.calls| && !QuitBefore(w, k)
    ensures |EncodeCommand(CommandOf(w, k))| == w.server.CommandSize()
    ensures DecodeCommand(EncodeCommand(CommandOf(w, k))) == CommandOf(w, k)
    ensures var d := AfterCommand(w, k, CommandOf(w, k));
            if Good(w, k) then d == SendHeader(k, ReplyTo(w, k), w.calls[k].command == QUIT)
            else || d == ReadCommand(k + 1, [])
                 || d == Leaving
                 || (d.ReadData? && d.got == [] && d.command.dataSize > 0)
  {
    var c := w.calls[k];
    EqualBanners(w.client, w.server);
    CommandRoundTrip(CommandOf(w, k));
    if |c.send| <= w.client.paramSize {
      InlineParameterOfPack(w.client, c.command, c.send);
    }
  }

  /** What the client makes of the daemon's record is what the direct call yields. */
  lemma ReplyArrives(w: World, k: nat)
    requires w.SameBanner() && k < |w.calls|
    ensures var r := ReplyTo(w, k);
            var header := EncodeHeader(w.server, r);
            && |header| == w.client.ResponseSize()
            && Word(header, 2) == |r.data|
            && Received(header, r.data, w.calls[k].recv) == Direct(w, k)
  {
    var r := ReplyTo(w, k);
    var header := EncodeHeader(w.server, r);
    EqualBanners(w.client, w.server);
    HeaderWords(w.server, r);
    if w.calls[k].command == QUIT {
      ZeroWord();
      assert Fit([], w.server.BodySize()) == Zeros(w.server.BodySize());
      assert header == Zeros(w.client.ResponseSize());
    } else {
      match w.calls[k].recv
      case None =>
      case Some(n) =>
        if n <= w.client.BodySize() {
          assert header[HEAD..HEAD + n] == header[HEAD..][..n];
        }
    }
  }

  lemma ZeroWord()
    ensures Put64(0) == Zeros(WORD)
  {
    PutZero(WORD);
  }

  lemma {:induction false} PutZero(k: nat)
    ensures Put(0, k) == Zeros(k)
  {
    if k != 0 { PutZero(k - 1); }
  }

  lemma Split(a: seq<byte>, b: seq<byte>, n: nat)
    requires n <= |b|
    ensures (a + b[..n]) + b[n..] == a + b
  {
  }

  lemma Prefix(a: seq<byte>, b: seq<byte>, p: seq<byte>, q: seq<byte>)
    requires a + b == p + q && |a| == |p|
    ensures a == p && b == q
  {
    assert a == (a + b)[..|a|] && b == (a + b)[|a|..];
    assert p == (p + q)[..|p|] && q == (p + q)[|p|..];
  }

  lemma DirectsGrow(w: World, k: nat)
    requires k < |w.calls|
    ensures Directs(w, k + 1) == Directs(w, k) + [Direct(w, k)]
  {
  }

  // ----- every step keeps the invariant

  lemma GreetingRead(w: World, s: State, n: nat)
    requires w.Valid() && Sync(w, s) && (s.client.WaitSize? || s.client.WaitText?)
    requires Enabled(w, s, ClientRead(n))
    ensures Sync(w, Apply(w, s, ClientRead(n)))
  {
    var got, t := Got(s.client), Apply(w, s, ClientRead(n));
    Split(got, s.toClient, n);
    var got' := got + s.toClient[..n];
    if |got'| == Wanted(w, s.client) {
      var size, text := BannerSize(w.server), BannerText(w.server);
      if s.client.WaitSize? {
        if s.daemon.SendText? {
          Prefix(got', t.toClient, size, []);
        } else {
          Prefix(got', t.toClient, size, text);
        }
        Get64Put64(|text|);
      } else {
        Prefix(got', t.toClient, text, []);
      }
    }
  }

  lemma HeaderPartRead(w: World, s: State, n: nat)
    requires w.Valid() && Sync(w, s) && s.client.WaitHeader?
    requires Enabled(w, s, ClientRead(n)) && |s.client.got| + n < w.client.ResponseSize()
    ensures Sync(w, Apply(w, s, ClientRead(n)))
  {
    var k := |s.client.results|;
    assert Good(w, k);
    Split(s.client.got, s.toClient, n);
    assert Awaiting(w, Apply(w, s, ClientRead(n)), k, s.client.got + s.toClient[..n]);
  }

  /** The next `n` bytes complete the response record of the call that the client is waiting for. */
  ghost predicate HeaderAtHand(w: World, s: State, n: nat)
    requires s.client.WaitHeader? && n <= |s.toClient|
  {
    var k := |s.client.results|;
    && AllGood(w, k + 1) && s.client.results == Directs(w, k)
    && var r := ReplyTo(w, k);
    && s.client.got + s.toClient[..n] == EncodeHeader(w.server, r)
    && s.toServer == [] && s.answered == k + 1 && (s.dropped.Some? ==> Settled(w, s, k))
    && (|| (s.toClient[n..] == r.data && Settled(w, s, k))
        || (r.data != [] && s.toClient[n..] == [] && s.daemon == SendData(k, r, w.calls[k].command == QUIT)))
  }

  lemma AwaitsInTurn(w: World, s: State)
    requires w.Valid() && Sync(w, s) && s.client.WaitHeader?
    ensures var k := |s.client.results|;
            && w.SameBanner() && k < |w.calls| && AllGood(w, k) && s.client.results == Directs(w, k)
            && Awaiting(w, s, k, s.client.got) && |s.client.got| < w.client.ResponseSize()
  {
  }

  lemma HeaderBytes(w: World, s: State, k: nat, n: nat)
    requires w.SameBanner() && k < |w.calls| && s.client.WaitHeader? && Awaiting(w, s, k, s.client.got)
    requires 0 < n <= |s.toClient| && |s.client.got| + n == w.client.ResponseSize()
    ensures Good(w, k) && s.dropped != Some(k)
    ensures var r := ReplyTo(w, k);
            && s.client.got + s.toClient[..n] == EncodeHeader(w.server, r)
            && s.toClient[n..] == if s.daemon.SendData? then [] else r.data
  {
    var r := ReplyTo(w, k);
    EqualBanners(w.client, w.server);
    Split(s.client.got, s.toClient, n);
    if s.daemon.SendData? {
      Prefix(s.client.got + s.toClient[..n], s.toClient[n..], EncodeHeader(w.server, r), []);
    } else {
      Prefix(s.client.got + s.toClient[..n], s.toClient[n..], EncodeHeader(w.server, r), r.data);
    }
  }

  lemma HeaderComplete(w: World, s: State, n: nat)
    requires w.Valid() && Sync(w, s) && s.client.WaitHeader?
    requires Enabled(w, s, ClientRead(n)) && |s.client.got| + n == w.client.ResponseSize()
    ensures w.SameBanner() && HeaderAtHand(w, s, n)
  {
    AwaitsInTurn(w, s);
    HeaderBytes(w, s, |s.client.results|, n);
  }

  lemma HeaderTaken(w: World, c: Client, chunk: seq<byte>, k: nat)
    requires w.SameBanner() && k < |w.calls|
    requires c.WaitHeader? && c.results == Directs(w, k) && c.got + chunk == EncodeHeader(w.server, ReplyTo(w, k))
    ensures Got(c) == c.got && |c.got + chunk| == w.client.ResponseSize()
    ensures ClientTake(w, c, chunk) == if ReplyTo(w, k).data == [] then Idle(Directs(w, k + 1))
                                       else WaitData(Directs(w, k), EncodeHeader(w.server, ReplyTo(w, k)), [])
  {
    ReplyArrives(w, k);
    DirectsGrow(w, k);
  }

  lemma SyncBetween(w: World, t: State, k: nat)
    requires w.Valid() && w.SameBanner() && AllGood(w, k)
    requires t.client == Idle(Directs(w, k)) && Between(w, t, k)
    ensures Sync(w, t)
  {
  }

  lemma SyncAwaiting(w: World, t: State, k: nat)
    requires w.Valid() && w.SameBanner() && AllGood(w, k) && k < |w.calls|
    requires t.client.WaitHeader? && t.client.results == Directs(w, k) && Awaiting(w, t, k, t.client.got)
    ensures Sync(w, t)
  {
  }

  lemma SyncTrailing(w: World, t: State, k: nat, header: seq<byte>)
    requires w.Valid() && w.SameBanner() && AllGood(w, k) && k < |w.calls|
    requires t.client.WaitData? && t.client == WaitData(Directs(w, k), header, t.client.got)
    requires Trailing(w, t, k, header, t.client.got)
    ensures Sync(w, t)
  {
  }

  lemma HeaderReadAlone(w: World, s: State, n: nat)
    requires w.Valid() && w.SameBanner() && s.client.WaitHeader?
    requires Enabled(w, s, ClientRead(n)) && HeaderAtHand(w, s, n)
    requires ReplyTo(w, |s.client.results|).data == []
    ensures Sync(w, Apply(w, s, ClientRead(n)))
  {
    var k := |s.client.results|;
    HeaderTaken(w, s.client, s.toClient[..n], k);
    SyncBetween(w, Apply(w, s, ClientRead(n)), k + 1);
  }

  lemma HeaderReadWithData(w: World, s: State, n: nat)
    requires w.Valid() && w.SameBanner() && s.client.WaitHeader?
    requires Enabled(w, s, ClientRead(n)) && HeaderAtHand(w, s, n)
    requires ReplyTo(w, |s.client.results|).data != []
    ensures Sync(w, Apply(w, s, ClientRead(n)))
  {
    var k := |s.client.results|;
    HeaderTaken(w, s.client, s.toClient[..n], k);
    SyncTrailing(w, Apply(w, s, ClientRead(n)), k, EncodeHeader(w.server, ReplyTo(w, k)));
  }

  lemma TrailingHolds(w: World, s: State)
    requires w.Valid() && Sync(w, s) && s.client.WaitData?
    ensures var k := |s.client.results|;
            && w.SameBanner() && k < |w.calls| && AllGood(w, k) && s.client.results == Directs(w, k)
            && Trailing(w, s, k, s.client.header, s.client.got)
  {
  }

  lemma DataWanted(w: World, c: Client, k: nat)
    requires w.SameBanner() && k < |w.calls| && c.WaitData? && c.header == EncodeHeader(w.server, ReplyTo(w, k))
    ensures |c.header| >= HEAD && Wanted(w, c) == |ReplyTo(w, k).data|
  {
    ReplyArrives(w, k);
  }

  lemma TrailingWants(w: World, s: State)
    requires w.Valid() && Sync(w, s) && s.client.WaitData?
    ensures w.SameBanner() && |s.client.header| >= HEAD
    ensures var k := |s.client.results|;
            && AllGood(w, k + 1) && s.client.results == Directs(w, k)
            && Trailing(w, s, k, s.client.header, s.client.got)
            && Wanted(w, s.client) == |ReplyTo(w, k).data|
  {
    TrailingHolds(w, s);
    DataWanted(w, s.client, |s.client.results|);
  }

  lemma DataTaken(w: World, c: Client, chunk: seq<byte>, k: nat)
    requires w.SameBanner() && k < |w.calls| && c.WaitData? && c.results == Directs(w, k)
    requires c.header == EncodeHeader(w.server, ReplyTo(w, k))
    requires |c.got| < |ReplyTo(w, k).data| && |c.got + chunk| <= |ReplyTo(w, k).data|
    ensures |c.header| >= HEAD && |c.got| + |chunk| <= Wanted(w, c)
    ensures c.got + chunk == ReplyTo(w, k).data ==> ClientTake(w, c, chunk) == Idle(Directs(w, k + 1))
    ensures |c.got + chunk| < |ReplyTo(w, k).data| ==> ClientTake(w, c, chunk) == c.(got := c.got + chunk)
  {
    ReplyArrives(w, k);
    DirectsGrow(w, k);
  }

  lemma DataRead(w: World, s: State, n: nat)
    requires w.Valid() && w.SameBanner() && s.client.WaitData? && Enabled(w, s, ClientRead(n))
    requires var k := |s.client.results|;
             && AllGood(w, k + 1) && s.client.results == Directs(w, k)
             && Trailing(w, s, k, s.client.header, s.client.got)
             && Wanted(w, s.client) == |ReplyTo(w, k).data|
    ensures Sync(w, Apply(w, s, ClientRead(n)))
  {
    var k, t := |s.client.results|, Apply(w, s, ClientRead(n));
    var r := ReplyTo(w, k);
    Split(s.client.got, s.toClient, n);
    DataTaken(w, s.client, s.toClient[..n], k);
    if |s.client.got| + n == |r.data| {
      Prefix(s.client.got + s.toClient[..n], t.toClient, r.data, []);
      SyncBetween(w, t, k + 1);
    } else {
      SyncTrailing(w, t, k, s.client.header);
    }
  }

  /** The client only reads to the end of the stream when the daemon has gone without a reply. */
  lemma AwaitingNoReply(w: World, s: State, k: nat, got: seq<byte>)
    requires w.SameBanner() && k < |w.calls| && Awaiting(w, s, k, got) && s.daemon.Gone? && s.toClient == []
    ensures s.dropped == Some(k) || (!Good(w, k) && Unheard(w, s, k))
    ensures s.answered == k
  {
    if Good(w, k) { ReplyArrives(w, k); }
  }

  lemma EndIsInHeader(w: World, s: State)
    requires w.Valid() && Sync(w, s) && Enabled(w, s, ClientEof)
    ensures w.SameBanner() && s.client.WaitHeader? && |s.client.results| < |w.calls|
    ensures Awaiting(w, s, |s.client.results|, s.client.got)
  {
  }

  lemma EndMeansNoReply(w: World, s: State)
    requires w.Valid() && Sync(w, s) && Enabled(w, s, ClientEof)
    ensures w.SameBanner() && s.client.WaitHeader?
    ensures s.dropped == Some(|s.client.results|) || (!Good(w, |s.client.results|) && Unheard(w, s, |s.client.results|))
  {
    EndIsInHeader(w, s);
    AwaitingNoReply(w, s, |s.client.results|, s.client.got);
  }

  lemma ClientSeesEof(w: World, s: State)
    requires w.Valid() && Sync(w, s) && Enabled(w, s, ClientEof)
    ensures Sync(w, Apply(w, s, ClientEof))
  {
    EndMeansNoReply(w, s);
  }

  lemma ClientCloses(w: World, s: State)
    requires w.Valid() && Sync(w, s) && Enabled(w, s, ClientClose)
    ensures Sync(w, Apply(w, s, ClientClose))
  {
  }

  /** Among answered calls only the last one can be `QUIT`. */
  lemma LastQuit(w: World, k: nat)
    requires AllGood(w, k) && QuitBefore(w, k)
    ensures k > 0 && w.calls[k - 1].command == QUIT
  {
    var j :| 0 <= j < k && j < |w.calls| && w.calls[j].command == QUIT;
    assert Good(w, k - 1);
  }

  lemma CommandWritten(w: World, s: State)
    requires w.Valid() && Sync(w, s) && Enabled(w, s, ClientWrite)
    ensures Sync(w, Apply(w, s, ClientWrite))
  {
    var k := |s.client.results|;
    EqualBanners(w.client, w.server);
    if QuitBefore(w, k) {
      LastQuit(w, k);
    } else {
      assert EncodeCommand(CommandOf(w, k)) == [] + (s.toServer + EncodeCommand(CommandOf(w, k)));
    }
  }

  lemma CommandPartRead(w: World, s: State, n: nat)
    requires w.Valid() && Sync(w, s) && Enabled(w, s, DaemonRead(n))
    requires |s.daemon.got| + n < WantedCommand(w, s.daemon)
    ensures Sync(w, Apply(w, s, DaemonRead(n)))
  {
    assert s.client.WaitHeader? && s.daemon.ReadCommand?;
    Split(s.daemon.got, s.toServer, n);
    assert Awaiting(w, Apply(w, s, DaemonRead(n)), |s.client.results|, []);
  }

  /** The next `n` bytes complete the command record of the call that the client is waiting for. */
  ghost predicate CommandAtHand(w: World, s: State, n: nat)
    requires n <= |s.toServer|
  {
    && s.client.WaitHeader? && s.daemon.ReadCommand?
    && var k := |s.client.results|;
    && k < |w.calls| && s.daemon.served == k && !QuitBefore(w, k)
    && s.daemon.got + s.toServer[..n] == EncodeCommand(CommandOf(w, k)) && s.toServer[n..] == []
    && s.toClient == [] && s.client.got == []
    && AllGood(w, k) && s.answered == k && s.client.results == Directs(w, k) && s.dropped == None
  }

  lemma CommandComplete(w: World, s: State, n: nat)
    requires w.Valid() && Sync(w, s) && Enabled(w, s, DaemonRead(n))
    requires |s.daemon.got| + n == WantedCommand(w, s.daemon)
    ensures w.SameBanner() && CommandAtHand(w, s, n)
  {
    var k := |Results(s.client)|;
    assert s.client.WaitHeader? && s.daemon.ReadCommand? && s.daemon.served == k;
    Split(s.daemon.got, s.toServer, n);
    EqualBanners(w.client, w.server);
    Prefix(s.daemon.got + s.toServer[..n], s.toServer[n..], EncodeCommand(CommandOf(w, k)), []);
  }

  lemma CommandHeard(w: World, t: State, k: nat)
    requires w.SameBanner() && k < |w.calls| && !QuitBefore(w, k)
    requires t.daemon == AfterCommand(w, k, CommandOf(w, k))
    requires t.toServer == [] && t.toClient == [] && t.answered == k && t.dropped == None
    ensures Awaiting(w, t, k, [])
  {
    EqualBanners(w.client, w.server);
    CommandArrives(w, k);
  }

  lemma CommandRead(w: World, s: State, n: nat)
    requires w.Valid() && w.SameBanner() && Enabled(w, s, DaemonRead(n))
    requires CommandAtHand(w, s, n)
    ensures Sync(w, Apply(w, s, DaemonRead(n)))
  {
    var k, t := |Results(s.client)|, Apply(w, s, DaemonRead(n));
    CommandArrives(w, k);
    assert t.daemon == AfterCommand(w, k, CommandOf(w, k));
    CommandHeard(w, t, k);
    SyncAwaiting(w, t, k);
  }

  lemma HeaderInTurn(w: World, s: State)
    requires w.Valid() && Sync(w, s) && s.daemon.SendHeader?
    ensures s.client.WaitHeader?
    ensures var k := |s.client.results|;
            && k < |w.calls| && w.SameBanner() && AllGood(w, k + 1) && s.client.results == Directs(w, k)
            && s.daemon == SendHeader(k, ReplyTo(w, k), w.calls[k].command == QUIT)
            && s.client.got == [] && s.toClient == [] && s.toServer == [] && |s.client.got| < w.client.ResponseSize()
  {
  }

  lemma HeaderAwaited(w: World, s: State)
    requires w.Valid() && Sync(w, s) && s.daemon.SendHeader?
    ensures var k := |Results(s.client)|; k < |w.calls| && Awaiting(w, s, k, [])
  {
  }

  lemma AwaitingHeaderSent(w: World, s: State, k: nat)
    requires k < |w.calls| && Awaiting(w, s, k, []) && s.daemon.SendHeader?
    ensures Awaiting(w, s.(daemon := AfterWrite(s.daemon), answered := s.answered + 1,
                           toClient := s.toClient + EncodeHeader(w.server, s.daemon.reply)), k, [])
  {
    var header := EncodeHeader(w.server, s.daemon.reply);
    EmptyEnds(header);
  }

  lemma HeaderWritten(w: World, s: State)
    requires w.Valid() && Sync(w, s) && s.daemon.SendHeader?
    ensures Sync(w, Apply(w, s, DaemonWrite))
  {
    var k := |Results(s.client)|;
    HeaderInTurn(w, s);
    HeaderAwaited(w, s);
    AwaitingHeaderSent(w, s, k);
    SyncAwaiting(w, Apply(w, s, DaemonWrite), k);
  }

  lemma SendsCurrent(w: World, s: State)
    requires w.Valid() && Sync(w, s) && s.daemon.SendData?
    ensures var k := |Results(s.client)|;
            && k < |w.calls| && w.SameBanner() && AllGood(w, k) && Results(s.client) == Directs(w, k)
            && (s.client.WaitHeader? || s.client.WaitData?)
            && (s.client.WaitHeader? ==> Awaiting(w, s, k, s.client.got))
            && (s.client.WaitData? ==> Trailing(w, s, k, s.client.header, s.client.got))
  {
  }

  lemma AwaitingDataSent(w: World, s: State, k: nat, got: seq<byte>)
    requires k < |w.calls| && Awaiting(w, s, k, got) && s.daemon.SendData?
    ensures Awaiting(w, s.(daemon := AfterReply(s.daemon.served, s.daemon.last),
                           toClient := s.toClient + s.daemon.reply.data), k, got)
  {
    Assoc(got, s.toClient, s.daemon.reply.data);
  }

  lemma TrailingDataSent(w: World, s: State, k: nat, header: seq<byte>, got: seq<byte>)
    requires k < |w.calls| && Trailing(w, s, k, header, got) && s.daemon.SendData?
    ensures Trailing(w, s.(daemon := AfterReply(s.daemon.served, s.daemon.last),
                           toClient := s.toClient + s.daemon.reply.data), k, header, got)
  {
    TrailingSends(w, s, k, header, got);
    EmptyEnds(s.daemon.reply.data);
  }

  lemma TrailingSends(w: World, s: State, k: nat, header: seq<byte>, got: seq<byte>)
    requires k < |w.calls| && Trailing(w, s, k, header, got) && s.daemon.SendData?
    ensures s.daemon == SendData(k, ReplyTo(w, k), w.calls[k].command == QUIT)
    ensures got == [] && s.toClient == [] && s.dropped == None
  {
  }

  lemma DataWritten(w: World, s: State)
    requires w.Valid() && Sync(w, s) && s.daemon.SendData?
    ensures Sync(w, s.(daemon := AfterReply(s.daemon.served, s.daemon.last),
                       toClient := s.toClient + s.daemon.reply.data))
  {
    var k := |Results(s.client)|;
    var t := s.(daemon := AfterReply(s.daemon.served, s.daemon.last), toClient := s.toClient + s.daemon.reply.data);
    SendsCurrent(w, s);
    if s.client.WaitHeader? {
      AwaitingDataSent(w, s, k, s.client.got);
      SyncAwaiting(w, t, k);
    } else {
      TrailingDataSent(w, s, k, s.client.header, s.client.got);
      SyncTrailing(w, t, k, s.client.header);
    }
  }

  lemma GreetingWritten(w: World, s: State)
    requires w.Valid() && Sync(w, s) && (s.daemon.SendSize? || s.daemon.SendText?)
    ensures Sync(w, Apply(w, s, DaemonWrite))
  {
    if s.client.WaitSize? || s.client.WaitText? {
      GreetingMoves(w, s);
    }
  }

  lemma GreetingMoves(w: World, s: State)
    requires w.Valid() && (s.client.WaitSize? || s.client.WaitText?) && Greeting(w, s)
    requires s.daemon.SendSize? || s.daemon.SendText?
    ensures Greeting(w, DaemonSend(w, s))
  {
    var got, text := Got(s.client), BannerText(w.server);
    Assoc(got, s.toClient, text);
    EmptyEnds(BannerSize(w.server));
    EmptyEnds(text);
  }

  lemma DaemonSeesEof(w: World, s: State)
    requires w.Valid() && Sync(w, s) && Enabled(w, s, DaemonEof)
    ensures Sync(w, Apply(w, s, DaemonEof))
  {
  }

  lemma AwaitingExits(w: World, s: State, k: nat, got: seq<byte>)
    requires k < |w.calls| && Awaiting(w, s, k, got) && s.daemon.Leaving?
    ensures Awaiting(w, s.(daemon := Gone), k, got)
  {
  }

  lemma DaemonExits(w: World, s: State)
    requires w.Valid() && Sync(w, s) && Enabled(w, s, DaemonExit)
    ensures Sync(w, s.(daemon := Gone))
  {
    match s.client
    case WaitHeader(results, got) =>
      AwaitingExits(w, s, |results|, got);
      SyncAwaiting(w, s.(daemon := Gone), |results|);
    case WaitData(results, header, got) =>
      TrailingExits(w, s, |results|, header, got);
      SyncTrailing(w, s.(daemon := Gone), |results|, header);
    case _ =>
  }

  lemma TrailingExits(w: World, s: State, k: nat, header: seq<byte>, got: seq<byte>)
    requires k < |w.calls| && Trailing(w, s, k, header, got) && s.daemon.Leaving?
    ensures Trailing(w, s.(daemon := Gone), k, header, got)
  {
  }

  lemma ClientReads(w: World, s: State, n: nat)
    requires w.Valid() && Sync(w, s) && Enabled(w, s, ClientRead(n))
    ensures Sync(w, Apply(w, s, ClientRead(n)))
  {
    match s.client
    case WaitHeader(_, got) =>
      if |got| + n == w.client.ResponseSize() {
        HeaderComplete(w, s, n);
        if ReplyTo(w, |s.client.results|).data == [] { HeaderReadAlone(w, s, n); } else { HeaderReadWithData(w, s, n); }
      } else {
        HeaderPartRead(w, s, n);
      }
    case WaitData(_, _, _) =>
      TrailingWants(w, s);
      DataRead(w, s, n);
    case _ => GreetingRead(w, s, n);
  }

  lemma DaemonReads(w: World, s: State, n: nat)
    requires w.Valid() && Sync(w, s) && Enabled(w, s, DaemonRead(n))
    ensures Sync(w, Apply(w, s, DaemonRead(n)))
  {
    if |s.daemon.got| + n == WantedCommand(w, s.daemon) {
      CommandComplete(w, s, n);
      CommandRead(w, s, n);
    } else {
      CommandPartRead(w, s, n);
    }
  }

  /** A signal ends the read of a command. */
  lemma AwaitingDropped(w: World, s: State, k: nat, got: seq<byte>)
    requires k < |w.calls| && Awaiting(w, s, k, got) && s.daemon.ReadCommand?
    ensures Awaiting(w, s.(daemon := Leaving, dropped := Some(s.daemon.served)), k, got)
  {
  }

  lemma CommandDropped(w: World, s: State)
    requires w.Valid() && Sync(w, s) && s.daemon.ReadCommand?
    ensures Sync(w, s.(daemon := Leaving, dropped := Some(s.daemon.served)))
  {
    if s.client.WaitHeader? { AwaitingDropped(w, s, |s.client.results|, s.client.got); }
  }

  lemma WriteStep(w: World, s: State)
    requires w.Valid() && Sync(w, s) && Enabled(w, s, DaemonWrite)
    ensures Sync(w, Apply(w, s, DaemonWrite))
  {
    match s.daemon
    case SendHeader(_, _, _) => HeaderWritten(w, s);
    case SendData(_, _, _) => DataWritten(w, s);
    case _ => GreetingWritten(w, s);
  }

  lemma DaemonStep(w: World, s: State, a: Action)
    requires w.Valid() && Sync(w, s) && Enabled(w, s, a)
    requires a in {DaemonWrite, DaemonEof, DaemonExit} || (a == DaemonInterrupted && s.daemon.ReadCommand?)
    ensures Sync(w, Apply(w, s, a))
  {
    match a
    case DaemonWrite => WriteStep(w, s);
    case DaemonEof => DaemonSeesEof(w, s);
    case DaemonInterrupted => CommandDropped(w, s);
    case DaemonExit => DaemonExits(w, s);
  }

  /** Every system call that either side can make keeps the two streams in step, except that a signal
      may cut the data of a call, and that a write may be lost. */
  lemma SyncStep(w: World, s: State, a: Action)
    requires w.Valid() && Sync(w, s) && Enabled(w, s, a) && !(a == DaemonInterrupted && s.daemon.ReadData?)
    requires a != DaemonWriteLost
    ensures Sync(w, Apply(w, s, a))
  {
    match a
    case ClientRead(n) => ClientReads(w, s, n);
    case ClientEof => ClientSeesEof(w, s);
    case ClientClose => ClientCloses(w, s);
    case ClientWrite => CommandWritten(w, s);
    case ClientInterrupted =>
    case DaemonRead(n) => DaemonReads(w, s, n);
    case _ => DaemonStep(w, s, a);
  }

  // ----- what the daemon has heard

  /** The calls as the daemon has heard them: those whose data a signal kept from being read have come
      with an empty request. */
  ghost function Heard(w: World, cut: set<nat>): World {
    w.(calls := seq(|w.calls|, k requires 0 <= k < |w.calls| =>
                  if k in cut then w.calls[k].(send := []) else w.calls[k]))
  }

  lemma HeardAll(w: World)
    ensures Heard(w, {}) == w
  {
    assert Heard(w, {}).calls == w.calls;
  }

  lemma HeardMore(w: World, cut: set<nat>, k: nat)
    requires k < |w.calls|
    ensures var h := Heard(w, cut); Heard(w, cut + {k}) == h.(calls := h.calls[k := h.calls[k].(send := [])])
  {
    var h := Heard(w, cut);
    assert Heard(w, cut + {k}).calls == h.calls[k := h.calls[k].(send := [])];
  }

  /** Only the request of call `k` differs, and it is empty in `v`. */
  ghost predicate Muted(w: World, v: World, k: nat) {
    k < |w.calls| && v == w.(calls := w.calls[k := w.calls[k].(send := [])])
  }

  lemma SameCommands(w: World, v: World, k: nat)
    requires |v.calls| == |w.calls| && forall i :: 0 <= i < |w.calls| ==> v.calls[i].command == w.calls[i].command
    ensures QuitBefore(v, k) == QuitBefore(w, k)
  {
    if QuitBefore(v, k) {
      var i :| 0 <= i < k && i < |v.calls| && v.calls[i].command == QUIT;
      assert w.calls[i].command == QUIT;
    }
    if QuitBefore(w, k) {
      var i :| 0 <= i < k && i < |w.calls| && w.calls[i].command == QUIT;
      assert v.calls[i].command == QUIT;
    }
  }

  lemma MutedBefore(w: World, v: World, k: nat)
    requires Muted(w, v, k)
    ensures QuitBefore(v, k) == QuitBefore(w, k) && (AllGood(w, k) ==> AllGood(v, k)) && Directs(v, k) == Directs(w, k)
  {
    SameCommands(w, v, k);
    forall j: nat | j < k ensures QuitBefore(v, j) == QuitBefore(w, j) { SameCommands(w, v, j); }
    assert forall j :: 0 <= j < k ==> v.calls[j] == w.calls[j];
    assert forall j :: 0 <= j < k ==> Good(w, j) == Good(v, j) && Direct(v, j) == Direct(w, j);
  }

  lemma MutedReaction(w: World, v: World, k: nat, c: Command)
    requires Muted(w, v, k) && Reaction(w, k, ReadData(k, c, []))
    ensures AfterData(w, k, c, []) == AfterCommand(v, k, CommandOf(v, k))
  {
    InlineParameterOfPack(v.client, v.calls[k].command, []);
  }

  /** The daemon waits for data of call `k`, and nothing else is under way. */
  ghost predicate DataAwaited(w: World, s: State, k: nat) {
    && k < |w.calls| && w.SameBanner() && s.client == WaitHeader(Directs(w, k), [])
    && s.daemon.ReadData? && s.daemon.served == k && s.daemon.got == []
    && s.toServer == [] && s.toClient == [] && s.answered == k && s.dropped == None
    && !QuitBefore(w, k) && Reaction(w, k, s.daemon) && AllGood(w, k) && |w.calls[k].send| > w.client.paramSize
  }

  lemma DataReadInHeader(w: World, s: State)
    requires w.Valid() && Sync(w, s) && s.daemon.ReadData?
    ensures s.client.WaitHeader?
  {
  }

  lemma WaitsForData(w: World, s: State)
    requires w.Valid() && Sync(w, s) && s.daemon.ReadData?
    ensures DataAwaited(w, s, |Results(s.client)|)
  {
    DataReadInHeader(w, s);
    AwaitsInTurn(w, s);
  }

  lemma DataCut(w: World, v: World, s: State, k: nat)
    requires w.Valid() && DataAwaited(w, s, k) && Muted(w, v, k)
    ensures Sync(v, Apply(w, s, DaemonInterrupted))
  {
    var t := Apply(w, s, DaemonInterrupted);
    MutedBefore(w, v, k);
    MutedReaction(w, v, k, s.daemon.command);
    CommandHeard(v, t, k);
    SyncAwaiting(v, t, k);
  }

  /** Only requests too long for the command record can be cut, and only of calls that the daemon has
      already read. */
  ghost predicate CutSoFar(w: World, s: State) {
    var c, d, k := s.client, s.daemon, |Results(s.client)|;
    forall j :: j in s.cut ==>
      && j < |w.calls| && |w.calls[j].send| > w.client.paramSize
      && (j < k || (j == k && (c.WaitHeader? || c.WaitData? || c.Failed?) && !Unread(d, k)))
  }

  /** The daemon has not read all of call `k`. */
  ghost predicate Unread(d: Daemon, k: nat) {
    d.SendSize? || d.SendText? || ((d.ReadCommand? || d.ReadData?) && d.served == k)
  }

  ghost predicate InStep(w: World, s: State)
    requires w.Valid()
  {
    s.lost == None && CutSoFar(w, s) && Sync(Heard(w, s.cut), s)
  }

  /** A move looks the same whichever requests have been cut. */
  lemma SameMoves(w: World, s: State, a: Action)
    requires w.Valid() && CutSoFar(w, s)
    ensures Enabled(Heard(w, s.cut), s, a) == Enabled(w, s, a)
    ensures Enabled(w, s, a) ==> Apply(Heard(w, s.cut), s, a) == Apply(w, s, a)
  {
    if a == ClientWrite && Enabled(w, s, a) {
      var k := |s.client.results|;
      assert k !in s.cut;
      assert Heard(w, s.cut).calls[k] == w.calls[k];
    }
  }

  lemma ReadsCurrent(w: World, s: State, n: nat)
    requires w.Valid() && Sync(w, s) && Enabled(w, s, DaemonRead(n))
    ensures s.client.WaitHeader? && s.daemon.ReadCommand? && s.daemon.served == |Results(s.client)|
  {
  }

  lemma WritesCurrent(w: World, s: State)
    requires w.Valid() && Sync(w, s) && (s.daemon.SendHeader? || s.daemon.SendData?)
    ensures s.daemon.served == |Results(s.client)|
  {
  }

  lemma CutStaysRead(w: World, s: State, n: nat)
    requires w.Valid() && CutSoFar(w, s) && Enabled(w, s, ClientRead(n))
    ensures CutSoFar(w, Apply(w, s, ClientRead(n)))
  {
    var t := Apply(w, s, ClientRead(n));
    assert t.daemon == s.daemon && t.cut == s.cut;
    assert s.client.WaitSize? || s.client.WaitText? ==> s.cut == {};
  }

  lemma CutStaysDaemon(w: World, s: State, t: State)
    requires w.Valid() && CutSoFar(w, s) && t.client == s.client && t.cut == s.cut
    requires Unread(t.daemon, |Results(s.client)|) ==> Unread(s.daemon, |Results(s.client)|)
    ensures CutSoFar(w, t)
  {
  }

  lemma CutStaysEnds(w: World, s: State, a: Action)
    requires w.Valid() && InStep(w, s) && Enabled(w, s, a) && (a == DaemonEof || a == DaemonInterrupted)
    requires s.daemon.ReadCommand?
    ensures CutSoFar(w, Apply(w, s, a))
  {
    CutStaysDaemon(w, s, Apply(w, s, a));
  }

  lemma CutStaysWrite(w: World, s: State)
    requires w.Valid() && CutSoFar(w, s) && Enabled(w, s, DaemonWrite)
    requires s.daemon.SendHeader? || s.daemon.SendData? ==> s.daemon.served == |Results(s.client)|
    ensures CutSoFar(w, Apply(w, s, DaemonWrite))
  {
    CutStaysDaemon(w, s, Apply(w, s, DaemonWrite));
  }

  lemma CutStaysCommand(w: World, s: State, n: nat)
    requires w.Valid() && InStep(w, s) && Enabled(w, s, DaemonRead(n))
    ensures CutSoFar(w, Apply(w, s, DaemonRead(n)))
  {
    SameMoves(w, s, DaemonRead(n));
    ReadsCurrent(Heard(w, s.cut), s, n);
    CutStaysDaemon(w, s, Apply(w, s, DaemonRead(n)));
  }

  lemma EofIsAtCommand(w: World, s: State)
    requires w.Valid() && Sync(w, s) && Enabled(w, s, DaemonEof)
    ensures s.daemon.ReadCommand?
  {
  }

  lemma CutStaysClient(w: World, s: State, a: Action)
    requires w.Valid() && CutSoFar(w, s) && Enabled(w, s, a)
    requires a in {ClientWrite, ClientEof, ClientClose, ClientInterrupted, DaemonExit}
    ensures CutSoFar(w, Apply(w, s, a))
  {
  }

  lemma CutStays(w: World, s: State, a: Action)
    requires w.Valid() && InStep(w, s) && Enabled(w, s, a) && !(a == DaemonInterrupted && s.daemon.ReadData?)
    requires a != DaemonWriteLost
    ensures CutSoFar(w, Apply(w, s, a))
  {
    match a
    case ClientRead(n) => CutStaysRead(w, s, n);
    case DaemonRead(n) => CutStaysCommand(w, s, n);
    case DaemonWrite =>
      if s.daemon.SendHeader? || s.daemon.SendData? { WritesCurrent(Heard(w, s.cut), s); }
      CutStaysWrite(w, s);
    case DaemonEof =>
      SameMoves(w, s, a);
      EofIsAtCommand(Heard(w, s.cut), s);
      CutStaysEnds(w, s, a);
    case DaemonInterrupted => CutStaysEnds(w, s, a);
    case _ => CutStaysClient(w, s, a);
  }

  lemma CutMarks(w: World, s: State, k: nat)
    requires w.Valid() && CutSoFar(w, s) && DataAwaited(Heard(w, s.cut), s, k)
    ensures CutSoFar(w, Apply(w, s, DaemonInterrupted))
  {
    assert |w.calls[k].send| > w.client.paramSize;
  }

  lemma DataCutStep(w: World, s: State)
    requires w.Valid() && InStep(w, s) && s.daemon.ReadData?
    ensures InStep(w, Apply(w, s, DaemonInterrupted))
  {
    var h, k := Heard(w, s.cut), |Results(s.client)|;
    WaitsForData(h, s);
    CutMarks(w, s, k);
    HeardMore(w, s.cut, k);
    DataCut(h, Heard(w, s.cut + {k}), s, k);
  }

  /** Every system call of either side that is not a lost write keeps the two streams in step. */
  lemma Step(w: World, s: State, a: Action)
    requires w.Valid() && InStep(w, s) && Enabled(w, s, a) && a != DaemonWriteLost
    ensures InStep(w, Apply(w, s, a))
  {
    if a == DaemonInterrupted && s.daemon.ReadData? {
      DataCutStep(w, s);
    } else {
      SameMoves(w, s, a);
      SyncStep(Heard(w, s.cut), s, a);
      CutStays(w, s, a);
      HistoryStays(w, s, a);
      StaysInStep(w, s, Apply(w, s, a));
    }
  }

  lemma HistoryStays(w: World, s: State, a: Action)
    requires w.Valid() && Enabled(w, s, a) && a != DaemonWriteLost
    requires !(a == DaemonInterrupted && s.daemon.ReadData?)
    ensures Apply(w, s, a).cut == s.cut && Apply(w, s, a).lost == s.lost
  {
  }

  lemma StaysInStep(w: World, s: State, t: State)
    requires w.Valid() && t.cut == s.cut && t.lost == None && CutSoFar(w, t) && Sync(Heard(w, s.cut), t)
    ensures InStep(w, t)
  {
  }

  // ----- progress

  /** The most data that the reply to call `k` can carry, whether or not its request is cut. */
  ghost function DataLeft(w: World, k: nat): nat
    requires k < |w.calls|
  {
    Max(|ReplyTo(w, k).data|, |ReplyTo(Heard(w, {k}), k).data|)
  }

  lemma DataBounded(w: World, cut: set<nat>, k: nat)
    requires k < |w.calls|
    ensures |ReplyTo(Heard(w, cut), k).data| <= DataLeft(w, k)
  {
  }

  /** System calls that the client may still need for the calls from `k` on. */
  ghost function CallsLeft(w: World, k: nat): nat
    decreases |w.calls| - k
  {
    if k >= |w.calls| then 0
    else 1 + w.client.ResponseSize() + DataLeft(w, k) + CallsLeft(w, k + 1)
  }

  /** System calls that the daemon may still need for `n` commands. */
  ghost function CommandsLeft(w: World, n: nat): nat {
    if n == 0 then 0 else w.server.CommandSize() + 3 + CommandsLeft(w, n - 1)
  }

  ghost function ClientWork(w: World, c: Client): int {
    var k, text := |Results(c)|, |BannerText(w.client)|;
    match c
    case WaitSize(got) => 8 - |got| + text + CallsLeft(w, 0) + 1
    case WaitText(got) => text - |got| + CallsLeft(w, 0) + 1
    case Idle(_) => CallsLeft(w, k) + 1
    case WaitHeader(_, got) =>
      if k < |w.calls| then w.client.ResponseSize() - |got| + DataLeft(w, k) + CallsLeft(w, k + 1) + 1 else 0
    case WaitData(_, _, got) =>
      if k < |w.calls| then DataLeft(w, k) - |got| + CallsLeft(w, k + 1) + 1 else 0
    case _ => 0
  }

  ghost function DaemonWork(w: World, d: Daemon): int {
    var n := |w.calls|;
    match d
    case SendSize => CommandsLeft(w, n) + 4
    case SendText => CommandsLeft(w, n) + 3
    case ReadCommand(k, got) => if k <= n then CommandsLeft(w, n - k) - |got| + 2 else 0
    case ReadData(k, _, _) => if k < n then CommandsLeft(w, n - k - 1) + 5 else 0
    case SendHeader(k, _, _) => if k < n then CommandsLeft(w, n - k - 1) + 4 else 0
    case SendData(k, _, _) => if k < n then CommandsLeft(w, n - k - 1) + 3 else 0
    case Leaving => 1
    case Gone => 0
  }

  /** A bound on the system calls still to come, interrupted reads of the client aside. */
  ghost function Work(w: World, s: State): int {
    ClientWork(w, s.client) + DaemonWork(w, s.daemon)
  }

  lemma {:induction false} HeardWork(w: World, cut: set<nat>, n: nat)
    ensures CommandsLeft(Heard(w, cut), n) == CommandsLeft(w, n)
  {
    if n > 0 { HeardWork(w, cut, n - 1); }
  }

  lemma HeardDaemonWork(w: World, cut: set<nat>, d: Daemon)
    ensures DaemonWork(Heard(w, cut), d) == DaemonWork(w, d)
  {
    forall n: nat ensures CommandsLeft(Heard(w, cut), n) == CommandsLeft(w, n) { HeardWork(w, cut, n); }
  }

  lemma SyncWork(w: World, s: State)
    requires w.Valid() && Sync(w, s)
    ensures DaemonWork(w, s.daemon) >= 0
    ensures s.client.WaitSize? || s.client.WaitText? || s.client.WaitHeader? ==> |Got(s.client)| < Wanted(w, s.client)
    ensures s.client.WaitData? ==>
              |s.client.results| < |w.calls| && |s.client.got| <= |ReplyTo(w, |s.client.results|).data|
  {
  }

  lemma WorkIsNatural(w: World, s: State)
    requires w.Valid() && InStep(w, s)
    ensures ClientWork(w, s.client) >= 0 && DaemonWork(w, s.daemon) >= 0
  {
    SyncWork(Heard(w, s.cut), s);
    HeardDaemonWork(w, s.cut, s.daemon);
    if s.client.WaitData? { DataBounded(w, s.cut, |s.client.results|); }
  }

  lemma GreetingReadWorks(w: World, s: State, n: nat)
    requires w.Valid() && Enabled(w, s, ClientRead(n)) && (s.client.WaitSize? || s.client.WaitText?)
    ensures ClientWork(w, Apply(w, s, ClientRead(n)).client) < ClientWork(w, s.client)
  {
  }

  lemma HeaderDoneWorks(w: World, c: Client, k: nat, done: seq<Result>)
    requires c.WaitHeader? && k == |c.results| < |w.calls| && |c.got| < w.client.ResponseSize()
    requires |done| == k + 1
    ensures ClientWork(w, Idle(done)) < ClientWork(w, c)
  {
  }

  lemma DataAheadWorks(w: World, c: Client, header: seq<byte>)
    requires c.WaitHeader? && |c.results| < |w.calls| && |c.got| < w.client.ResponseSize()
    ensures ClientWork(w, WaitData(c.results, header, [])) < ClientWork(w, c)
  {
  }

  lemma HeaderReadWorks(w: World, h: World, s: State, n: nat)
    requires h == Heard(w, s.cut) && h.SameBanner() && s.client.WaitHeader? && |s.client.results| < |w.calls|
    requires 0 < n <= |s.toClient| && |s.client.got| + n <= w.client.ResponseSize()
    requires |s.client.got| + n == w.client.ResponseSize() ==> HeaderAtHand(h, s, n)
    ensures ClientWork(w, ClientTake(h, s.client, s.toClient[..n])) < ClientWork(w, s.client)
  {
    if |s.client.got| + n == w.client.ResponseSize() {
      var k := |s.client.results|;
      HeaderTaken(h, s.client, s.toClient[..n], k);
      HeaderDoneWorks(w, s.client, k, Directs(h, k + 1));
      DataAheadWorks(w, s.client, EncodeHeader(h.server, ReplyTo(h, k)));
    }
  }

  lemma DataReadWorks(w: World, h: World, c: Client, chunk: seq<byte>)
    requires c.WaitData? && |c.results| < |w.calls| && |c.header| >= HEAD && |chunk| > 0
    requires |c.got| + |chunk| <= Wanted(h, c) <= DataLeft(w, |c.results|)
    ensures ClientWork(w, ClientTake(h, c, chunk)) < ClientWork(w, c)
  {
  }

  lemma CommandWorks(w: World, k: nat, got: seq<byte>)
    requires w.SameBanner() && k < |w.calls| && !QuitBefore(w, k) && |got| < w.server.CommandSize()
    ensures DaemonWork(w, AfterCommand(w, k, CommandOf(w, k))) < DaemonWork(w, ReadCommand(k, got))
  {
    CommandArrives(w, k);
  }

  lemma TakesCommand(w: World, s: State, n: nat)
    requires w.SameBanner() && n <= |s.toServer| && CommandAtHand(w, s, n)
    requires |s.daemon.got| + n == w.server.CommandSize()
    ensures DaemonTake(w, s.daemon, s.toServer[..n]) == AfterCommand(w, s.daemon.served, CommandOf(w, s.daemon.served))
  {
    CommandArrives(w, s.daemon.served);
  }

  lemma DaemonReadWorks(w: World, s: State, n: nat)
    requires w.SameBanner() && s.daemon.ReadCommand? && 0 < n <= |s.toServer| && s.daemon.served < |w.calls|
    requires |s.daemon.got| + n <= w.server.CommandSize()
    requires |s.daemon.got| + n == w.server.CommandSize() ==> CommandAtHand(w, s, n)
    ensures DaemonWork(w, DaemonTake(w, s.daemon, s.toServer[..n])) < DaemonWork(w, s.daemon)
  {
    if |s.daemon.got| + n == w.server.CommandSize() {
      TakesCommand(w, s, n);
      CommandWorks(w, s.daemon.served, s.daemon.got);
    }
  }

  lemma ReadsInTurn(w: World, s: State, n: nat)
    requires w.Valid() && Sync(w, s) && Enabled(w, s, DaemonRead(n))
    ensures w.SameBanner() && s.daemon.ReadCommand? && s.daemon.served < |w.calls|
  {
  }

  lemma AnswersInTurn(w: World, s: State)
    requires w.Valid() && Sync(w, s) && (s.daemon.SendHeader? || s.daemon.SendData?)
    ensures s.daemon.served < |w.calls|
  {
    WritesCurrent(w, s);
    if s.daemon.SendHeader? { HeaderAwaited(w, s); } else { SendsCurrent(w, s); }
  }

  lemma DaemonWriteWorks(w: World, s: State)
    requires w.Valid() && Enabled(w, s, DaemonWrite)
    requires s.daemon.SendHeader? || s.daemon.SendData? ==> s.daemon.served < |w.calls|
    ensures DaemonWork(w, Apply(w, s, DaemonWrite).daemon) < DaemonWork(w, s.daemon)
  {
  }

  lemma DaemonReadEndWorks(w: World, s: State)
    requires w.Valid() && Sync(w, s) && s.daemon.ReadCommand?
    ensures DaemonWork(w, Leaving) < DaemonWork(w, s.daemon)
  {
  }

  lemma DataEndWorks(w: World, k: nat, c: Command, got: seq<byte>)
    requires k < |w.calls|
    ensures DaemonWork(w, AfterData(w, k, c, got)) < DaemonWork(w, ReadData(k, c, got))
  {
  }

  lemma ReadEndWorks(w: World, s: State)
    requires w.Valid() && Sync(w, s) && s.daemon.ReadData?
    ensures DaemonWork(w, AfterData(w, s.daemon.served, s.daemon.command, s.daemon.got)) < DaemonWork(w, s.daemon)
  {
    WaitsForData(w, s);
    DataEndWorks(w, s.daemon.served, s.daemon.command, s.daemon.got);
  }

  lemma DaemonReadMoveWorks(w: World, s: State, n: nat)
    requires w.Valid() && Sync(w, s) && Enabled(w, s, DaemonRead(n))
    ensures DaemonWork(w, Apply(w, s, DaemonRead(n)).daemon) < DaemonWork(w, s.daemon)
  {
    ReadsInTurn(w, s, n);
    if |s.daemon.got| + n == w.server.CommandSize() { CommandComplete(w, s, n); }
    DaemonReadWorks(w, s, n);
  }

  lemma IdleWorks(w: World, results: seq<Result>)
    requires |results| < |w.calls|
    ensures ClientWork(w, WaitHeader(results, [])) < ClientWork(w, Idle(results))
    ensures ClientWork(w, Failed(results)) < ClientWork(w, Idle(results))
  {
  }

  lemma ClientEndWorks(w: World, s: State, a: Action)
    requires w.Valid() && InStep(w, s) && Enabled(w, s, a) && (a == ClientEof || a == ClientClose)
    ensures ClientWork(w, Apply(w, s, a).client) < ClientWork(w, s.client)
  {
    if a == ClientEof {
      SameMoves(w, s, a);
      EndMeansNoReply(Heard(w, s.cut), s);
      SyncWork(Heard(w, s.cut), s);
    }
  }

  lemma ClientReadWorks(w: World, s: State, n: nat)
    requires w.Valid() && InStep(w, s) && Enabled(w, s, ClientRead(n))
    ensures ClientWork(w, Apply(w, s, ClientRead(n)).client) < ClientWork(w, s.client)
  {
    var h := Heard(w, s.cut);
    SameMoves(w, s, ClientRead(n));
    match s.client
    case WaitHeader(_, got) =>
      if |got| + n == w.client.ResponseSize() { HeaderComplete(h, s, n); }
      AwaitsInTurn(h, s);
      HeaderReadWorks(w, h, s, n);
    case WaitData(results, _, _) =>
      TrailingWants(h, s);
      DataBounded(w, s.cut, |results|);
      DataReadWorks(w, h, s.client, s.toClient[..n]);
    case _ => GreetingReadWorks(w, s, n);
  }

  lemma ClientMoveWorks(w: World, s: State, a: Action)
    requires w.Valid() && InStep(w, s) && Enabled(w, s, a)
    requires a.ClientRead? || a in {ClientWrite, ClientEof, ClientClose}
    ensures ClientWork(w, Apply(w, s, a).client) < ClientWork(w, s.client) && Apply(w, s, a).daemon == s.daemon
  {
    match a
    case ClientRead(n) => ClientReadWorks(w, s, n);
    case ClientWrite => IdleWorks(w, s.client.results);
    case _ => ClientEndWorks(w, s, a);
  }

  lemma SendWorks(w: World, s: State)
    requires w.Valid() && Sync(w, s) && Enabled(w, s, DaemonWrite)
    ensures DaemonWork(w, Apply(w, s, DaemonWrite).daemon) < DaemonWork(w, s.daemon)
  {
    if s.daemon.SendHeader? || s.daemon.SendData? { AnswersInTurn(w, s); }
    DaemonWriteWorks(w, s);
  }

  lemma EndWorks(w: World, s: State, a: Action)
    requires w.Valid() && Sync(w, s) && Enabled(w, s, a) && (a == DaemonEof || a == DaemonInterrupted)
    ensures DaemonWork(w, Apply(w, s, a).daemon) < DaemonWork(w, s.daemon)
  {
    if s.daemon.ReadCommand? { DaemonReadEndWorks(w, s); } else { ReadEndWorks(w, s); }
  }

  predicate ByDaemon(a: Action) { a.DaemonRead? || a in {DaemonWrite, DaemonEof, DaemonInterrupted, DaemonExit} }

  lemma DaemonKeepsClient(w: World, s: State, a: Action)
    requires BannerFits(w.server) && Enabled(w, s, a) && ByDaemon(a)
    ensures Apply(w, s, a).client == s.client
    ensures a == DaemonExit ==> DaemonWork(w, Apply(w, s, a).daemon) < DaemonWork(w, s.daemon)
  {
  }

  lemma DaemonMoveWorks(w: World, s: State, a: Action)
    requires w.Valid() && Sync(w, s) && Enabled(w, s, a) && ByDaemon(a)
    ensures DaemonWork(w, Apply(w, s, a).daemon) < DaemonWork(w, s.daemon) && Apply(w, s, a).client == s.client
  {
    DaemonKeepsClient(w, s, a);
    match a
    case DaemonRead(n) => DaemonReadMoveWorks(w, s, n);
    case DaemonWrite => SendWorks(w, s);
    case DaemonExit =>
    case _ => EndWorks(w, s, a);
  }

  /** Every system call that is not an interrupted read of the client uses up some of the remaining
      work. */
  lemma WorkDecreases(w: World, s: State, a: Action)
    requires w.Valid() && InStep(w, s) && Enabled(w, s, a) && a != ClientInterrupted && a != DaemonWriteLost
    ensures Work(w, Apply(w, s, a)) < Work(w, s)
  {
    if a.ClientRead? || a in {ClientWrite, ClientEof, ClientClose} {
      ClientMoveWorks(w, s, a);
    } else {
      SameMoves(w, s, a);
      DaemonMoveWorks(Heard(w, s.cut), s, a);
      HeardDaemonWork(w, s.cut, s.daemon);
      HeardDaemonWork(w, s.cut, Apply(w, s, a).daemon);
    }
  }

  // ----- how sessions end

  /** The client found the daemon gone. */
  ghost predicate Deserted(w: World, s: State, k: nat)
    requires k < |w.calls|
  {
    s.client.Failed? && s.daemon.Gone? && (s.dropped == Some(k) || (!Good(w, k) && Unheard(w, s, k)))
  }

  /** Both sides wait for each other. */
  ghost predicate Hanging(w: World, s: State, k: nat)
    requires k < |w.calls|
  {
    && s.client.WaitHeader? && s.client.got == [] && s.toServer == [] && s.dropped == None
    && (s.daemon.ReadData? || s.daemon.ReadCommand?) && !QuitBefore(w, k) && Reaction(w, k, s.daemon) && !Good(w, k)
  }

  /** The furthest a session can get: all calls before the first unanswered one are done. */
  ghost predicate Completed(w: World, s: State) {
    var k := |Results(s.client)|;
    if !w.SameBanner() then
      s.client == Failed([]) && s.daemon.Gone? && s.toServer == [] && s.answered == 0
    else
      && AllGood(w, k) && Results(s.client) == Directs(w, k) && s.answered == k
      && (k < |w.calls| ==> s.toClient == [] && (Deserted(w, s, k) || Hanging(w, s, k)))
      && (k == |w.calls| ==> s.client.Closed? && s.daemon.Gone? && s.toServer == [] && s.toClient == []
                             && (s.dropped == None || s.dropped == Some(k)))
  }

  function Sensible(w: World, s: State): Action
    requires BannerFits(w.server)
  {
    var d := s.daemon;
    if d.SendSize? || d.SendText? || d.SendHeader? || d.SendData? then DaemonWrite
    else if d.Leaving? then DaemonExit
    else if Reading(s.client) && s.toClient != [] then ClientRead(1)
    else if (d.ReadCommand? || d.ReadData?) && s.toServer != [] then DaemonRead(1)
    else if Reading(s.client) then ClientEof
    else if Ended(s.client) then DaemonEof
    else if |Results(s.client)| < |w.calls| then ClientWrite
    else ClientClose
  }

  ghost predicate CanStep(w: World, s: State)
    requires w.Valid()
  {
    Enabled(w, s, Sensible(w, s)) && !Mishap(Sensible(w, s))
  }

  /** While a response is awaited and nothing is on its way, the daemon has a command to read, or
      has gone, or both sides wait for ever. */
  lemma QuietWait(w: World, s: State, k: nat)
    requires w.SameBanner() && k < |w.calls| && s.client.WaitHeader?
    requires Awaiting(w, s, k, s.client.got) && s.toClient == []
    requires !Sending(s.daemon) && !s.daemon.Leaving?
    ensures || (s.daemon.ReadCommand? && s.toServer != [] && |s.daemon.got| < w.server.CommandSize())
            || s.daemon.Gone?
            || (s.answered == k && Hanging(w, s, k))
  {
    ReplyArrives(w, k);
    CommandFits(w, k);
  }

  lemma CommandFits(w: World, k: nat)
    requires w.SameBanner() && k < |w.calls|
    ensures |EncodeCommand(CommandOf(w, k))| == w.server.CommandSize()
  {
    EqualBanners(w.client, w.server);
  }

  lemma CanSend(w: World, s: State)
    requires w.Valid() && (Sending(s.daemon) || s.daemon.Leaving?)
    ensures CanStep(w, s)
  {
  }

  lemma CanRead(w: World, s: State)
    requires w.Valid() && Reading(s.client) && s.toClient != [] && |Got(s.client)| < Wanted(w, s.client)
    ensures CanStep(w, s)
  {
  }

  lemma CanServe(w: World, s: State)
    requires w.Valid() && s.client.WaitHeader? && s.toClient == []
    requires s.daemon.Gone?
          || (s.daemon.ReadCommand? && s.toServer != [] && |s.daemon.got| < w.server.CommandSize())
    ensures CanStep(w, s)
  {
  }

  lemma HangingIsComplete(w: World, s: State, k: nat)
    requires w.SameBanner() && k == |Results(s.client)| < |w.calls|
    requires AllGood(w, k) && Results(s.client) == Directs(w, k)
    requires s.answered == k && s.toClient == [] && Hanging(w, s, k)
    ensures Completed(w, s)
  {
  }

  lemma AwaitingNotStuck(w: World, s: State)
    requires w.Valid() && Sync(w, s) && s.client.WaitHeader?
    ensures Completed(w, s) || CanStep(w, s)
  {
    var k := |s.client.results|;
    AwaitsInTurn(w, s);
    if Sending(s.daemon) || s.daemon.Leaving? {
      CanSend(w, s);
    } else if s.toClient != [] {
      CanRead(w, s);
    } else {
      QuietWait(w, s, k);
      if s.answered == k && Hanging(w, s, k) { HangingIsComplete(w, s, k); } else { CanServe(w, s); }
    }
  }

  lemma TrailingNotStuck(w: World, s: State)
    requires w.Valid() && s.client.WaitData? && |s.client.results| < |w.calls|
    requires Trailing(w, s, |s.client.results|, s.client.header, s.client.got)
    requires Wanted(w, s.client) == |ReplyTo(w, |s.client.results|).data|
    ensures CanStep(w, s)
  {
    if s.daemon.SendData? {
      CanSend(w, s);
    } else {
      assert |s.client.got + s.toClient| == |ReplyTo(w, |s.client.results|).data|;
      CanRead(w, s);
    }
  }

  lemma GreetingNotStuck(w: World, s: State)
    requires w.Valid() && Sync(w, s) && (s.client.WaitSize? || s.client.WaitText?)
    ensures CanStep(w, s)
  {
  }

  lemma EndNotStuck(w: World, s: State)
    requires w.Valid() && Sync(w, s) && !Reading(s.client)
    ensures Completed(w, s) || CanStep(w, s)
  {
  }

  lemma NotStuck(w: World, s: State)
    requires w.Valid() && Sync(w, s)
    ensures Completed(w, s) || CanStep(w, s)
  {
    match s.client
    case WaitHeader(_, _) => AwaitingNotStuck(w, s);
    case WaitData(_, _, _) =>
      TrailingWants(w, s);
      TrailingNotStuck(w, s);
    case WaitSize(_) => GreetingNotStuck(w, s);
    case WaitText(_) => GreetingNotStuck(w, s);
    case _ => EndNotStuck(w, s);
  }

  /** A completed session is at rest: only signals can still do something. */
  lemma CompletedIsTerminal(w: World, s: State)
    requires w.Valid() && Sync(w, s) && Completed(w, s)
    ensures Terminal(w, s)
  {
    forall a: Action | Enabled(w, s, a) ensures Mishap(a) { }
  }
}
