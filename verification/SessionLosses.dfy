/** What a session keeps after a write of the daemon has been lost.  The daemon only warns and goes on,
    so the client may take later bytes for something that they are not; but the calls before the lost
    write stay as they are, and the one whose reply was hit never returns its direct result. */
module SessionLosses {
  import opened Bytes
  import opened Decimal
  import opened Wire
  import opened Service
  import opened Session
  import opened SessionProofs

  // ----- the lost banner

  lemma {:induction false} TopByte(s: seq<byte>)
    requires s != []
    ensures Get(s) >= (s[|s| - 1] as int) * Pow256(|s| - 1)
    decreases |s|
  {
    if |s| > 1 {
      TopByte(s[1..]);
      assert s[1..][|s| - 2] == s[|s| - 1];
    }
  }

  const LEAD: seq<byte> := "Libgtop "

  lemma LeadStays(b: Build)
    ensures LEAD <= BannerText(b)
  {
    assert LEAD <= SizesTo(b, 0);
    assert LEAD <= SizesTo(b, 1);
    assert LEAD <= SizesTo(b, 2);
    assert LEAD <= SizesTo(b, 3);
    assert LEAD <= SizesTo(b, 4);
  }

  /** The text of a banner is never taken for the length of one. */
  lemma TextIsNoSize(a: Build, b: Build)
    requires BannerFits(a)
    ensures |BannerText(b)| >= 8 && Get(BannerText(b)[..8]) != |BannerText(a)|
  {
    LeadStays(b);
    var s := BannerText(b)[..8];
    assert s == LEAD && s[7] == ' ';
    TopByte(s);
    assert Pow256(7) == 256 * Pow256(6);
    assert Get(s) > BUFSIZ;
  }

  /** Part of the banner is missing, and the client does not get past it. */
  ghost predicate Ungreeted(w: World, s: State)
    requires w.Valid()
  {
    var c, d, size, text := s.client, s.daemon, BannerSize(w.server), BannerText(w.server);
    && s.toServer == [] && s.cut == {}
    && (d.SendText? || d == ReadCommand(0, []) || Off(d))
    && match c
       case WaitSize(got) =>
         && |got| < 8
         && if d.SendText? then got + s.toClient == []
            else got + s.toClient == [] || got + s.toClient == text || got + s.toClient == size
       case WaitText(got) => got == [] && s.toClient == [] && !d.SendText?
       case Failed(results) => results == []
       case _ => false
  }

  lemma UngreetedRead(w: World, s: State, n: nat)
    requires w.Valid() && Ungreeted(w, s) && Enabled(w, s, ClientRead(n))
    ensures Ungreeted(w, Apply(w, s, ClientRead(n)))
  {
    var got := s.client.got;
    var got' := got + s.toClient[..n];
    Split(got, s.toClient, n);
    var text := BannerText(w.server);
    TextIsNoSize(w.client, w.server);
    if |got'| == 8 {
      if got + s.toClient == text {
        assert got' == text[..8];
      } else {
        Prefix(got', s.toClient[n..], BannerSize(w.server), []);
      }
    }
  }

  lemma UngreetedStep(w: World, s: State, a: Action)
    requires w.Valid() && Ungreeted(w, s) && Enabled(w, s, a)
    ensures Ungreeted(w, Apply(w, s, a))
  {
    match a
    case ClientRead(n) => UngreetedRead(w, s, n);
    case _ =>
  }

  // ----- the lost reply

  /** All bytes of the current call's response that the client has read. */
  ghost function ReadSoFar(c: Client): seq<byte>
    requires c.WaitHeader? || c.WaitData?
  {
    match c
    case WaitHeader(_, got) => got
    case WaitData(_, header, got) => header + got
  }

  /** The client is in the middle of a response. */
  ghost predicate MidResponse(w: World, c: Client) {
    match c
    case WaitHeader(_, got) => |got| < w.client.ResponseSize()
    case WaitData(_, header, got) => |header| == w.client.ResponseSize() && |got| < Word(header, 2)
    case _ => false
  }

  /** Part of the reply to call `k` is missing, and the client waits for it or has given up.  What it
      can still get is nothing, or the data without the record, or the record without the data. */
  ghost predicate Unanswered(w: World, s: State, k: nat)
    requires k < |w.calls|
  {
    var c, d, r := s.client, s.daemon, ReplyTo(w, k);
    && s.toServer == []
    && (Off(d) || d == ReadCommand(k + 1, []) || d == SendData(k, r, w.calls[k].command == QUIT))
    && (c.Failed?
        || (MidResponse(w, c)
            && var all := ReadSoFar(c) + s.toClient;
            || all == []
            || (!d.SendData? && all == r.data)
            || (!d.SendData? && all == EncodeHeader(w.server, r) && r.data != [])))
  }

  /** The daemon has gone on to later commands. */
  ghost predicate Beyond(d: Daemon, k: nat) {
    match d
    case ReadCommand(served, _) => served > k
    case ReadData(served, _, _) => served > k
    case SendHeader(served, _, _) => served > k
    case SendData(served, _, _) => served > k
    case SendSize => false
    case SendText => false
    case _ => true
  }

  /** The first lost write belongs to the reply to call `k`, and `w` is the world as heard. */
  ghost predicate LostAt(w: World, s: State, k: nat) {
    var rs := Results(s.client);
    && k < |w.calls| && w.SameBanner() && AllGood(w, k + 1)
    && k <= |rs| && rs[..k] == Directs(w, k)
    && if |rs| == k then Unanswered(w, s, k) else rs[k] != Direct(w, k) && Beyond(s.daemon, k)
  }

  ghost predicate CutLong(w: World, s: State, k: nat) {
    forall j :: j in s.cut && j <= k ==> j < |w.calls| && |w.calls[j].send| > w.client.paramSize
  }

  ghost predicate Astray(w: World, s: State)
    requires w.Valid()
  {
    match s.lost
    case None => false
    case Some(InBanner) => Ungreeted(w, s)
    case Some(InReply(k)) => CutLong(w, s, k) && LostAt(Heard(w, s.cut), s, k)
  }

  // ----- losing a write

  /** The state after the first lost write. */
  function Losing(s: State): State
    requires Sending(s.daemon)
  {
    s.(daemon := AfterWrite(s.daemon), lost := Some(LossOf(s.daemon)))
  }

  lemma HeaderLost(w: World, s: State)
    requires w.Valid() && Sync(w, s) && s.daemon.SendHeader?
    ensures LostAt(w, Losing(s), s.daemon.served)
    ensures s.daemon.served == |Results(s.client)|
  {
    var k := |Results(s.client)|;
    HeaderInTurn(w, s);
  }

  lemma RecordWithoutData(w: World, s: State, k: nat)
    requires w.SameBanner() && k < |w.calls| && s.client.WaitHeader? && s.daemon.SendData?
    requires Awaiting(w, s, k, s.client.got)
    ensures Unanswered(w, Losing(s), k)
  {
  }

  lemma DataNeverComes(w: World, s: State, k: nat)
    requires w.SameBanner() && k < |w.calls| && s.client.WaitData? && s.daemon.SendData?
    requires Trailing(w, s, k, s.client.header, s.client.got)
    ensures Unanswered(w, Losing(s), k)
  {
    var header := EncodeHeader(w.server, ReplyTo(w, k));
    ReplyArrives(w, k);
    assert header + [] == header;
  }

  /** The record of reply `k` is out and its data come next. */
  ghost predicate DataInTurn(w: World, s: State, k: nat) {
    && s.daemon.SendData? && s.daemon.served == |Results(s.client)| == k < |w.calls|
    && w.SameBanner() && AllGood(w, k) && Results(s.client) == Directs(w, k)
    && match s.client
       case WaitHeader(_, got) => Awaiting(w, s, k, got)
       case WaitData(_, header, got) => Trailing(w, s, k, header, got)
       case _ => false
  }

  lemma DataInTurnNow(w: World, s: State)
    requires w.Valid() && Sync(w, s) && s.daemon.SendData?
    ensures DataInTurn(w, s, s.daemon.served)
  {
    SendsCurrent(w, s);
    WritesCurrent(w, s);
  }

  lemma DataLostAt(w: World, s: State, k: nat)
    requires DataInTurn(w, s, k)
    ensures LostAt(w, Losing(s), k)
  {
    if s.client.WaitHeader? { RecordWithoutData(w, s, k); } else { DataNeverComes(w, s, k); }
    OneMoreGood(w, k);
    LostNow(w, Losing(s), k);
  }

  lemma OneMoreGood(w: World, k: nat)
    requires k < |w.calls| && AllGood(w, k) && Good(w, k)
    ensures AllGood(w, k + 1)
  {
  }

  lemma LostNow(w: World, t: State, k: nat)
    requires k < |w.calls| && w.SameBanner() && AllGood(w, k + 1)
    requires Results(t.client) == Directs(w, k) && Unanswered(w, t, k)
    ensures LostAt(w, t, k)
  {
  }

  lemma DataLost(w: World, s: State)
    requires w.Valid() && Sync(w, s) && s.daemon.SendData?
    ensures LostAt(w, Losing(s), s.daemon.served)
    ensures s.daemon.served == |Results(s.client)|
  {
    DataInTurnNow(w, s);
    DataLostAt(w, s, s.daemon.served);
  }

  lemma BannerLost(w: World, s: State)
    requires w.Valid() && Sync(w, s) && (s.daemon.SendSize? || s.daemon.SendText?) && s.cut == {}
    ensures Ungreeted(w, Losing(s))
  {
    if s.client.WaitSize? || s.client.WaitText? {
      GreetingLost(w, s);
    }
  }

  lemma GreetingLost(w: World, s: State)
    requires w.Valid() && (s.client.WaitSize? || s.client.WaitText?) && Greeting(w, s)
    requires (s.daemon.SendSize? || s.daemon.SendText?) && s.cut == {}
    ensures Ungreeted(w, Losing(s))
  {
  }

  lemma NoResultsYet(w: World, s: State)
    requires w.Valid() && Sync(w, s) && (s.daemon.SendSize? || s.daemon.SendText?)
    ensures Results(s.client) == []
  {
  }

  lemma NoCutsYet(w: World, s: State)
    requires CutSoFar(w, s) && (s.daemon.SendSize? || s.daemon.SendText?) && Results(s.client) == []
    ensures s.cut == {}
  {
  }

  lemma FirstReplyLoss(w: World, s: State)
    requires w.Valid() && InStep(w, s) && (s.daemon.SendHeader? || s.daemon.SendData?)
    ensures Astray(w, Losing(s))
  {
    var h := Heard(w, s.cut);
    if s.daemon.SendHeader? { HeaderLost(h, s); } else { DataLost(h, s); }
    assert CutLong(w, Losing(s), s.daemon.served);
  }

  lemma FirstLoss(w: World, s: State)
    requires w.Valid() && InStep(w, s) && Sending(s.daemon)
    ensures Astray(w, Losing(s))
  {
    if s.daemon.SendHeader? || s.daemon.SendData? {
      FirstReplyLoss(w, s);
    } else {
      NoResultsYet(Heard(w, s.cut), s);
      NoCutsYet(w, s);
      HeardAll(w);
      BannerLost(w, s);
    }
  }

  // ----- going on without it

  lemma DirectData(w: World, k: nat)
    requires k < |w.calls| && ReplyTo(w, k).data != []
    ensures Direct(w, k).data == Some(ReplyTo(w, k).data)
  {
  }

  /** The client has read a whole response out of what is left of the reply: it is not the direct one. */
  lemma WrongResult(w: World, k: nat, header: seq<byte>, data: Data, rest: seq<byte>)
    requires w.SameBanner() && k < |w.calls| && |header| == w.client.ResponseSize() && |data| == Word(header, 2)
    requires header + data + rest == ReplyTo(w, k).data
          || (header + data + rest == EncodeHeader(w.server, ReplyTo(w, k)) && ReplyTo(w, k).data != [])
    ensures Received(header, data, w.calls[k].recv) != Direct(w, k)
  {
    var r := ReplyTo(w, k);
    ReplyArrives(w, k);
    if header + data + rest == r.data {
      assert |data| < |r.data|;
      DirectData(w, k);
    }
  }

  /** What the client is after reading a piece of what is left: still waiting, or done with a result
      that is not the direct one. */
  ghost predicate MisledOrWaiting(w: World, before: Client, after: Client, all: seq<byte>, k: nat)
    requires k < |w.calls|
  {
    || (Results(after) == Results(before) && MidResponse(w, after) && ReadSoFar(after) == all)
    || (|Results(after)| == k + 1 && Results(after)[..k] == Results(before) && Results(after)[k] != Direct(w, k))
  }

  ghost predicate LeftOf(w: World, k: nat, bytes: seq<byte>)
    requires k < |w.calls|
  {
    bytes == ReplyTo(w, k).data || (bytes == EncodeHeader(w.server, ReplyTo(w, k)) && ReplyTo(w, k).data != [])
  }

  lemma RecordRead(w: World, c: Client, chunk: seq<byte>, rest: seq<byte>, k: nat)
    requires w.SameBanner() && k < |w.calls| && c.WaitHeader? && |c.results| == k && MidResponse(w, c)
    requires |c.got| + |chunk| <= w.client.ResponseSize() && LeftOf(w, k, c.got + chunk + rest)
    ensures MisledOrWaiting(w, c, ClientTake(w, c, chunk), c.got + chunk, k)
  {
    var got := c.got + chunk;
    if |got| == w.client.ResponseSize() {
      assert got + [] == got;
      if Word(got, 2) == 0 { WrongResult(w, k, got, [], rest); }
    }
  }

  lemma DataPartRead(w: World, c: Client, chunk: seq<byte>, rest: seq<byte>, k: nat)
    requires w.SameBanner() && k < |w.calls| && c.WaitData? && |c.results| == k && MidResponse(w, c)
    requires |c.got| + |chunk| <= Word(c.header, 2) && LeftOf(w, k, c.header + (c.got + chunk) + rest)
    ensures |c.got| + |chunk| <= Wanted(w, c)
    ensures MisledOrWaiting(w, c, ClientTake(w, c, chunk), c.header + (c.got + chunk), k)
  {
    if |c.got + chunk| == Word(c.header, 2) { WrongResult(w, k, c.header, c.got + chunk, rest); }
  }

  lemma UnansweredRead(w: World, s: State, k: nat, n: nat)
    requires w.SameBanner() && w.Valid() && k < |w.calls| && |Results(s.client)| == k
    requires Unanswered(w, s, k) && Enabled(w, s, ClientRead(n))
    ensures var c := ClientTake(w, s.client, s.toClient[..n]);
            || (Results(c) == Results(s.client) && Unanswered(w, s.(client := c, toClient := s.toClient[n..]), k))
            || (|Results(c)| == k + 1 && Results(c)[..k] == Results(s.client) && Results(c)[k] != Direct(w, k)
                && Beyond(s.daemon, k))
  {
    var c, chunk, rest := s.client, s.toClient[..n], s.toClient[n..];
    assert chunk + rest == s.toClient;
    match c
    case WaitHeader(_, got) =>
      assert got + s.toClient == got + chunk + rest;
      RecordRead(w, c, chunk, rest, k);
    case WaitData(_, header, got) =>
      assert header + got + s.toClient == header + (got + chunk) + rest;
      DataPartRead(w, c, chunk, rest, k);
  }

  lemma UnansweredStep(w: World, s: State, k: nat, a: Action)
    requires w.SameBanner() && w.Valid() && k < |w.calls| && |Results(s.client)| == k
    requires Unanswered(w, s, k) && Enabled(w, s, a) && !a.ClientRead?
    ensures Results(Apply(w, s, a).client) == Results(s.client) && Unanswered(w, Apply(w, s, a), k)
    ensures Apply(w, s, a).cut == s.cut
  {
  }

  lemma ResultsGrow(w: World, s: State, a: Action)
    requires w.Valid() && Enabled(w, s, a)
    ensures Results(s.client) <= Results(Apply(w, s, a).client)
  {
  }

  lemma StaysBeyond(w: World, s: State, k: nat, a: Action)
    requires w.Valid() && Enabled(w, s, a) && Beyond(s.daemon, k)
    ensures Beyond(Apply(w, s, a).daemon, k)
  {
  }

  lemma CutsBeyond(w: World, s: State, k: nat, a: Action)
    requires w.Valid() && Enabled(w, s, a) && Beyond(s.daemon, k)
    ensures forall j :: j in Apply(w, s, a).cut && j <= k ==> j in s.cut
    ensures s.cut <= Apply(w, s, a).cut
  {
  }

  /** Later cuts do not change what has been heard of the first calls. */
  lemma HeardBefore(w: World, a: set<nat>, b: set<nat>, n: nat)
    requires n <= |w.calls| && forall j :: 0 <= j < n ==> (j in a <==> j in b)
    ensures Directs(Heard(w, a), n) == Directs(Heard(w, b), n)
    ensures AllGood(Heard(w, a), n) == AllGood(Heard(w, b), n)
  {
    var v, u := Heard(w, a), Heard(w, b);
    assert forall i :: 0 <= i < |w.calls| ==> v.calls[i].command == u.calls[i].command;
    forall j: nat | j < n ensures QuitBefore(v, j) == QuitBefore(u, j) { SameCommands(u, v, j); }
    assert forall j :: 0 <= j < n ==> v.calls[j] == u.calls[j];
    assert forall j :: 0 <= j < n ==> Good(v, j) == Good(u, j) && Direct(v, j) == Direct(u, j);
  }

  lemma LostReplyStep(w: World, s: State, k: nat, a: Action)
    requires w.Valid() && s.lost == Some(InReply(k)) && Astray(w, s) && Enabled(w, s, a)
    ensures Astray(w, Apply(w, s, a))
  {
    var h, t := Heard(w, s.cut), Apply(w, s, a);
    if |Results(s.client)| == k {
      AnsweredNever(w, s, k, a);
    } else {
      ResultsGrow(w, s, a);
      StaysBeyond(w, s, k, a);
      CutsBeyond(w, s, k, a);
      HeardBefore(w, s.cut, t.cut, k + 1);
      HeardBefore(w, s.cut, t.cut, k);
      assert Direct(h, k) == Directs(h, k + 1)[k];
      assert Direct(Heard(w, t.cut), k) == Directs(Heard(w, t.cut), k + 1)[k];
    }
  }

  lemma AnsweredNever(w: World, s: State, k: nat, a: Action)
    requires w.Valid() && s.lost == Some(InReply(k)) && Astray(w, s) && Enabled(w, s, a) && |Results(s.client)| == k
    ensures Astray(w, Apply(w, s, a))
  {
    var h, t := Heard(w, s.cut), Apply(w, s, a);
    HeardMoves(w, s, k, a);
    if a.ClientRead? {
      UnansweredRead(h, s, k, a.n);
      assert Results(t.client)[..k] == Results(s.client)[..k];
    } else {
      UnansweredStep(h, s, k, a);
    }
  }

  /** In this state no command is sent. */
  lemma HeardMoves(w: World, s: State, k: nat, a: Action)
    requires w.Valid() && k < |w.calls| && Unanswered(Heard(w, s.cut), s, k) && Enabled(w, s, a)
    ensures Enabled(Heard(w, s.cut), s, a) && Apply(Heard(w, s.cut), s, a) == Apply(w, s, a)
  {
  }

  lemma AstrayStep(w: World, s: State, a: Action)
    requires w.Valid() && Astray(w, s) && Enabled(w, s, a)
    ensures Astray(w, Apply(w, s, a))
  {
    match s.lost
    case Some(InBanner) => UngreetedStep(w, s, a);
    case Some(InReply(k)) => LostReplyStep(w, s, k, a);
  }

  // ----- every step

  ghost predicate Inv(w: World, s: State)
    requires w.Valid()
  {
    InStep(w, s) || Astray(w, s)
  }

  /** Every system call, every signal and every lost write keeps the invariant. */
  lemma EveryStep(w: World, s: State, a: Action)
    requires w.Valid() && Inv(w, s) && Enabled(w, s, a)
    ensures Inv(w, Apply(w, s, a))
  {
    if Astray(w, s) {
      AstrayStep(w, s, a);
    } else if a == DaemonWriteLost {
      FirstLoss(w, s);
      assert Apply(w, s, a) == Losing(s);
    } else {
      Step(w, s, a);
    }
  }
}
