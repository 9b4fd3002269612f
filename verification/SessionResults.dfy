/** What the invariant and the measure of a session come to: safety, progress, and the exact
    conditions under which every call returns. */
module SessionResults {
  import opened Bytes
  import opened Wire
  import opened Service
  import opened Session
  import opened SessionProofs
  import opened SessionLosses
  import opened SessionRest

  /** Number of actions in a run, interrupted reads of the client aside. */
  ghost function Effective(run: seq<Action>): nat {
    if run == [] then 0
    else (if run[0] == ClientInterrupted then 0 else 1) + Effective(run[1..])
  }

  lemma {:induction false} RunKeepsInv(w: World, s: State, run: seq<Action>)
    requires w.Valid() && Inv(w, s) && Runs(w, s, run)
    ensures Inv(w, After(w, s, run))
    ensures s.lost.Some? ==> After(w, s, run).lost == s.lost
    decreases |run|
  {
    if run != [] {
      EveryStep(w, s, run[0]);
      RunKeepsInv(w, Apply(w, s, run[0]), run[1..]);
    }
  }

  /** As long as no write is lost. */
  lemma {:induction false} RunWorks(w: World, s: State, run: seq<Action>)
    requires w.Valid() && InStep(w, s) && Runs(w, s, run) && After(w, s, run).lost == None
    ensures InStep(w, After(w, s, run)) && Effective(run) + Work(w, After(w, s, run)) <= Work(w, s)
    decreases |run|
  {
    if run != [] {
      var t := Apply(w, s, run[0]);
      EveryStep(w, s, run[0]);
      RunKeepsInv(w, t, run[1..]);
      assert t.lost == None;
      assert run[0] != DaemonWriteLost;
      if run[0] != ClientInterrupted {
        WorkDecreases(w, s, run[0]);
      }
      RunWorks(w, t, run[1..]);
    }
  }

  lemma InitialInv(w: World)
    requires w.Valid()
    ensures InStep(w, INITIAL)
  {
    HeardAll(w);
  }

  lemma SameAsHeard(w: World, cut: set<nat>, k: nat)
    requires AllGood(Heard(w, cut), k)
    ensures forall j :: 0 <= j < k && j !in cut ==> Good(w, j) && Directs(Heard(w, cut), k)[j] == Direct(w, j)
  {
    var h := Heard(w, cut);
    assert forall i :: 0 <= i < |w.calls| ==> h.calls[i].command == w.calls[i].command;
    forall j | 0 <= j < k && j !in cut ensures Good(w, j) && Directs(h, k)[j] == Direct(w, j) {
      assert Good(h, j) && h.calls[j] == w.calls[j];
      SameCommands(w, h, j);
    }
  }

  /** The results that no lost write can have touched. */
  function Intact(s: State): nat {
    match s.lost
    case None => |Results(s.client)|
    case Some(InBanner) => 0
    case Some(InReply(k)) => k
  }

  /** Safety.  At every moment of every session, whatever signals do to either side and whichever writes
      of the daemon are lost, the results up to the first lost write are exactly what direct calls would
      have returned, in order; only a request too long for the command record, whose data a signal kept
      the daemon from reading, is answered as an empty one.  The call whose reply is the first to be hit
      never returns its direct result.  Without a lost write both streams are empty between two calls and
      every command has had one response, and a client whose banner differs never sends a command. */
  lemma RemoteCallsAreDirectCalls(w: World, run: seq<Action>)
    requires w.Valid() && Runs(w, INITIAL, run)
    ensures var s := After(w, INITIAL, run);
            var h, n, rs := Heard(w, s.cut), Intact(s), Results(s.client);
            && n <= |rs| && AllGood(h, n) && rs[..n] == Directs(h, n)
            && (forall j :: j in s.cut && j < n ==> j < |w.calls| && |w.calls[j].send| > w.client.paramSize)
            && (forall j :: 0 <= j < n && j !in s.cut ==> Good(w, j) && rs[j] == Direct(w, j))
            && (s.lost.Some? && n < |rs| ==> n < |w.calls| && rs[n] != Direct(h, n))
            && (s.lost == Some(InBanner) ==> rs == [] && !s.client.Idle? && !s.client.Closed?)
            && (s.lost == None && s.client.Idle? ==> s.toServer == [] && s.toClient == [] && s.answered == n)
            && (|rs| > 0 || s.client.Idle? || s.client.WaitHeader? ==> w.SameBanner())
            && (!w.SameBanner() ==> s.toServer == [])
  {
    InitialInv(w);
    RunKeepsInv(w, INITIAL, run);
    var s := After(w, INITIAL, run);
    if s.lost == None {
      InSync(Heard(w, s.cut), s);
      assert Results(s.client)[..Intact(s)] == Results(s.client);
    } else {
      AstrayResults(w, s);
    }
    SameAsHeard(w, s.cut, Intact(s));
  }

  lemma AstrayResults(w: World, s: State)
    requires w.Valid() && Astray(w, s)
    ensures var h, n, rs := Heard(w, s.cut), Intact(s), Results(s.client);
            && n <= |rs| && AllGood(h, n) && rs[..n] == Directs(h, n)
            && (forall j :: j in s.cut && j < n ==> j < |w.calls| && |w.calls[j].send| > w.client.paramSize)
            && (n < |rs| ==> n < |w.calls| && rs[n] != Direct(h, n))
            && (s.lost == Some(InBanner) ==> rs == [] && !s.client.Idle? && !s.client.Closed?)
            && (|rs| > 0 || s.client.Idle? || s.client.WaitHeader? ==> w.SameBanner())
            && (!w.SameBanner() ==> s.toServer == [])
  {
    assert s.lost == Some(InBanner) ==> Directs(Heard(w, s.cut), 0) == [];
  }

  lemma InSync(w: World, s: State)
    requires w.Valid() && Sync(w, s)
    ensures var k := |Results(s.client)|;
            && AllGood(w, k) && Results(s.client) == Directs(w, k)
            && (s.client.Idle? ==> s.toServer == [] && s.toClient == [] && s.answered == k)
            && (k > 0 || s.client.Idle? || s.client.WaitHeader? ==> w.SameBanner())
            && (!w.SameBanner() ==> s.toServer == [])
  {
    assert Directs(w, 0) == [];
  }

  /** A run without mishaps of the daemon leaves no trace of any. */
  lemma {:induction false} Undisturbed(w: World, s: State, run: seq<Action>)
    requires w.Valid() && Runs(w, s, run) && DaemonInterrupted !in run && DaemonWriteLost !in run
    ensures var t := After(w, s, run); t.cut == s.cut && t.dropped == s.dropped && t.lost == s.lost
    decreases |run|
  {
    if run != [] {
      assert run[0] in run;
      assert forall a :: a in run[1..] ==> a in run;
      Undisturbed(w, Apply(w, s, run[0]), run[1..]);
    }
  }

  /** Progress.  As long as no write is lost a session makes no more than `Work` system calls other than
      interrupted reads of the client, and it is at rest exactly when it has completed every call before
      the first that goes unanswered. */
  lemma SessionsEnd(w: World, run: seq<Action>)
    requires w.Valid() && Runs(w, INITIAL, run)
    ensures var s := After(w, INITIAL, run);
            s.lost == None ==>
              Effective(run) <= Work(w, INITIAL) && (Terminal(w, s) <==> Completed(Heard(w, s.cut), s))
  {
    var s := After(w, INITIAL, run);
    InitialInv(w);
    if s.lost == None {
      RunWorks(w, INITIAL, run);
      WorkIsNatural(w, s);
      RestIsCompletion(w, s);
    }
  }

  lemma RestIsCompletion(w: World, s: State)
    requires w.Valid() && InStep(w, s)
    ensures Terminal(w, s) <==> Completed(Heard(w, s.cut), s)
  {
    var h := Heard(w, s.cut);
    forall a: Action ensures Enabled(h, s, a) == Enabled(w, s, a) { SameMoves(w, s, a); }
    if Completed(h, s) {
      CompletedIsTerminal(h, s);
    } else {
      NotStuck(h, s);
      assert Enabled(w, s, Sensible(h, s));
    }
  }

  /** A session at rest has done all its calls, and with the results of direct calls, exactly when the
      banners agree, every call was heard as one that can be answered, no signal ended the read of a
      command before the last call, and no write was lost. */
  lemma AllCallsReturnIff(w: World, run: seq<Action>)
    requires w.Valid() && Runs(w, INITIAL, run) && Terminal(w, After(w, INITIAL, run))
    ensures var s := After(w, INITIAL, run);
            s.client.Closed? && Results(s.client) == DirectsOf(Heard(w, s.cut)) <==>
              && w.SameBanner() && AllGood(Heard(w, s.cut), |w.calls|)
              && (s.dropped == None || s.dropped.value >= |w.calls|) && s.lost == None
  {
    var s := After(w, INITIAL, run);
    InitialInv(w);
    RunKeepsInv(w, INITIAL, run);
    SessionsEnd(w, run);
    RemoteCallsAreDirectCalls(w, run);
    if s.lost == None {
      ClosedIff(Heard(w, s.cut), s);
    } else {
      LostNeverReturns(w, s);
    }
  }

  /** The direct results of all calls. */
  ghost function DirectsOf(w: World): seq<Result> { Directs(w, |w.calls|) }

  lemma LostNeverReturns(w: World, s: State)
    requires w.Valid() && Astray(w, s)
    ensures !(s.client.Closed? && Results(s.client) == DirectsOf(Heard(w, s.cut)))
  {
    AstrayResults(w, s);
    if s.lost.value.InReply? {
      assert Intact(s) < |w.calls|;
    }
  }

  lemma ClosedIff(w: World, s: State)
    requires w.Valid() && Sync(w, s) && Completed(w, s)
    ensures s.client.Closed? <==>
              && w.SameBanner() && AllGood(w, |w.calls|) && (s.dropped == None || s.dropped.value >= |w.calls|)
    ensures s.client.Closed? ==> Results(s.client) == DirectsOf(w)
  {
  }

  /** Without mishaps of the daemon this depends on banners and calls alone. */
  lemma UndisturbedCallsReturnIff(w: World, run: seq<Action>)
    requires w.Valid() && Runs(w, INITIAL, run) && Terminal(w, After(w, INITIAL, run))
    requires DaemonInterrupted !in run && DaemonWriteLost !in run
    ensures var s := After(w, INITIAL, run);
            && (s.client.Closed? <==> w.SameBanner() && AllGood(w, |w.calls|))
            && AllGood(w, |Results(s.client)|) && Results(s.client) == Directs(w, |Results(s.client)|)
  {
    var s := After(w, INITIAL, run);
    Undisturbed(w, INITIAL, run);
    HeardAll(w);
    InitialInv(w);
    RunKeepsInv(w, INITIAL, run);
    SessionsEnd(w, run);
    ClosedIff(w, s);
    RemoteCallsAreDirectCalls(w, run);
    assert Results(s.client)[..Intact(s)] == Results(s.client);
  }

  /** A request that is too long for the command record hangs the session if the daemon is there
      to see it and nothing strikes it: the daemon waits for data that the client never writes. */
  lemma LongRequestHangs(w: World, run: seq<Action>)
    requires w.Valid() && Runs(w, INITIAL, run) && Terminal(w, After(w, INITIAL, run)) && w.SameBanner()
    ensures var s := After(w, INITIAL, run);
            var k := |Results(s.client)|;
            && k < |w.calls| && !QuitBefore(w, k) && w.client.paramSize < |w.calls[k].send| < BUFSIZ
            && k !in s.cut && s.dropped == None && s.lost == None
            ==> Hanging(Heard(w, s.cut), s, k) && s.daemon.ReadData?
  {
    var s := After(w, INITIAL, run);
    var k := |Results(s.client)|;
    SessionsEnd(w, run);
    if k < |w.calls| && !QuitBefore(w, k) && w.client.paramSize < |w.calls[k].send| < BUFSIZ
       && k !in s.cut && s.dropped == None && s.lost == None
    {
      LongHangs(w, s.cut, s, k);
    }
  }

  lemma LongHangs(w: World, cut: set<nat>, s: State, k: nat)
    requires w.SameBanner() && k == |Results(s.client)| < |w.calls| && Completed(Heard(w, cut), s)
    requires !QuitBefore(w, k) && w.client.paramSize < |w.calls[k].send| < BUFSIZ && k !in cut && s.dropped == None
    ensures Hanging(Heard(w, cut), s, k) && s.daemon.ReadData?
  {
    var h := Heard(w, cut);
    assert h.calls[k] == w.calls[k];
    assert forall i :: 0 <= i < |w.calls| ==> h.calls[i].command == w.calls[i].command;
  }

  const FSUSAGE: nat := 21

  /** One file system query, for a path of 17 bytes. */
  ghost predicate LongPath(w: World) {
    && w.Valid() && w.SameBanner() && w.client.paramSize == 16 && w.side == Parent
    && |w.calls| == 1 && w.calls[0].command == FSUSAGE && |w.calls[0].send| == 17
  }

  /** Such a session can hang ... */
  lemma FsusageHangs(w: World) returns (run: seq<Action>)
    requires LongPath(w)
    ensures Runs(w, INITIAL, run) && (forall a :: a in run ==> !Mishap(a)) && Terminal(w, After(w, INITIAL, run))
    ensures Hanging(w, After(w, INITIAL, run), 0) && After(w, INITIAL, run).daemon.ReadData?
    ensures After(w, INITIAL, run).cut == {} && After(w, INITIAL, run).lost == None
  {
    run := CanFinish(w, INITIAL);
    Undisturbed(w, INITIAL, run);
    RemoteCallsAreDirectCalls(w, run);
    HeardAll(w);
    assert !Good(w, 0);
    LongRequestHangs(w, run);
  }

  lemma {:induction false} RunOn(w: World, s: State, a: seq<Action>, b: seq<Action>)
    requires w.Valid() && Runs(w, s, a) && Runs(w, After(w, s, a), b)
    ensures Runs(w, s, a + b) && After(w, s, a + b) == After(w, After(w, s, a), b)
    decreases |a|
  {
    if a == [] {
      assert a + b == b;
    } else {
      assert (a + b)[1..] == a[1..] + b;
      RunOn(w, Apply(w, s, a[0]), a[1..], b);
    }
  }

  lemma SignalAnswers(w: World, s: State) returns (rest: seq<Action>)
    requires LongPath(w) && InStep(w, s) && s.daemon.ReadData? && s.cut == {} && s.dropped == None
    ensures Runs(w, s, [DaemonInterrupted] + rest)
    ensures var t := After(w, s, [DaemonInterrupted] + rest);
            Terminal(w, t) && t.cut == {0} && t.dropped == None && t.lost == None
  {
    HeardAll(w);
    WaitsForData(w, s);
    var t := Apply(w, s, DaemonInterrupted);
    rest := CanFinish(w, t);
    Undisturbed(w, t, rest);
    assert ([DaemonInterrupted] + rest)[1..] == rest;
  }

  /** ... and a signal can then make the daemon answer it, with the usage of the empty path. */
  lemma FsusageMisheard(w: World) returns (run: seq<Action>)
    requires LongPath(w)
    ensures Runs(w, INITIAL, run) && After(w, INITIAL, run).client.Closed?
    ensures Results(After(w, INITIAL, run).client) == [Direct(Heard(w, {0}), 0)]
  {
    var hang := FsusageHangs(w);
    InitialInv(w);
    RunKeepsInv(w, INITIAL, hang);
    var rest := SignalAnswers(w, After(w, INITIAL, hang));
    run := hang + ([DaemonInterrupted] + rest);
    RunOn(w, INITIAL, hang, [DaemonInterrupted] + rest);
    assert Good(Heard(w, {0}), 0);
    AllCallsReturnIff(w, run);
  }

  // ----- a lost response record

  /** A response record that is lost, and no data behind it: both sides wait for each other, or the
      daemon has left for good. */
  lemma LostRecordHangs(w: World, s: State)
    requires w.Valid() && InStep(w, s) && s.daemon.SendHeader? && s.daemon.reply.data == []
    ensures var t := Apply(w, s, DaemonWriteLost);
            && t.client.WaitHeader? && t.toClient == [] && t.toServer == []
            && (if s.daemon.last then t.daemon.Leaving? else t.daemon.ReadCommand? && Terminal(w, t))
  {
    HeaderInTurn(Heard(w, s.cut), s);
  }

  lemma RunMore(w: World, run: seq<Action>, a: Action)
    requires w.Valid() && Runs(w, INITIAL, run) && Enabled(w, After(w, INITIAL, run), a)
    ensures Runs(w, INITIAL, run + [a]) && After(w, INITIAL, run + [a]) == Apply(w, After(w, INITIAL, run), a)
  {
    RunOn(w, INITIAL, run, [a]);
  }

  lemma Greets(w: World) returns (run: seq<Action>)
    requires w.Valid() && w.SameBanner()
    ensures Runs(w, INITIAL, run)
    ensures After(w, INITIAL, run) == State(Idle([]), ReadCommand(0, []), [], [], 0, None, {}, None)
  {
    var size, text := BannerSize(w.server), BannerText(w.server);
    run := [];
    RunMore(w, run, DaemonWrite);
    run := run + [DaemonWrite];
    RunMore(w, run, DaemonWrite);
    run := run + [DaemonWrite];
    assert After(w, INITIAL, run).toClient == size + text;
    assert (size + text)[..8] == size && (size + text)[8..] == text;
    Get64Put64(|text|);
    RunMore(w, run, ClientRead(8));
    run := run + [ClientRead(8)];
    assert text[..|text|] == text && text[|text|..] == [];
    RunMore(w, run, ClientRead(|text|));
    run := run + [ClientRead(|text|)];
  }

  lemma Asks(w: World) returns (run: seq<Action>)
    requires w.Valid() && w.SameBanner() && |w.calls| == 1 && Good(w, 0) && w.calls[0].command != QUIT
    ensures Runs(w, INITIAL, run)
    ensures After(w, INITIAL, run)
         == State(WaitHeader([], []), SendHeader(0, ReplyTo(w, 0), false), [], [], 0, None, {}, None)
  {
    run := Greets(w);
    var e := EncodeCommand(CommandOf(w, 0));
    CommandArrives(w, 0);
    RunMore(w, run, ClientWrite);
    run := run + [ClientWrite];
    assert After(w, INITIAL, run).toServer == e && e[..|e|] == e && e[|e|..] == [];
    RunMore(w, run, DaemonRead(|e|));
    run := run + [DaemonRead(|e|)];
  }

  lemma RecordLost(w: World) returns (run: seq<Action>)
    requires w.Valid() && w.SameBanner() && |w.calls| == 1 && Good(w, 0) && w.calls[0].command != QUIT
    requires ReplyTo(w, 0).data != []
    ensures Runs(w, INITIAL, run)
    ensures After(w, INITIAL, run)
         == State(WaitHeader([], []), ReadCommand(1, []), [], ReplyTo(w, 0).data, 0, None, {}, Some(InReply(0)))
  {
    run := Asks(w);
    RunMore(w, run, DaemonWriteLost);
    run := run + [DaemonWriteLost];
    RunMore(w, run, DaemonWrite);
    run := run + [DaemonWrite];
    assert [] + ReplyTo(w, 0).data == ReplyTo(w, 0).data;
  }

  lemma TakenForRecord(w: World, record: seq<byte>)
    requires w.client.ResponseSize() == |record| && Word(record, 2) == 0
    requires |w.calls| == 1 && w.calls[0].recv == None
    ensures ClientTake(w, WaitHeader([], []), record) == Idle([Result(None, None)])
  {
    assert [] + record == record;
  }

  /** When the response record is lost and the data behind it looks like one, the client takes the data
      for the record: it returns, with all its calls done, and has lost the data. */
  lemma LostRecordMisleads(w: World, fake: Wire.Reply) returns (run: seq<Action>)
    requires w.Valid() && w.SameBanner() && |w.calls| == 1 && Good(w, 0) && w.calls[0].command != QUIT
    requires fake.data == [] && ReplyTo(w, 0).data == EncodeHeader(w.server, fake) && w.calls[0].recv == None
    ensures Runs(w, INITIAL, run) && After(w, INITIAL, run).client.Closed?
    ensures After(w, INITIAL, run).lost == Some(InReply(0))
    ensures Results(After(w, INITIAL, run).client) == [Result(None, None)]
    ensures Direct(w, 0) == Result(None, Some(ReplyTo(w, 0).data))
  {
    var data := EncodeHeader(w.server, fake);
    HeaderWords(w.server, fake);
    EqualBanners(w.client, w.server);
    run := RecordLost(w);
    assert data[..|data|] == data && data[|data|..] == [];
    TakenForRecord(w, data);
    RunMore(w, run, ClientRead(|data|));
    run := run + [ClientRead(|data|)];
    RunMore(w, run, ClientClose);
    run := run + [ClientClose];
  }

  const PROCLIST: nat := 10

  ghost function BlankRecord(b: Build): seq<byte> { EncodeHeader(b, Wire.Reply(0, [], [])) }

  /** A daemon whose process list happens to look like a response record, and a client that asks for it. */
  ghost function Lookalike(b: Build): World
    requires b.ResponseSize() < TWO64
  {
    var list: Data := BlankRecord(b);
    World(b, b, Parent, (k, c, p) => Answer([], list), [Call(PROCLIST, [], None)])
  }

  /** Such a session exists for every build. */
  lemma ProclistMisleads(b: Build) returns (run: seq<Action>)
    requires BannerFits(b) && b.ResponseSize() < TWO64
    ensures var w := Lookalike(b);
            && Runs(w, INITIAL, run) && After(w, INITIAL, run).client.Closed?
            && Results(After(w, INITIAL, run).client) == [Result(None, None)]
            && Direct(w, 0) == Result(None, Some(BlankRecord(b)))
  {
    var w := Lookalike(b);
    assert !QuitBefore(w, 0) && Good(w, 0);
    run := LostRecordMisleads(w, Wire.Reply(0, [], []));
  }
}
