/** Every session comes to rest, whatever has gone wrong in it: a rank that each system call other than
    an interrupted read of the client lowers, in every state. */
module SessionRest {
  import opened Bytes
  import opened Wire
  import opened Service
  import opened Session

  /** Commands that the client may still write. */
  function CallsToCome(w: World, c: Client): nat {
    var n, k := |w.calls|, |Results(c)|;
    if Ended(c) || k >= n then 0
    else if c.WaitHeader? || c.WaitData? then n - k - 1
    else n - k
  }

  function Alive(c: Client): nat { if Ended(c) then 0 else 1 }

  function Phase(d: Daemon): nat {
    match d
    case Gone => 0
    case Leaving => 1
    case ReadCommand(_, _) => 2
    case SendData(_, _, _) => 3
    case SendText => 3
    case SendHeader(_, _, _) => 4
    case SendSize => 4
    case ReadData(_, _, _) => 5
  }

  /** Every byte that comes in can take the daemon through all phases once more. */
  function DaemonRank(s: State): nat { 6 * |s.toServer| + Phase(s.daemon) }

  /** `t` ranks below `s`: fewer commands to come, or as many and the client has ended, or else less
      for the daemon to do, or else fewer bytes for the client to read. */
  predicate Below(w: World, t: State, s: State) {
    var a, b := CallsToCome(w, t.client), CallsToCome(w, s.client);
    || a < b
    || (a == b && Alive(t.client) < Alive(s.client))
    || (a == b && Alive(t.client) == Alive(s.client) && DaemonRank(t) < DaemonRank(s))
    || (a == b && Alive(t.client) == Alive(s.client) && DaemonRank(t) == DaemonRank(s) && |t.toClient| < |s.toClient|)
  }

  lemma ClientRanks(w: World, s: State, a: Action)
    requires BannerFits(w.server) && Enabled(w, s, a) && (a.ClientRead? || a in {ClientWrite, ClientEof, ClientClose})
    ensures Below(w, Apply(w, s, a), s)
  {
  }

  lemma DaemonRanks(w: World, s: State, a: Action)
    requires BannerFits(w.server) && Enabled(w, s, a)
    requires a.DaemonRead? || a in {DaemonEof, DaemonInterrupted, DaemonWrite, DaemonWriteLost, DaemonExit}
    ensures Apply(w, s, a).client == s.client && DaemonRank(Apply(w, s, a)) < DaemonRank(s)
  {
  }

  /** In every state, every system call that is not an interrupted read of the client lowers the rank. */
  lemma EveryMoveRanks(w: World, s: State, a: Action)
    requires BannerFits(w.server) && Enabled(w, s, a) && a != ClientInterrupted
    ensures Below(w, Apply(w, s, a), s)
  {
    if a.ClientRead? || a in {ClientWrite, ClientEof, ClientClose} {
      ClientRanks(w, s, a);
    } else {
      DaemonRanks(w, s, a);
    }
  }

  /** No session goes on for ever: there is no endless sequence of moves in which interrupted reads of
      the client, which change nothing, have been left out. */
  lemma {:induction false} NoEndlessSession(w: World, states: nat -> State, moves: nat -> Action, i: nat)
    requires BannerFits(w.server)
    requires forall j: nat :: Enabled(w, states(j), moves(j)) && moves(j) != ClientInterrupted
                             && states(j + 1) == Apply(w, states(j), moves(j))
    ensures false
    decreases CallsToCome(w, states(i).client), Alive(states(i).client), DaemonRank(states(i)), |states(i).toClient|
  {
    EveryMoveRanks(w, states(i), moves(i));
    NoEndlessSession(w, states, moves, i + 1);
  }

  /** From wherever a session has got to, it can be run to rest without another mishap. */
  lemma {:induction false} CanFinish(w: World, s: State) returns (run: seq<Action>)
    requires BannerFits(w.server)
    ensures Runs(w, s, run) && (forall a :: a in run ==> !Mishap(a)) && Terminal(w, After(w, s, run))
    decreases CallsToCome(w, s.client), Alive(s.client), DaemonRank(s), |s.toClient|
  {
    if Terminal(w, s) {
      run := [];
    } else {
      var a: Action :| Enabled(w, s, a) && !Mishap(a);
      EveryMoveRanks(w, s, a);
      var rest := CanFinish(w, Apply(w, s, a));
      run := [a] + rest;
    }
  }
}
