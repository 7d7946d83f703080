/** What skynet/skynet-src/socket_server.c reports about a connected socket, and how often. */
module SocketReports {
  import opened Socket
  import opened SocketProof
  import opened SocketTheorems
  import opened SocketClosing

  ghost function Reported(log: seq<Event>, e: Event): nat
  {
    if log == [] then 0 else Reported(log[..|log| - 1], e) + if log[|log| - 1] == e then 1 else 0
  }

  /** A read returns data, and the socket is one that may be read. */
  predicate ReadsData(s: Socket, m: Move)
  {
    s.server == Poll && m.BySocketThread? && m.a.Got? && m.a.n > 0 && (s.status.kind == Connected || s.status.kind == HalfcloseWrite)
  }

  /** A read fails, or the poller sees an error, before the socket is closed. */
  predicate ReadFails(s: Socket, m: Move)
  {
    s.server == Poll && m.BySocketThread? && (m.a.ReadError? || m.a.PollError?) && s.status.kind != Invalid
  }

  /** The socket can be read and written, and is not closing. */
  predicate Plain(st: Status) { st.kind == Connected && !st.closing }

  /** A write fails for good. */
  predicate WriteFails(s: Socket, m: Move)
  {
    && m.BySocketThread? && m.a.Fatal? && Plain(s.status)
    && ((s.server.SendHigh? && s.lists.high != []) || (s.server.SendLow? && s.lists.low != []))
  }

  predicate Fails(s: Socket, m: Move) { ReadFails(s, m) || WriteFails(s, m) }

  /** How often something happens in a run. */
  ghost function Times(moves: seq<Move>, happens: (Socket, Move) -> bool): nat
  {
    if moves == [] then 0
    else
      var init := moves[..|moves| - 1];
      Times(init, happens) + if happens(Run(init), moves[|moves| - 1]) then 1 else 0
  }

  /** A failed write that is about to be reported. */
  function Failing(s: Socket): nat { if s.server == CloseWrite && Plain(s.status) then 1 else 0 }

  lemma ReportedNext(log: seq<Event>, e: Event, f: Event)
    ensures Reported(log + [f], e) == Reported(log, e) + if f == e then 1 else 0
  {
    assert (log + [f])[..|log|] == log;
  }

  lemma StepReports(s: Socket, m: Move)
    requires ServerOk(s)
    ensures var l, l' := s.status.log, Step(s, m).status.log;
            && Reported(l', DataEvent) == Reported(l, DataEvent) + (if ReadsData(s, m) then 1 else 0)
            && Reported(l', ErrEvent) + Failing(Step(s, m))
               == Reported(l, ErrEvent) + Failing(s) + (if Fails(s, m) then 1 else 0)
  {
    hide Reported, Written, Tear, HighSent, LowSent, Taken, SendSocket;
    forall e: Event, f: Event ensures Reported(s.status.log + [f], e) == Reported(s.status.log, e) + if f == e then 1 else 0 {
      ReportedNext(s.status.log, e, f);
    }
  }

  /** In every run there is exactly one report of data for every read that returned data from a socket that may
      still be read, and exactly one report of an error for every read that failed on an open socket and every
      write that failed on a socket that was neither closing nor half closed. */
  lemma {:induction false} EachReportedOnce(moves: seq<Move>)
    ensures var s := Run(moves);
            && Reported(s.status.log, DataEvent) == Times(moves, ReadsData)
            && Reported(s.status.log, ErrEvent) + Failing(s)
               == Times(moves, Fails)
    decreases |moves|
  {
    hide Step, Inv;
    if moves != [] {
      EachReportedOnce(moves[..|moves| - 1]);
      RunKeeps(moves[..|moves| - 1]);
      InvParts(Run(moves[..|moves| - 1]));
      StepReports(Run(moves[..|moves| - 1]), moves[|moves| - 1]);
    }
  }
}
