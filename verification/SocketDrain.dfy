/** What a write event is good for: the socket thread can go on until all that has left the pipe is with the
    peer, and then it asks for no more write events, or closes the socket. */
module SocketDrain {
  import opened Socket
  import opened SocketProof
  import opened SocketWire
  import opened SocketOrder
  import opened SocketTheorems
  import opened SocketRuns
  import opened SocketClosing
  import opened SocketForgotten

  ghost predicate BySocketThreadOnly(moves: seq<Move>) { forall i | 0 <= i < |moves| :: moves[i].BySocketThread? }

  /** What has left the pipe here is all there later on, and nothing else has. */
  ghost predicate SameContents(s: Socket, s': Socket) { forall p :: p in Front(s') <==> p in Front(s) }

  /** The next step of a socket thread that is sending: the whole rest of a package is written. */
  function Sent(s: Socket): Act
  {
    if s.server.SendHigh? && s.lists.high != [] then Wrote(Rest(s.lists.high[0]))
    else if s.server.SendLow? && s.lists.low != [] then Wrote(Rest(s.lists.low[0]))
    else Go
  }

  lemma SentNext(s: Socket)
    requires s.server.SendHigh? || (s.server.SendLow? && s.lists.high == [])
    ensures var s' := ServerStep(s, Sent(s));
            && s'.status == s.status
            && (|| s'.server == Drained
                || (&& (s'.server.SendHigh? || s'.server.SendLow?)
                    && |s'.lists.high| + |s'.lists.low| < |s.lists.high| + |s.lists.low|)
                || (s.server.SendHigh? && s'.server.SendLow? && s'.lists == s.lists))
  {
    hide Written;
  }

  lemma SameStep(s: Socket, m: Move)
    requires Inv(s) && !Freeing(s, m) && Entering(s, m) == None
    ensures SameContents(s, Step(s, m))
  {
    hide Inv, Front, Step, Entering, Freeing;
    forall p ensures p in Front(Step(s, m)) <==> p in Front(s) { FrontStep(s, m, p); }
  }

  /** A socket thread that is sending can go on until nothing is left. */
  lemma {:induction false} SendingDrains(s: Socket) returns (more: seq<Move>)
    requires Inv(s) && (s.server.SendHigh? || s.server.SendLow?)
    ensures BySocketThreadOnly(more)
    ensures var s' := Serve(s, more); Inv(s') && s'.server == Drained && s'.status == s.status && SameContents(s, s')
    decreases |s.lists.high| + |s.lists.low|, s.server.SendHigh?
  {
    hide Inv, Serve, ServerStep, Front, Step;
    var m := BySocketThread(Sent(s));
    var s' := Step(s, m);
    InvParts(s);
    SentNext(s);
    StepIs(s, m.a);
    StepKeeps(s, m);
    SameStep(s, m);
    Single(s, m);
    if s'.server == Drained {
      more := [m];
    } else {
      var rest := SendingDrains(s');
      more := [m] + rest;
      ServeBoth(s, [m], rest);
    }
  }

  lemma StepIs(s: Socket, a: Act)
    ensures Step(s, BySocketThread(a)) == ServerStep(s, a)
  {
  }

  /** At rest: nothing waits to be written, and write events are asked for no more; or it is closed. */
  predicate AtRest(s: Socket)
  {
    s.server == Poll && Empty(s.lists) && s.lists.dw.None? && s.lock == Free && (s.status.kind == Invalid || !s.lists.armed)
  }

  lemma DrainedRests(s: Socket) returns (more: seq<Move>)
    requires Inv(s) && s.server == Drained
    ensures BySocketThreadOnly(more)
    ensures var s' := Serve(s, more);
            AtRest(s') && s'.trail.parts == s.trail.parts
            && if s.status.closing then s'.status.kind == Invalid else s'.status == s.status
  {
    hide Serve;
    ServerHolds(s);
    var m := BySocketThread(Go);
    Single(s, m);
    var s1 := Step(s, m);
    Single(s1, m);
    ServeBoth(s, [m], [m]);
    more := [m] + [m];
    if s.status.closing {
      Single(Step(s1, m), m);
      ServeBoth(s, [m] + [m], [m]);
      more := [m] + [m] + [m];
    }
  }

  lemma ServerHolds(s: Socket)
    requires Inv(s) && s.server == Drained
    ensures s.lock == ByServer && s.lists.dw.None? && Empty(s.lists)
  {
    assert LockOk(s) && ShapeOk(s);
  }

  lemma EventStarts(s: Socket)
    requires s.server == Poll && s.lists.armed && s.lock == Free && s.status.kind != Invalid
    ensures var s' := Step(s, BySocketThread(CanWrite)); s'.server == SendHigh && s'.status == s.status
    ensures !Freeing(s, BySocketThread(CanWrite)) && Entering(s, BySocketThread(CanWrite)) == None
  {
  }

  /** In every run, when write events are asked for and one comes, the socket thread can go on alone until every
      package that has left the pipe is with the peer, whole.  Then it is at rest: with the lists empty it asks
      for no more write events, and a socket that was closing is closed. */
  lemma WriteEventDrains(moves: seq<Move>) returns (more: seq<Move>)
    requires var s := Run(moves); s.server == Poll && s.lists.armed && s.lock == Free && s.status.kind != Invalid
    ensures BySocketThreadOnly(more)
    ensures var s, s' := Run(moves), Run(moves + more);
            && AtRest(s')
            && (forall p :: p in Front(s) ==> Arrived(s', p))
            && if s.status.closing then s'.status.kind == Invalid else s'.status == s.status
  {
    hide Run, Serve, Inv, Front, Arrived, Step, Settled, Gone, AtRest;
    RunKeeps(moves);
    var s, m := Run(moves), BySocketThread(CanWrite);
    EventStarts(s);
    SameStep(s, m);
    StepKeeps(s, m);
    Single(s, m);
    var s1 := Step(s, m);
    var sends := SendingDrains(s1);
    var s2 := Serve(s1, sends);
    DrainedSettled(s2);
    forall p | p in Front(s) ensures Arrived(s2, p) { SettledFront(s2, p); }
    var rest := DrainedRests(s2);
    ArrivedStays(s2, Serve(s2, rest));
    more := [m] + sends + rest;
    ServeBoth(s, [m], sends);
    ServeBoth(s, [m] + sends, rest);
    RunServe(moves, more);
  }

  lemma ArrivedStays(s: Socket, s': Socket)
    requires s'.trail.parts == s.trail.parts
    ensures forall p :: Arrived(s, p) <==> Arrived(s', p)
  {
  }
}
