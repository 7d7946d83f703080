/** Which of the sockets that have been marked as closing will still be closed, and which are forgotten. */
module SocketForgotten {
  import opened Socket
  import opened SocketProof
  import opened SocketOrder
  import opened SocketTheorems
  import opened SocketRuns
  import opened SocketClosing

  /** Somebody closes the socket again, the poller reports a hangup, or read reports something although
      read events have been switched off. */
  predicate EndsIt(m: Move)
  {
    match m
    case ByThread(_, a) => a.Close?
    case BySocketThread(a) => a.Hangup? || a.Got?
  }

  ghost predicate Mild(moves: seq<Move>) { forall i | 0 <= i < |moves| :: !EndsIt(moves[i]) }

  /** Some steps lead to the end of the socket, and none of them is a new reason to close it. */
  ghost predicate Ends(s: Socket) { exists more: seq<Move> :: Mild(more) && Serve(s, more).status.kind == Invalid }

  /** A close command will close the socket: it is a shutdown, or when it asks, `sending` counts nothing. */
  ghost predicate Succeeds(s: Socket, i: nat)
    requires i < |s.control.pipe|
  {
    s.control.pipe[i].CloseCmd?
    && (s.control.pipe[i].shutdown || (Sends(s.control.pipe[i + 1..]) == [] && Pipers(s) == {}))
  }

  /** About to leave a package to the socket thread, or able to: it can be written in part. */
  predicate Writing(pc: WorkerPc) { (pc.Write? && pc.p.size > 0) || pc.SetDw? }

  /** The socket thread is sending, or closing. */
  predicate Past(pc: ServerPc)
  {
    pc.SendHigh? || pc.SendLow? || pc.Drained? || pc.CloseWrite? || pc.FreeLists? || pc.Shut?
  }

  predicate Asking(pc: ServerPc) { pc.AskDw? || pc.AskSending? }

  /** Something will close a socket that is closing: a write event, a close command, or the question that is
      being asked.  Write events are asked for, or will be, whenever something waits to be written. */
  ghost predicate Remembered(s: Socket)
  {
    || s.lists.armed
    || Waking(s)
    || (exists t: Tid :: Writing(PcOf(s, t)))
    || (exists i: nat :: i < |s.control.pipe| && Succeeds(s, i))
    || (Asking(s.server) && s.control.sending == 0)
    || Past(s.server)
  }

  /** A socket in a run, marked as closing and not closed yet. */
  ghost predicate Closing(s: Socket)
  {
    Inv(s) && ArmedOk(s) && s.status.closing && s.status.kind == HalfcloseRead
  }

  lemma StaysClosing(s: Socket, m: Move)
    requires Closing(s)
    ensures Closing(Step(s, m)) || Step(s, m).status.kind == Invalid
  {
    hide Inv, ArmedOk, Step;
    InvParts(s);
    StepKeeps(s, m);
    StepKeepsArmed(s, m);
    StaysHalf(s, m);
  }

  lemma StaysHalf(s: Socket, m: Move)
    requires ServerOk(s) && s.status.closing && s.status.kind == HalfcloseRead
    ensures var st := Step(s, m).status; st.closing && (st.kind == HalfcloseRead || st.kind == Invalid)
  {
    hide Written, Tear, HighSent, LowSent, Taken, SendSocket;
  }

  // ---- Steps that lead to the end ----

  lemma Already(s: Socket)
    requires s.status.kind == Invalid
    ensures Ends(s)
  {
    Nothing1(s);
    assert Mild([]);
  }

  lemma BeforeAll(s: Socket, moves: seq<Move>)
    requires Mild(moves) && Ends(Serve(s, moves))
    ensures Ends(s)
  {
    hide Serve, EndsIt;
    var more: seq<Move> :| Mild(more) && Serve(Serve(s, moves), more).status.kind == Invalid;
    ServeBoth(s, moves, more);
    assert Mild(moves + more);
  }

  lemma Before(s: Socket, m: Move)
    requires !EndsIt(m) && Ends(Step(s, m))
    ensures Ends(s)
  {
    hide Serve, Step, Ends;
    Single(s, m);
    BeforeAll(s, [m]);
  }

  /** Other threads can go on until the lock is free. */
  lemma Released(s: Socket) returns (moves: seq<Move>)
    requires Inv(s)
    ensures Mild(moves) && ByOthers(moves) && !Serve(s, moves).lock.ByWorker?
  {
    hide Serve;
    InvParts(s);
    moves := LockIsReleased(s);
    assert forall i | 0 <= i < |moves| :: moves[i].a == Go;
  }

  lemma {:induction false} OthersStayClosing(s: Socket, others: seq<Move>)
    requires Closing(s) && ByOthers(others)
    ensures Closing(Serve(s, others))
    decreases |others|
  {
    hide Closing, Step;
    if others != [] {
      var init, m := others[..|others| - 1], others[|others| - 1];
      OthersStayClosing(s, init);
      ClosingStatus(Serve(s, init));
      StaysClosing(Serve(s, init), m);
      ThreadStays(Serve(s, init), m);
    }
  }

  lemma ThreadStays(s: Socket, m: Move)
    requires m.ByThread?
    ensures Step(s, m).status == s.status
  {
    hide WorkerStep;
    ThreadLeaves(s, m.t, m.a);
  }

  /** How far the socket thread is from the end. */
  function Left(pc: ServerPc): nat
  {
    match pc
    case SendHigh => 5
    case SendLow => 4
    case Drained => 3
    case CloseWrite => 3
    case FreeLists(_) => 2
    case _ => 1
  }

  lemma PastNext(s: Socket)
    requires s.status.closing && s.status.kind == HalfcloseRead && Past(s.server) && !s.server.Shut?
    ensures var s' := ServerStep(s, Fatal); Past(s'.server) && Left(s'.server) < Left(s.server) && s'.status.kind == HalfcloseRead
  {
    hide Tear;
  }

  lemma {:induction false} PastEnds(s: Socket)
    requires Closing(s) && Past(s.server)
    ensures Ends(s)
    decreases Left(s.server)
  {
    hide Closing, Serve, ServerStep, Ends;
    var m := BySocketThread(Fatal);
    if s.server.Shut? {
      ShutEnds(s);
    } else {
      ClosingStatus(s);
      PastNext(s);
      StaysClosing(s, m);
      PastEnds(Step(s, m));
      Before(s, m);
    }
  }

  lemma ClosingStatus(s: Socket)
    requires Closing(s)
    ensures s.status.closing && s.status.kind == HalfcloseRead
    ensures Inv(s) && ServerOk(s)
  {
  }

  lemma ShutEnds(s: Socket)
    requires Closing(s) && s.server.Shut?
    ensures Ends(s)
  {
    hide Closing, Serve, Ends, Mild, ByOthers;
    ClosingStatus(s);
    var moves := Released(s);
    OthersLeave(s, moves);
    ShutNext(Serve(s, moves));
    Already(Step(Serve(s, moves), BySocketThread(Go)));
    Before(Serve(s, moves), BySocketThread(Go));
    BeforeAll(s, moves);
  }

  lemma ShutNext(s: Socket)
    requires s.server.Shut? && !s.lock.ByWorker?
    ensures ServerStep(s, Go).status.kind == Invalid
  {
    hide Tear;
  }

  // ---- Write events ----

  /** How far the socket thread is from waiting for events again. */
  function Turn(pc: ServerPc): nat
  {
    match pc
    case AskDw(_) => 3
    case AskSending(_) => 2
    case Poll => 0
    case _ => 1
  }

  lemma Onward(s: Socket)
    requires ServerOk(s) && s.status.closing && s.status.kind == HalfcloseRead && !Past(s.server) && s.server != Poll
    ensures var s' := ServerStep(s, Go);
            s'.lists == s.lists && s'.senders == s.senders && s'.control.pipe == s.control.pipe
            && s'.status.kind == HalfcloseRead && (Past(s'.server) || Turn(s'.server) < Turn(s.server))
  {
  }

  /** A step of the socket thread that is not waiting for events. */
  lemma Busily(s: Socket)
    requires Closing(s) && !Past(s.server) && s.server != Poll
    ensures var s' := Step(s, BySocketThread(Go));
            Closing(s') && s'.lists == s.lists && s'.senders == s.senders && s'.control.pipe == s.control.pipe
            && (Past(s'.server) || Turn(s'.server) < Turn(s.server))
  {
    hide Closing, ServerStep;
    ClosingStatus(s);
    Onward(s);
    StaysClosing(s, BySocketThread(Go));
  }

  lemma {:induction false} ArmedEnds(s: Socket)
    requires Closing(s) && s.lists.armed
    ensures Ends(s)
    decreases Turn(s.server)
  {
    hide Closing, Step, Ends;
    if Past(s.server) {
      PastEnds(s);
    } else if s.server != Poll {
      var m := BySocketThread(Go);
      Busily(s);
      if Past(Step(s, m).server) { PastEnds(Step(s, m)); } else { ArmedEnds(Step(s, m)); }
      Before(s, m);
    } else {
      WriteEventEnds(s);
    }
  }

  lemma WriteEventEnds(s: Socket)
    requires Closing(s) && s.lists.armed && s.server == Poll
    ensures Ends(s)
  {
    hide Closing, Serve, Ends, Mild, ByOthers, Step;
    ClosingStatus(s);
    var moves := Released(s);
    var s1, m := Serve(s, moves), BySocketThread(CanWrite);
    OthersLeave(s, moves);
    OthersStayClosing(s, moves);
    ClosingStatus(s1);
    WriteEvent(s1);
    StaysClosing(s1, m);
    PastEnds(Step(s1, m));
    Before(s1, m);
    BeforeAll(s, moves);
  }

  lemma WriteEvent(s: Socket)
    requires Inv(s) && s.server == Poll && s.lists.armed && !s.lock.ByWorker? && s.status.kind == HalfcloseRead
    ensures var s' := Step(s, BySocketThread(CanWrite)); s'.server == SendHigh && s'.status == s.status
  {
    hide Taken;
    assert LockOk(s);
  }

  // ---- Commands ----

  lemma TakesCommand(s: Socket)
    requires Closing(s) && s.server == Poll && s.control.pipe != []
    ensures var s' := Step(s, BySocketThread(Command));
            Closing(s') && s'.control == Took(s.control) && s'.senders == s.senders
            && (s.control.pipe[0].WakeCmd? ==> s'.lists.armed)
            && (s.control.pipe[0] == CloseCmd(true) ==> Past(s'.server))
            && (s.control.pipe[0] == CloseCmd(false) && Empty(s.lists) ==> Asking(s'.server))
  {
    hide Closing, SendSocket;
    ClosingStatus(s);
    StaysClosing(s, BySocketThread(Command));
  }

  lemma {:induction false} WakeAt(s: Socket, i: nat)
    requires Closing(s) && i < |s.control.pipe| && s.control.pipe[i] == WakeCmd
    ensures Ends(s)
    decreases i, Turn(s.server)
  {
    hide Closing, Step, Ends;
    if Past(s.server) {
      PastEnds(s);
    } else if s.server != Poll {
      var m := BySocketThread(Go);
      Busily(s);
      if Past(Step(s, m).server) { PastEnds(Step(s, m)); } else { WakeAt(Step(s, m), i); }
      Before(s, m);
    } else {
      var m := BySocketThread(Command);
      TakesCommand(s);
      if i == 0 { ArmedEnds(Step(s, m)); } else { WakeAt(Step(s, m), i - 1); }
      Before(s, m);
    }
  }

  lemma WakingEnds(s: Socket)
    requires Closing(s) && Waking(s)
    ensures Ends(s)
  {
    hide Closing, Ends;
    if WakeCmd in s.control.pipe {
      var i :| 0 <= i < |s.control.pipe| && s.control.pipe[i] == WakeCmd;
      WakeAt(s, i);
    } else {
      var t: Tid :| PcOf(s, t).UnlockWake? || PcOf(s, t).Wake?;
      ThreadWakes(s, t);
    }
  }

  /** A step of a thread. */
  lemma ThreadGoes(s: Socket, t: Tid, a: Act)
    requires Closing(s)
    ensures Closing(Step(s, ByThread(t, a)))
  {
    hide Closing, Step;
    StaysClosing(s, ByThread(t, a));
    ClosingStatus(s);
    ThreadStays(s, ByThread(t, a));
  }

  lemma ThreadWakes(s: Socket, t: Tid)
    requires Closing(s) && (PcOf(s, t).UnlockWake? || PcOf(s, t).Wake?)
    ensures Ends(s)
    decreases PcOf(s, t).UnlockWake?
  {
    hide Closing, Ends, Step;
    var m := ByThread(t, Go);
    ThreadGoes(s, t, Go);
    WakeSteps(s, t);
    if PcOf(s, t).UnlockWake? { ThreadWakes(Step(s, m), t); } else { WakeAt(Step(s, m), |s.control.pipe|); }
    Before(s, m);
  }

  lemma WakeSteps(s: Socket, t: Tid)
    ensures PcOf(s, t).UnlockWake? ==> PcOf(Step(s, ByThread(t, Go)), t).Wake?
    ensures PcOf(s, t).Wake? ==> Step(s, ByThread(t, Go)).control.pipe == s.control.pipe + [WakeCmd]
  {
    hide Written;
  }

  lemma WriterEnds(s: Socket, t: Tid)
    requires Closing(s) && Writing(PcOf(s, t))
    ensures Ends(s)
    decreases PcOf(s, t).Write?
  {
    hide Closing, Ends, Step;
    var m := ByThread(t, Wrote(0));
    ThreadGoes(s, t, Wrote(0));
    WriteSteps(s, t);
    if PcOf(s, t).Write? { WriterEnds(Step(s, m), t); } else { ThreadWakes(Step(s, m), t); }
    Before(s, m);
  }

  lemma WriteSteps(s: Socket, t: Tid)
    ensures PcOf(s, t).Write? && PcOf(s, t).p.size > 0 ==> PcOf(Step(s, ByThread(t, Wrote(0))), t).SetDw?
    ensures PcOf(s, t).SetDw? ==> PcOf(Step(s, ByThread(t, Wrote(0))), t).UnlockWake?
  {
    hide Written;
  }

  /** Without write events nothing is waiting. */
  lemma NothingWaits(s: Socket)
    requires Closing(s) && !Past(s.server) && !s.lists.armed && !Waking(s)
    ensures Empty(s.lists) && s.lists.dw == None
  {
    hide Waking;
  }

  lemma {:induction false} AskEnds(s: Socket)
    requires Closing(s) && Asking(s.server) && s.control.sending == 0
    ensures Ends(s)
    decreases s.server.AskDw?
  {
    hide Closing, Ends, Waking, ServerStep;
    if s.lists.armed {
      ArmedEnds(s);
    } else if Waking(s) {
      WakingEnds(s);
    } else {
      var m := BySocketThread(Go);
      NothingWaits(s);
      Busily(s);
      Asked(s);
      if s.server.AskDw? { AskEnds(Step(s, m)); } else { PastEnds(Step(s, m)); }
      Before(s, m);
    }
  }

  lemma Asked(s: Socket)
    requires s.lists.dw == None && s.control.sending == 0
    ensures s.server.AskDw? ==> ServerStep(s, Go).server.AskSending? && ServerStep(s, Go).control.sending == 0
    ensures s.server.AskSending? ==> Past(ServerStep(s, Go).server)
  {
  }

  lemma {:induction false} CloseAt(s: Socket, i: nat)
    requires Closing(s) && i < |s.control.pipe| && Succeeds(s, i)
    ensures Ends(s)
    decreases i, Turn(s.server)
  {
    hide Closing, Ends, Waking, Step, Sends;
    if s.lists.armed {
      ArmedEnds(s);
    } else if Waking(s) {
      WakingEnds(s);
    } else if Past(s.server) {
      PastEnds(s);
    } else if s.server != Poll {
      var m := BySocketThread(Go);
      Busily(s);
      if Past(Step(s, m).server) { PastEnds(Step(s, m)); } else { CloseAt(Step(s, m), i); }
      Before(s, m);
    } else {
      var m := BySocketThread(Command);
      TakesCommand(s);
      if i > 0 {
        assert s.control.pipe[1..][i..] == s.control.pipe[i + 1..];
        CloseAt(Step(s, m), i - 1);
      } else if s.control.pipe[0].shutdown {
        PastEnds(Step(s, m));
      } else {
        NothingWaits(s);
        NothingCounted(s);
        AskEnds(Step(s, m));
      }
      Before(s, m);
    }
  }

  lemma NothingCounted(s: Socket)
    requires Closing(s) && s.server == Poll && s.control.pipe != [] && s.control.pipe[0].CloseCmd?
    ensures s.control.sending == |Sends(s.control.pipe[1..])| + |Pipers(s)|
  {
    hide Pipers;
    assert SendingOk(s);
    SendsHead(s.control.pipe);
  }

  lemma RememberedEnds(s: Socket)
    requires Closing(s) && Remembered(s)
    ensures Ends(s)
  {
    hide Closing, Ends, Waking, Writing;
    if s.lists.armed {
      ArmedEnds(s);
    } else if Waking(s) {
      WakingEnds(s);
    } else if t: Tid :| Writing(PcOf(s, t)) {
      WriterEnds(s, t);
    } else if i: nat :| i < |s.control.pipe| && Succeeds(s, i) {
      CloseAt(s, i);
    } else if Asking(s.server) && s.control.sending == 0 {
      AskEnds(s);
    } else {
      PastEnds(s);
    }
  }

  // ---- Steps that lead nowhere ----

  lemma ThreadForgets(s: Socket, t: Tid, a: Act)
    requires s.status.kind == HalfcloseRead && s.status.closing && !Remembered(s)
    ensures var s', pc := WorkerStep(s, t, a), PcOf(WorkerStep(s, t, a), t);
            s'.lists.armed == s.lists.armed && s'.server == s.server && s'.control.sending >= s.control.sending
            && !Writing(pc) && !pc.UnlockWake? && !pc.Wake? && (WakeCmd in s'.control.pipe ==> WakeCmd in s.control.pipe)
  {
    hide Written, Succeeds;
    assert !Writing(PcOf(s, t)) && !PcOf(s, t).UnlockWake? && !PcOf(s, t).Wake?;
  }

  /** Which commands succeed: a send makes none succeed, and counts against those before it. */
  lemma ThreadSucceeds(s: Socket, t: Tid, a: Act, i: nat)
    requires !Waking(s) && !EndsIt(ByThread(t, a))
    requires i < |WorkerStep(s, t, a).control.pipe| && Succeeds(WorkerStep(s, t, a), i)
    ensures i < |s.control.pipe| && Succeeds(s, i)
  {
    hide WorkerStep, Pipers, Sends;
    var s', pc := WorkerStep(s, t, a), PcOf(s, t);
    Puts(s, t, a);
    if Piping(pc) {
      var send := s'.control.pipe[|s.control.pipe|];
      if i < |s.control.pipe| {
        assert s'.control.pipe[i + 1..] == s.control.pipe[i + 1..] + [send];
        SendsAppend(s.control.pipe[i + 1..], send);
      }
    } else if s'.senders.pcs == s.senders.pcs {
      PipersSame(s, s');
    } else {
      PipersAfter(s, s', t, PcOf(s', t));
    }
  }

  lemma Puts(s: Socket, t: Tid, a: Act)
    requires !Waking(s) && !EndsIt(ByThread(t, a))
    ensures var s', pc := WorkerStep(s, t, a), PcOf(s, t);
            if Piping(pc) then |s'.control.pipe| == |s.control.pipe| + 1 && s.control.pipe <= s'.control.pipe
                               && s'.control.pipe[|s.control.pipe|].SendCmd?
            else s'.control.pipe == s.control.pipe
                 && (s'.senders.pcs == s.senders.pcs || s'.senders.pcs == s.senders.pcs[t := PcOf(s', t)])
  {
    hide Written;
    assert !PcOf(s, t).Wake?;
  }

  lemma ThreadStaysForgotten(s: Socket, t: Tid, a: Act)
    requires s.status.kind == HalfcloseRead && s.status.closing && !Remembered(s) && !EndsIt(ByThread(t, a))
    ensures !Remembered(WorkerStep(s, t, a))
  {
    hide WorkerStep, Succeeds, EndsIt;
    var s' := WorkerStep(s, t, a);
    ThreadForgets(s, t, a);
    forall u: Tid ensures !Writing(PcOf(s', u)) && !PcOf(s', u).UnlockWake? && !PcOf(s', u).Wake? {
      if u != t { OtherThread(s, t, a, u); }
    }
    forall i: nat | i < |s'.control.pipe| ensures !Succeeds(s', i) {
      if Succeeds(s', i) { ThreadSucceeds(s, t, a, i); }
    }
  }

  /** The socket thread does not begin to close, and a question that it begins to ask finds packages that are
      counted. */
  lemma ServerForgets(s: Socket, a: Act)
    requires Closing(s) && !Remembered(s) && !EndsIt(BySocketThread(a))
    ensures var s' := ServerStep(s, a);
            !s'.lists.armed && !Past(s'.server) && (Asking(s'.server) ==> s'.control.sending > 0)
            && s'.senders == s.senders
            && (s'.control.pipe == s.control.pipe || (s.control.pipe != [] && s'.control.pipe == s.control.pipe[1..]))
  {
    hide Waking, Closing, Sends, Pipers, Writing;
    ClosingStatus(s);
    NothingWaits(s);
    if s.server.Poll? && a.Command? && s.control.pipe != [] {
      HeadForgets(s);
    } else {
      OthersForget(s, a);
    }
  }

  lemma HeadForgets(s: Socket)
    requires Closing(s) && !Remembered(s) && s.server == Poll && s.control.pipe != []
    requires Empty(s.lists) && s.lists.dw == None
    ensures var s' := ServerStep(s, Command);
            !s'.lists.armed && !Past(s'.server) && (Asking(s'.server) ==> s'.control.sending > 0)
            && s'.senders == s.senders && s'.control.pipe == s.control.pipe[1..]
  {
    hide Closing, Sends, Pipers, Writing;
    ClosingStatus(s);
    assert s.control.pipe[0] in s.control.pipe;
    if s.control.pipe[0].CloseCmd? {
      assert !Succeeds(s, 0);
      NothingCounted(s);
      NotEmpty(s, Sends(s.control.pipe[1..]));
    }
  }

  lemma NotEmpty(s: Socket, ps: seq<Pkg>)
    ensures |ps| + |Pipers(s)| == 0 <==> ps == [] && Pipers(s) == {}
  {
  }

  lemma OthersForget(s: Socket, a: Act)
    requires ServerOk(s) && s.status.closing && s.status.kind == HalfcloseRead && !Remembered(s) && !EndsIt(BySocketThread(a))
    requires Empty(s.lists) && s.lists.dw == None && !(s.server.Poll? && a.Command? && s.control.pipe != [])
    ensures var s' := ServerStep(s, a);
            !s'.lists.armed && !Past(s'.server) && (Asking(s'.server) ==> s'.control.sending > 0)
            && s'.senders == s.senders && s'.control.pipe == s.control.pipe
  {
    hide Waking, Writing, Succeeds, Taken;
  }

  lemma ServerSucceeds(s: Socket, s': Socket, i: nat)
    requires s'.senders == s.senders && i < |s'.control.pipe| && Succeeds(s', i)
    requires s'.control.pipe == s.control.pipe || (s.control.pipe != [] && s'.control.pipe == s.control.pipe[1..])
    ensures exists k: nat :: k < |s.control.pipe| && Succeeds(s, k)
  {
    hide Sends;
    PipersSame(s, s');
    if s'.control.pipe == s.control.pipe {
      assert Succeeds(s, i);
    } else {
      assert s.control.pipe[1..][i + 1..] == s.control.pipe[i + 2..];
      assert Succeeds(s, i + 1);
    }
  }

  lemma ServerStaysForgotten(s: Socket, a: Act)
    requires Closing(s) && !Remembered(s) && !EndsIt(BySocketThread(a))
    ensures !Remembered(ServerStep(s, a))
  {
    hide Closing, ServerStep, Succeeds, EndsIt, Writing;
    var s' := ServerStep(s, a);
    ServerForgets(s, a);
    forall t: Tid ensures PcOf(s', t) == PcOf(s, t) {}
    forall i: nat | i < |s'.control.pipe| ensures !Succeeds(s', i) {
      if Succeeds(s', i) { ServerSucceeds(s, s', i); }
    }
  }

  /** Nothing but a new reason to close it ever closes a socket that is forgotten. */
  lemma ForgottenStays(s: Socket, m: Move)
    requires Closing(s) && !Remembered(s) && !EndsIt(m)
    ensures Closing(Step(s, m)) && !Remembered(Step(s, m))
  {
    hide Closing, Remembered, WorkerStep, ServerStep, EndsIt;
    ClosingStatus(s);
    StaysClosing(s, m);
    match m
    case ByThread(t, a) =>
      ThreadStaysForgotten(s, t, a);
      ThreadStays(s, m);
    case BySocketThread(a) =>
      ServerStaysForgotten(s, a);
      NotPastStays(s, a);
  }

  lemma NotPastStays(s: Socket, a: Act)
    requires !Remembered(s)
    ensures ServerStep(s, a).status.kind == Invalid ==> s.status.kind == Invalid
  {
    hide Waking, Writing, Succeeds, Taken;
  }

  lemma {:induction false} ForgottenForever(s: Socket, more: seq<Move>)
    requires Closing(s) && !Remembered(s) && Mild(more)
    ensures Closing(Serve(s, more)) && !Remembered(Serve(s, more))
    decreases |more|
  {
    hide Closing, Remembered, Step, EndsIt;
    if more != [] {
      ForgottenForever(s, more[..|more| - 1]);
      ForgottenStays(Serve(s, more[..|more| - 1]), more[|more| - 1]);
    }
  }

  lemma {:induction false} RunServe(moves: seq<Move>, more: seq<Move>)
    ensures Run(moves + more) == Serve(Run(moves), more)
    decreases |more|
  {
    hide Run, Step;
    if more == [] {
      assert moves + more == moves;
    } else {
      var less, m := more[..|more| - 1], more[|more| - 1];
      RunServe(moves, less);
      assert less + [m] == more;
      Concat(moves, less, m);
    }
  }

  /** A socket that has been marked as closing in a run can still be closed, without a new reason to close it,
      if and only if it is remembered. */
  lemma ClosedExactly(moves: seq<Move>)
    requires Run(moves).status.closing && Run(moves).status.kind == HalfcloseRead
    ensures (exists more: seq<Move> :: Mild(more) && Run(moves + more).status.kind == Invalid) <==> Remembered(Run(moves))
  {
    hide Run, Inv, ArmedOk, Remembered, Serve, Mild;
    RunKeeps(moves);
    NoStall(moves);
    forall more: seq<Move> ensures Run(moves + more) == Serve(Run(moves), more) { RunServe(moves, more); }
    if Remembered(Run(moves)) {
      RememberedEnds(Run(moves));
      var more: seq<Move> :| Mild(more) && Serve(Run(moves), more).status.kind == Invalid;
      assert Run(moves + more).status.kind == Invalid;
    } else if more: seq<Move> :| Mild(more) && Run(moves + more).status.kind == Invalid {
      ForgottenForever(Run(moves), more);
      ClosingStatus(Serve(Run(moves), more));
    }
  }

  // ---- A close that is forgotten ----

  /** Marked as closing, not closed, and nothing will close it. */
  ghost predicate Forgotten(s: Socket) { s.status.closing && s.status.kind == HalfcloseRead && !Remembered(s) }

  /** A close that overtakes a send leads there: it finds nothing to send but what `sending` counts, and
      that is dropped when it comes. */
  lemma CloseForgets() returns (moves: seq<Move>)
    ensures Forgotten(Run(moves)) && Run(moves).trail.parts == [] && Issued(Run(moves).senders, High(0)) == 1
  {
    moves := Nothing();
    hide Run;
    moves := Then(moves, ByThread(0, Send(1)));
    moves := Then(moves, ByThread(0, Busy));
    moves := Then(moves, ByThread(0, Go));
    var p := Pkg(High(0), 0, 1);
    Counting(Run(moves), p);
    moves := Then(moves, ByThread(1, Close(false)));
    CloseSteps(Run(moves), p);
    moves := Then(moves, BySocketThread(Command));
    CloseSteps(Run(moves), p);
    moves := Then(moves, BySocketThread(Go));
    CloseSteps(Run(moves), p);
    moves := Then(moves, BySocketThread(Go));
    CloseSteps(Run(moves), p);
    moves := Then(moves, BySocketThread(Go));
    CloseSteps(Run(moves), p);
    moves := Then(moves, BySocketThread(Go));
    SendSteps(Run(moves), p);
    moves := Then(moves, ByThread(0, Go));
    SendSteps(Run(moves), p);
    moves := Then(moves, BySocketThread(Command));
    SendSteps(Run(moves), p);
  }

  /** Nothing is written; thread 0 is at pc and the socket thread at server. */
  ghost predicate Point(s: Socket, pc: WorkerPc, server: ServerPc, c: Control, kind: Type, closing: bool)
  {
    && s.senders == Senders(map[0 := pc], map[0 := 1], 0)
    && s.server == server && s.lock == Free && s.lists == NOTHING && s.control == c && s.trail.parts == []
    && s.status.kind == kind && s.status.closing == closing
  }

  lemma Counting(s: Socket, p: Pkg)
    requires s.senders == Senders(map[0 := Pipe(p)], map[0 := 1], 0) && s.server == Poll && s.lock == Free
    requires s.lists == NOTHING && s.control == Control([], 1) && s.trail.parts == [] && s.status == START.status
    ensures Point(WorkerStep(s, 1, Close(false)), Pipe(p), Poll, Control([CloseCmd(false)], 1), Connected, false)
  {
  }

  lemma CloseSteps(s: Socket, p: Pkg)
    ensures Point(s, Pipe(p), Poll, Control([CloseCmd(false)], 1), Connected, false) ==>
              Point(ServerStep(s, Command), Pipe(p), AskDw(ToClose(false)), Control([], 1), Connected, false)
    ensures Point(s, Pipe(p), AskDw(ToClose(false)), Control([], 1), Connected, false) ==>
              Point(ServerStep(s, Go), Pipe(p), AskSending(ToClose(false)), Control([], 1), Connected, false)
    ensures Point(s, Pipe(p), AskSending(ToClose(false)), Control([], 1), Connected, false) ==>
              Point(ServerStep(s, Go), Pipe(p), SetClosing(false), Control([], 1), Connected, false)
    ensures Point(s, Pipe(p), SetClosing(false), Control([], 1), Connected, false) ==>
              Point(ServerStep(s, Go), Pipe(p), ServerPc.CloseRead, Control([], 1), Connected, true)
    ensures Point(s, Pipe(p), ServerPc.CloseRead, Control([], 1), Connected, true) ==>
              Point(ServerStep(s, Go), Pipe(p), Poll, Control([], 1), HalfcloseRead, true)
  {
    hide Written, Tear, HighSent, LowSent, Taken;
    assert [CloseCmd(false)][1..] == [];
  }

  lemma SendSteps(s: Socket, p: Pkg)
    ensures Point(s, Pipe(p), Poll, Control([], 1), HalfcloseRead, true) ==>
              Point(WorkerStep(s, 0, Go), Idle, Poll, Control([SendCmd(p)], 1), HalfcloseRead, true)
    ensures Point(s, Idle, Poll, Control([SendCmd(p)], 1), HalfcloseRead, true) ==>
              Point(ServerStep(s, Command), Idle, DecSending, Control([], 1), HalfcloseRead, true)
    ensures Point(s, Idle, DecSending, Control([], 1), HalfcloseRead, true) ==> Forgotten(s) && Issued(s.senders, High(0)) == 1
  {
    hide Written, Tear, HighSent, LowSent, Taken;
    assert [SendCmd(p)][1..] == [] && [] + [SendCmd(p)] == [SendCmd(p)];
    assert map[0 := Pipe(p)][0 := Idle] == map[0 := Idle];
  }
}
