/** Write events, and what a graceful close delivers and drops. */
module SocketClosing {
  import opened Socket
  import opened SocketProof
  import opened SocketWire
  import opened SocketOrder
  import opened SocketTheorems

  // ---- Write events ----

  /** A request to be woken by write events is on its way. */
  ghost predicate Waking(s: Socket)
  {
    WakeCmd in s.control.pipe || exists t: Tid :: PcOf(s, t).UnlockWake? || PcOf(s, t).Wake?
  }

  /** Whenever something is waiting to be written, write events are asked for, or will be. */
  ghost predicate ArmedOk(s: Socket)
  {
    Gone(s) || s.status.kind == HalfcloseWrite
    || ((Empty(s.lists) || s.lists.armed) && (s.lists.dw.None? || s.lists.armed || Waking(s)))
  }

  lemma WorkerKeepsArmed(s: Socket, t: Tid, a: Act)
    requires ArmedOk(s)
    ensures ArmedOk(WorkerStep(s, t, a))
  {
    hide Written;
    var s' := WorkerStep(s, t, a);
    var pc := PcOf(s, t);
    if pc.SetDw? {
      assert PcOf(s', t).UnlockWake?;
    } else if pc.UnlockWake? {
      assert PcOf(s', t).Wake?;
    } else if pc.Wake? {
      assert s'.control.pipe[|s.control.pipe|] == WakeCmd;
    } else if Waking(s) && WakeCmd !in s.control.pipe {
      var u: Tid :| PcOf(s, u).UnlockWake? || PcOf(s, u).Wake?;
      OtherThread(s, t, a, u);
    }
    PipeGrows(s, t, a);
  }

  lemma PipeGrows(s: Socket, t: Tid, a: Act)
    ensures WakeCmd in s.control.pipe ==> WakeCmd in WorkerStep(s, t, a).control.pipe
  {
    hide Written;
  }

  lemma ServerKeepsArmed(s: Socket, a: Act)
    requires ArmedOk(s) && ShapeOk(s) && ServerOk(s) && LockOk(s)
    ensures ArmedOk(ServerStep(s, a))
  {
    hide Written, Tear, Waking, LockOk;
    ServerControl(s, a);
    ServerLock(s);
    if Waking(s) { WakingStays(s, a); }
  }

  lemma WakingStays(s: Socket, a: Act)
    requires Waking(s)
    ensures Waking(ServerStep(s, a)) || ServerStep(s, a).lists.armed || ServerStep(s, a).status.kind == Invalid
  {
    hide Written, Tear, HighSent, LowSent, Taken;
    ServerControl(s, a);
    var s' := ServerStep(s, a);
    if WakeCmd in s.control.pipe {
      if s'.control.pipe != s.control.pipe && s.control.pipe[0] != WakeCmd {
        var i :| 0 <= i < |s.control.pipe| && s.control.pipe[i] == WakeCmd;
        assert s'.control.pipe[i - 1] == WakeCmd;
      }
    } else {
      var u: Tid :| PcOf(s, u).UnlockWake? || PcOf(s, u).Wake?;
      assert PcOf(s', u) == PcOf(s, u);
    }
  }

  /** No write is forgotten: in every run, while something is in the lists write events are asked for, and
      while a package that was written directly waits they are asked for or will be. */
  lemma {:induction false} NoStall(moves: seq<Move>)
    ensures ArmedOk(Run(moves))
    decreases |moves|
  {
    hide ArmedOk, Step;
    if moves == [] {
      StartArmed();
    } else {
      var init, m := moves[..|moves| - 1], moves[|moves| - 1];
      NoStall(init);
      RunKeeps(init);
      InvParts(Run(init));
      StepKeepsArmed(Run(init), m);
    }
  }

  lemma StartArmed()
    ensures ArmedOk(START)
  {
  }

  lemma InvParts(s: Socket)
    requires Inv(s)
    ensures ShapeOk(s) && KindOk(s) && ServerOk(s) && LockOk(s) && WireOk(s) && OrderOk(s) && ListOk(s.lists) && WorkersOk(s) && QueuesOk(s)
  {
  }

  lemma StepKeepsArmed(s: Socket, m: Move)
    requires ArmedOk(s) && ShapeOk(s) && ServerOk(s) && LockOk(s)
    ensures ArmedOk(Step(s, m))
  {
    hide ArmedOk, WorkerStep, ServerStep;
    match m
    case ByThread(t, a) => WorkerKeepsArmed(s, t, a);
    case BySocketThread(a) => ServerKeepsArmed(s, a);
  }

  // ---- What has left the pipe ----

  /** The packages that have left the pipe, or were written directly. */
  function Front(s: Socket): seq<Pkg> { Line(s.trail, Hand(s), s.lists, []) }

  lemma LineIsFront(s: Socket)
    ensures LineOf(s) == Front(s) + Sends(s.control.pipe)
  {
    hide PartPkgs, Pkgs, Fresh, New;
    assert Sends([]) == [];
  }

  /** The package that a step takes out of the pipe or writes directly. */
  function Entering(s: Socket, m: Move): Option<Pkg>
  {
    match m
    case ByThread(t, a) => if PcOf(s, t).Write? then Some(PcOf(s, t).p) else None
    case BySocketThread(a) =>
      if s.server.Poll? && a.Command? && s.control.pipe != [] && s.control.pipe[0].SendCmd? && Accepts(s.status)
      then Some(s.control.pipe[0].pkg) else None
  }

  /** send_socket does not drop packages. */
  predicate Accepts(st: Status) { st.kind != Invalid && st.kind != HalfcloseWrite && !st.closing }

  predicate Freeing(s: Socket, m: Move) { m.BySocketThread? && (s.server.FreeLists? || s.server.Shut?) }

  /** The packages of `new` are those of `old`, and the one that enters. */
  ghost predicate Becomes(old': seq<Pkg>, new': seq<Pkg>, p: Option<Pkg>)
  {
    forall q :: q in new' <==> q in old' || p == Some(q)
  }

  lemma WorkerFront(s: Socket, t: Tid, a: Act)
    requires LockOk(s) && WorkerOk(s, t) && ListOk(s.lists)
    ensures Becomes(Front(s), Front(WorkerStep(s, t, a)), Entering(s, ByThread(t, a)))
  {
    hide Written, PartPkgs, Pkgs, Fresh, Sends;
    assert Holding(PcOf(s, t)) <==> s.lock == ByWorker(t);
    if PcOf(s, t).Write? {
      var p := PcOf(s, t).p;
      NewPart(s.trail, p, 0, if a.Wrote? && a.n <= p.size then a.n else 0);
    } else if Piping(PcOf(s, t)) {
      assert Front(WorkerStep(s, t, a)) == Front(s);
    } else {
      QuietLine(s, t, a);
      QuietTrail(s, t, a);
      Assoc(PartPkgs(s.trail.parts), New(Hand(s)), New(s.lists.dw));
      var s' := WorkerStep(s, t, a);
      Assoc(PartPkgs(s.trail.parts), New(Hand(s')), New(s'.lists.dw));
      assert Front(s') == Front(s);
    }
  }

  lemma SendFront(s: Socket)
    requires s.server.Poll? && s.control.pipe != [] && s.control.pipe[0].SendCmd?
    ensures Becomes(Front(s), Front(ServerStep(s, Command)), Entering(s, BySocketThread(Command)))
  {
    hide PartPkgs, Pkgs, Fresh, New, Hand, Sends;
    var s', l, p := ServerStep(s, Command), s.lists, s.control.pipe[0].pkg;
    SameHand(s, s');
    PkgsAppend(l.high, Buf(p, 0));
    PkgsAppend(l.low, Buf(p, 0));
    assert [] + [Buf(p, 0)] == [Buf(p, 0)];
  }

  lemma ListFront(s: Socket, a: Act)
    requires WireOk(s) && ListOk(s.lists) && ShapeOk(s) && LockOk(s) && (s.server.SendHigh? || s.server.SendLow?)
    ensures Front(ServerStep(s, a)) == Front(s)
  {
    hide Line, Written, TrailOk, ListOk, HighSent, LowSent, Progress;
    ServerLock(s);
    if s.server.SendHigh? && s.lists.high != [] && a.Wrote? && a.n <= Rest(s.lists.high[0]) {
      HighSentKeepsLine(s.trail, s.lists, [], a.n);
    } else if s.server.SendLow? && s.lists.low != [] && a.Wrote? && a.n <= Rest(s.lists.low[0]) {
      LowSentKeepsLine(s.trail, s.lists, [], a.n);
    }
  }

  lemma PollFront(s: Socket, a: Act)
    requires ListOk(s.lists) && LockOk(s)
    requires !s.server.SendHigh? && !s.server.SendLow? && !s.server.FreeLists? && !s.server.Shut?
    requires s.server.Poll? && a.Command? && s.control.pipe != [] ==> !s.control.pipe[0].SendCmd?
    ensures Front(ServerStep(s, a)) == Front(s)
  {
    hide Taken, PartPkgs, Pkgs, Fresh, New, Sends, ListOk, LockOk, Line;
    ServerLock(s);
    TakenKeepsLine(s.trail, s.lists, []);
    RearmedLine(s.trail, Hand(s), s.lists);
  }

  lemma FreeFront(s: Socket, a: Act, q: Pkg)
    requires ShapeOk(s) && (s.server.FreeLists? || s.server.Shut?)
    ensures q in Front(ServerStep(s, a)) ==> q in Front(s)
  {
    hide PartPkgs;
  }

  /** A step of anybody changes what has left the pipe by what enters, unless it frees the lists. */
  lemma FrontStep(s: Socket, m: Move, q: Pkg)
    requires Inv(s)
    ensures q in Front(Step(s, m)) ==> q in Front(s) || Entering(s, m) == Some(q)
    ensures !Freeing(s, m) && q in Front(s) ==> q in Front(Step(s, m))
  {
    hide Inv, Front, WorkerStep, ServerStep, ListOk, ShapeOk, LockOk, WireOk, OrderOk;
    InvParts(s);
    match m
    case ByThread(t, a) =>
      assert WorkerOk(s, t);
      WorkerFront(s, t, a);
    case BySocketThread(a) =>
      if s.server.SendHigh? || s.server.SendLow? {
        ListFront(s, a);
      } else if s.server.FreeLists? || s.server.Shut? {
        FreeFront(s, a, q);
      } else if s.server.Poll? && a.Command? && s.control.pipe != [] && s.control.pipe[0].SendCmd? {
        SendFront(s);
      } else {
        PollFront(s, a);
      }
  }

  // ---- What is delivered ----

  lemma ClosingStays(s: Socket, m: Move)
    ensures s.status.closing ==> Step(s, m).status.closing
    ensures ServerOk(s) && Gone(s) ==> Gone(Step(s, m))
  {
    hide Written, Tear, HighSent, LowSent, Taken, SendSocket;
  }

  lemma IssuedGrows(s: Socket, m: Move, c: Lane)
    requires QueuesOk(s)
    ensures Issued(Step(s, m).senders, c) >= Issued(s.senders, c)
  {
    hide Sends;
    match m
    case ByThread(t, a) =>
      assert QueueOk(s, t);
      if PcOf(s, t).Write? {
        DirectIssued(s, t, a);
      } else if Piping(PcOf(s, t)) {
        PipedIssued(s, t, a, if PcOf(s, t).Pipe? then PcOf(s, t).p else Pkg(Low, s.senders.tickets, PcOf(s, t).size));
      } else {
        QuietIssued(s, t, a);
      }
    case BySocketThread(a) => ServerControl(s, a);
  }

  lemma Concat(moves: seq<Move>, less: seq<Move>, m: Move)
    ensures Run(moves + (less + [m])) == Step(Run(moves + less), m)
  {
    assert moves + (less + [m]) == (moves + less) + [m];
    RunStep(moves + less, m);
  }

  /** What has left the pipe stays until the socket is closed by force. */
  lemma {:induction false} FrontStays(moves: seq<Move>, more: seq<Move>, p: Pkg)
    requires p in Front(Run(moves))
    ensures p in Front(Run(moves + more)) || Gone(Run(moves + more))
    decreases |more|
  {
    hide Run, Step, Front, Gone, Inv;
    if more == [] {
      assert moves + more == moves;
    } else {
      var less, m := more[..|more| - 1], more[|more| - 1];
      FrontStays(moves, less, p);
      assert less + [m] == more;
      Concat(moves, less, m);
      RunKeeps(moves + less);
      InvParts(Run(moves + less));
      FrontStep(Run(moves + less), m, p);
      ClosingStays(Run(moves + less), m);
      if Freeing(Run(moves + less), m) { FreeingIsGone(Run(moves + less), m); }
    }
  }

  lemma FreeingIsGone(s: Socket, m: Move)
    requires Freeing(s, m)
    ensures Gone(Step(s, m))
  {
    hide Tear;
  }

  /** A socket that does not accept packages never does again. */
  lemma StaysClosed(s: Socket, m: Move)
    requires ServerOk(s) && !Accepts(s.status)
    ensures !Accepts(Step(s, m).status)
  {
    hide Written, Tear, HighSent, LowSent, Taken, SendSocket;
  }

  /** What was in the pipe when the socket stopped accepting packages never leaves it. */
  lemma {:induction false} PipeIsDropped(moves: seq<Move>, more: seq<Move>, p: Pkg)
    requires !Accepts(Run(moves).status) && p !in Front(Run(moves)) && p.num < Issued(Run(moves).senders, p.lane)
    ensures var s := Run(moves + more); !Accepts(s.status) && p !in Front(s) && p.num < Issued(s.senders, p.lane)
    decreases |more|
  {
    hide Run, Step, Front, Inv, Issued, Accepts;
    if more == [] {
      assert moves + more == moves;
    } else {
      var less, m := more[..|more| - 1], more[|more| - 1];
      PipeIsDropped(moves, less, p);
      assert less + [m] == more;
      Concat(moves, less, m);
      var s := Run(moves + less);
      RunKeeps(moves + less);
      InvParts(s);
      FrontStep(s, m, p);
      StaysClosed(s, m);
      IssuedGrows(s, m, p.lane);
      if m.ByThread? && PcOf(s, m.t).Write? {
        assert QueueOk(s, m.t);
        DirectIssued(s, m.t, m.a);
      }
    }
  }

  lemma IntactBefore(s: Socket, m: Move)
    requires KindOk(s) && Intact(Step(s, m))
    ensures Intact(s) && !Freeing(s, m)
    ensures s.server.Poll? ==> Accepts(s.status)
  {
    hide Written, Tear, HighSent, LowSent, Taken, SendSocket, LogOk;
  }

  /** A package stays in the pipe, or enters. */
  lemma SendsStay(s: Socket, m: Move, p: Pkg)
    requires p in Sends(s.control.pipe) && (s.server.Poll? ==> Accepts(s.status))
    ensures p in Sends(Step(s, m).control.pipe) || Entering(s, m) == Some(p)
  {
    hide Sends, WorkerStep, ServerStep, Accepts;
    match m
    case ByThread(t, a) =>
      var ps := WorkerPuts(s, t, a);
    case BySocketThread(a) =>
      ServerControl(s, a);
      if s.control.pipe != [] { SendsHead(s.control.pipe); }
  }

  lemma EnteringFront(s: Socket, m: Move, p: Pkg)
    requires Inv(s) && Entering(s, m) == Some(p)
    ensures p in Front(Step(s, m))
  {
    hide Inv, Front, ListOk, LockOk, WorkerStep, ServerStep;
    InvParts(s);
    match m
    case ByThread(t, a) =>
      assert WorkerOk(s, t);
      WorkerFront(s, t, a);
    case BySocketThread(a) => SendFront(s);
  }

  lemma LineMember(s: Socket, p: Pkg)
    ensures p in LineOf(s) <==> p in Front(s) || p in Sends(s.control.pipe)
  {
    hide Front, LineOf, Sends;
    LineIsFront(s);
  }

  /** As long as nothing is dropped, what has been handed over is on its way, or has arrived. */
  lemma {:induction false} LineStays(moves: seq<Move>, more: seq<Move>, p: Pkg)
    requires p in LineOf(Run(moves)) && Intact(Run(moves + more))
    ensures p in LineOf(Run(moves + more))
    decreases |more|
  {
    hide Run, Step, Front, LineOf, Inv, Intact, Accepts, Entering, Sends, Freeing;
    if more == [] {
      assert moves + more == moves;
    } else {
      var less, m := more[..|more| - 1], more[|more| - 1];
      assert less + [m] == more;
      Concat(moves, less, m);
      var s := Run(moves + less);
      RunKeeps(moves + less);
      InvParts(s);
      IntactBefore(s, m);
      LineStays(moves, less, p);
      LineMember(s, p);
      LineMember(Step(s, m), p);
      if p in Front(s) {
        FrontStep(s, m, p);
      } else {
        SendsStay(s, m, p);
        if Entering(s, m) == Some(p) { EnteringFront(s, m, p); }
      }
    }
  }

  /** Nothing waits to be written. */
  predicate Settled(s: Socket) { Empty(s.lists) && s.lists.dw == None && Hand(s) == None }

  /** The part is a whole package. */
  predicate PartHas(part: Part, p: Pkg) { part.pkg == p && Whole(part) }

  /** The peer has received the whole package. */
  ghost predicate Arrived(s: Socket, p: Pkg)
  {
    exists i :: 0 <= i < |s.trail.parts| && PartHas(s.trail.parts[i], p)
  }

  /** When nothing waits to be written, a package that was handed over has reached the peer, whole, if and only
      if it is not in the pipe any more; but when the socket stopped accepting packages in between, because it
      was closed or writing failed, if and only if it was not in the pipe then. */
  lemma AllDelivered(moves: seq<Move>, more: seq<Move>, p: Pkg)
    requires p in LineOf(Run(moves)) && !Gone(Run(moves + more)) && Settled(Run(moves + more))
    requires Intact(Run(moves + more)) || !Accepts(Run(moves).status)
    ensures Arrived(Run(moves + more), p)
            <==> p !in Sends((if Intact(Run(moves + more)) then Run(moves + more) else Run(moves)).control.pipe)
  {
    hide Run, Inv, Front, LineOf, Intact, Accepts, Gone, Settled, Arrived;
    var s, s' := Run(moves), Run(moves + more);
    RunKeeps(moves);
    RunKeeps(moves + more);
    SettledFront(s', p);
    LineMember(s, p);
    if Intact(s') {
      LineStays(moves, more, p);
      LineMember(s', p);
      OnceInLine(s', p);
    } else {
      OnceInLine(s, p);
      if p in Front(s) {
        FrontStays(moves, more, p);
      } else {
        HandedOver(s, p);
        PipeIsDropped(moves, more, p);
      }
    }
  }

  /** No package has left the pipe and is still in it. */
  lemma OnceInLine(s: Socket, p: Pkg)
    requires Inv(s)
    ensures !(p in Front(s) && p in Sends(s.control.pipe))
  {
    hide Front, LineOf, Sends, Inv;
    var front, sends := Front(s), Sends(s.control.pipe);
    LineIsFront(s);
    LineFacts(s);
    forall i, j | 0 <= i < |front| && 0 <= j < |sends| ensures front[i] != sends[j] {
      assert LineOf(s)[i] == front[i] && LineOf(s)[|front| + j] == sends[j];
    }
  }

  /** When the socket thread finds everything sent, and so closes a socket that is closing, the packages
      that had left the pipe when it was marked as closing have reached the peer, whole, and of those that
      had been handed over no others. */
  lemma GracefulClose(moves: seq<Move>, more: seq<Move>, p: Pkg)
    requires Run(moves).status.closing && p in LineOf(Run(moves)) && Run(moves + more).server == Drained
    ensures Arrived(Run(moves + more), p) <==> p !in Sends(Run(moves).control.pipe)
  {
    hide Run, Inv, Front, LineOf, Arrived;
    RunKeeps(moves + more);
    DrainedSettled(Run(moves + more));
    RunClosing(moves, more);
    AllDelivered(moves, more, p);
  }

  lemma {:induction false} RunClosing(moves: seq<Move>, more: seq<Move>)
    requires Run(moves).status.closing
    ensures Run(moves + more).status.closing
    decreases |more|
  {
    hide Run, Step;
    if more == [] {
      assert moves + more == moves;
    } else {
      var less, m := more[..|more| - 1], more[|more| - 1];
      RunClosing(moves, less);
      assert less + [m] == more;
      Concat(moves, less, m);
      ClosingStays(Run(moves + less), m);
    }
  }

  lemma HandedOver(s: Socket, p: Pkg)
    requires Inv(s) && p in LineOf(s)
    ensures p.num < Issued(s.senders, p.lane)
  {
    hide LineOf;
    assert OrderOk(s);
    var i :| 0 <= i < |LineOf(s)| && LineOf(s)[i] == p;
  }

  lemma DrainedSettled(s: Socket)
    requires Inv(s) && s.server == Drained
    ensures !Gone(s) && Settled(s)
  {
    assert LockOk(s) && s.lock == ByServer;
  }

  lemma SettledFront(s: Socket, p: Pkg)
    requires Inv(s) && !Gone(s) && Settled(s)
    ensures Arrived(s, p) <==> p in Front(s)
  {
    var parts := s.trail.parts;
    assert Progress(Hand(s), s.lists) == None;
    assert Sends([]) == [];
    assert Front(s) == PartPkgs(parts);
    forall i | 0 <= i < |parts| ensures Whole(parts[i]) { if i == |parts| - 1 { assert LastWhole(parts); } }
    if p in PartPkgs(parts) {
      var i :| 0 <= i < |PartPkgs(parts)| && PartPkgs(parts)[i] == p;
      assert PartHas(parts[i], p);
    }
    if i :| 0 <= i < |parts| && PartHas(parts[i], p) { assert PartPkgs(parts)[i] == p; }
  }

  // ---- No gaps ----

  /** The packages have number k of a lane among them. */
  ghost predicate In(ps: seq<Pkg>, c: Lane, k: nat) { exists q :: q in ps && q.lane == c && q.num == k }

  /** Whatever has left the pipe was preceded by all earlier packages of its lane, and so is what a thread is
      about to write directly. */
  ghost predicate GapFree(s: Socket)
  {
    && (forall q, k: nat :: q in Front(s) && k < q.num ==> In(Front(s), q.lane, k))
    && (forall t: Tid, k: nat :: PcOf(s, t).Write? && k < PcOf(s, t).p.num ==> In(Front(s), High(t), k))
  }

  lemma InStays(s: Socket, m: Move, c: Lane, k: nat)
    requires Inv(s) && !Freeing(s, m) && In(Front(s), c, k)
    ensures In(Front(Step(s, m)), c, k)
  {
    hide Inv, Front, Step, Freeing;
    var q :| q in Front(s) && q.lane == c && q.num == k;
    FrontStep(s, m, q);
  }

  /** While nothing has been dropped, a package that is not behind package q, of the same lane, in the pipe has
      left it. */
  lemma LeftBefore(s: Socket, q: Pkg, k: nat)
    requires Inv(s) && Intact(s) && k < q.num
    requires Sends(s.control.pipe) != [] && Sends(s.control.pipe)[0] == q
    ensures In(Front(s), q.lane, k)
  {
    hide Front, LineOf, Sends, Intact;
    LineIsFront(s);
    var line := LineOf(s);
    var n: nat := |Front(s)|;
    LineFacts(s);
    assert line[n] == q;
    assert Has(line, q.lane, k);
    var i: nat :| 0 <= i < |line| && line[i].lane == q.lane && line[i].num == k;
    assert i < n ==> Front(s)[i] in Front(s);
    if i > n { OrderAt(line, s.senders, n, i); }
  }

  lemma LineFacts(s: Socket)
    requires Inv(s)
    ensures Ordered(LineOf(s)) && Below(LineOf(s), s.senders) && (Intact(s) ==> Complete(LineOf(s), s.senders))
  {
    assert OrderOk(s);
  }

  /** A thread with nothing in the pipe: all that it has handed over has left it. */
  lemma LeftAll(s: Socket, t: Tid, k: nat)
    requires Inv(s) && Intact(s) && Others(Sends(s.control.pipe), High(t)) && k < Issued(s.senders, High(t))
    ensures In(Front(s), High(t), k)
  {
    hide Front, LineOf, Sends, Intact;
    LineIsFront(s);
    var line := LineOf(s);
    var n: nat := |Front(s)|;
    LineFacts(s);
    assert Has(line, High(t), k);
    var i: nat :| 0 <= i < |line| && line[i].lane == High(t) && line[i].num == k;
    if i >= n { PipeLane(Front(s), Sends(s.control.pipe), High(t), i); }
    assert i < n ==> Front(s)[i] in Front(s);
  }

  lemma PipeLane(front: seq<Pkg>, sends: seq<Pkg>, c: Lane, i: nat)
    requires Others(sends, c) && |front| <= i < |front + sends|
    ensures (front + sends)[i].lane != c
  {
    assert (front + sends)[i] == sends[i - |front|];
  }

  /** Before a thread writes directly everything it has sent has left the pipe. */
  lemma ReadTypeLeft(s: Socket, t: Tid, k: nat)
    requires Inv(s) && !Gone(s) && PcOf(s, t).ReadType? && s.status.kind == Connected && k < PcOf(s, t).p.num
    ensures In(Front(s), High(t), k)
  {
    hide Front;
    assert QueueOk(s, t);
    assert KindOk(s);
    LeftAll(s, t, k);
  }

  lemma EnteringLeft(s: Socket, m: Move, q: Pkg, k: nat)
    requires Inv(s) && GapFree(s) && !Gone(s) && Entering(s, m) == Some(q) && k < q.num
    ensures In(Front(s), q.lane, k)
  {
    hide Front;
    if m.ByThread? {
      assert QueueOk(s, m.t);
    } else {
      SendsHead(s.control.pipe);
      LeftBefore(s, q, k);
    }
  }

  /** Which threads are about to write directly after a step: those before it, and one that has seen the
      type. */
  lemma WritesNext(s: Socket, m: Move, t: Tid)
    requires PcOf(Step(s, m), t).Write?
    ensures PcOf(s, t) == PcOf(Step(s, m), t)
            || (m.ByThread? && m.t == t && PcOf(s, t).ReadType? && s.status.kind == Connected && PcOf(s, t).p == PcOf(Step(s, m), t).p)
  {
    hide Written;
    match m
    case ByThread(u, a) => if u != t { OtherThread(s, u, a, t); }
    case BySocketThread(a) => ServerControl(s, a);
  }

  lemma GapStep(s: Socket, m: Move)
    requires Inv(s) && !Gone(s) && !Gone(Step(s, m)) && GapFree(s)
    ensures GapFree(Step(s, m))
  {
    hide Inv, Front, Step, In, Entering;
    var s' := Step(s, m);
    NotFreeing(s, m);
    forall q, k: nat | q in Front(s') && k < q.num ensures In(Front(s'), q.lane, k) {
      FrontStep(s, m, q);
      if q !in Front(s) { EnteringLeft(s, m, q, k); }
      InStays(s, m, q.lane, k);
    }
    forall t: Tid, k: nat | PcOf(s', t).Write? && k < PcOf(s', t).p.num ensures In(Front(s'), High(t), k) {
      WritesNext(s, m, t);
      if !PcOf(s, t).Write? { ReadTypeLeft(s, t, k); }
      InStays(s, m, High(t), k);
    }
  }

  lemma NotFreeing(s: Socket, m: Move)
    requires !Gone(s) && !Gone(Step(s, m))
    ensures !Freeing(s, m)
  {
    if Freeing(s, m) { FreeingIsGone(s, m); }
  }

  lemma {:induction false} RunGapFree(moves: seq<Move>)
    ensures Gone(Run(moves)) || GapFree(Run(moves))
    decreases |moves|
  {
    hide GapFree, Step, Gone, Inv;
    if moves == [] {
      StartGapFree();
    } else {
      var init, m := moves[..|moves| - 1], moves[|moves| - 1];
      RunGapFree(init);
      RunKeeps(init);
      InvParts(Run(init));
      ClosingStays(Run(init), m);
      if !Gone(Run(moves)) { GapStep(Run(init), m); }
    }
  }

  lemma StartGapFree()
    ensures GapFree(START)
  {
    assert Front(START) == [];
  }

  /** Nothing is skipped: until the lists are freed, every package that the peer sees comes after all earlier
      packages of its lane, each of which is whole; also when the socket is closing, or can no longer be
      written. */
  lemma NothingSkipped(moves: seq<Move>, j: nat, k: nat) returns (i: nat)
    requires !Gone(Run(moves)) && j < |Run(moves).trail.parts| && k < Run(moves).trail.parts[j].pkg.num
    ensures i < j && Run(moves).trail.parts[i].pkg.lane == Run(moves).trail.parts[j].pkg.lane
    ensures Run(moves).trail.parts[i].pkg.num == k && Whole(Run(moves).trail.parts[i])
  {
    hide Run, Inv, Front, GapFree, Gone, Flat;
    RunKeeps(moves);
    RunGapFree(moves);
    PackagesWhole(moves);
    i := EarlierPart(Run(moves), j, k);
  }

  lemma EarlierPart(s: Socket, j: nat, k: nat) returns (i: nat)
    requires Inv(s) && GapFree(s) && j < |s.trail.parts| && k < s.trail.parts[j].pkg.num
    ensures i < j && s.trail.parts[i].pkg.lane == s.trail.parts[j].pkg.lane && s.trail.parts[i].pkg.num == k
  {
    hide Front, Inv;
    FrontPart(s, j);
    var p := s.trail.parts[j].pkg;
    assert In(Front(s), p.lane, k);
    var q :| q in Front(s) && q.lane == p.lane && q.num == k;
    i :| 0 <= i < |Front(s)| && Front(s)[i] == q;
    if i >= j {
      InLine(s, j, i);
    }
    FrontPart(s, i);
  }

  lemma FrontPart(s: Socket, i: nat)
    requires i < |s.trail.parts|
    ensures i < |Front(s)| && Front(s)[i] == s.trail.parts[i].pkg && Front(s)[i] in Front(s)
  {
  }

  lemma InLine(s: Socket, j: nat, i: nat)
    requires Inv(s) && j <= i < |Front(s)| && Front(s)[i].lane == Front(s)[j].lane
    ensures Front(s)[j].num <= Front(s)[i].num
  {
    hide Front, LineOf;
    LineIsFront(s);
    LineFacts(s);
    assert LineOf(s)[i] == Front(s)[i] && LineOf(s)[j] == Front(s)[j];
  }
}
