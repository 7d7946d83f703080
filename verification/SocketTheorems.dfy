/** The promises of a socket, for every run and every interleaving. */
module SocketTheorems {
  import opened Socket
  import opened SocketProof
  import opened SocketWire
  import opened SocketOrder

  ghost predicate Inv(s: Socket)
  {
    LockOk(s) && WorkersOk(s) && QueuesOk(s) && ServerOk(s) && KindOk(s) && ShapeOk(s) && ListOk(s.lists)
    && (Gone(s) || BytesOk(s.lists)) && SendingOk(s) && WireOk(s) && OrderOk(s)
  }

  lemma StartOrder()
    ensures OrderOk(START) && WireOk(START)
  {
    assert LineOf(START) == [];
    assert forall c: Lane :: Issued(START.senders, c) == 0;
  }

  lemma StartSending()
    ensures SendingOk(START) && LockOk(START) && WorkersOk(START) && QueuesOk(START)
  {
    var none: set<Tid> := {};
    assert Pipers(START) == none;
  }

  lemma StartInv()
    ensures Inv(START)
  {
    hide OrderOk, WireOk, SendingOk, LockOk, WorkersOk, QueuesOk;
    StartOrder();
    StartSending();
  }

  lemma StepKeeps(s: Socket, m: Move)
    requires Inv(s)
    ensures Inv(Step(s, m))
  {
    hide WorkerStep, ServerStep, LockOk, QueueOk, ServerOk, KindOk, ShapeOk, ListOk, Gone, BytesOk, SendingOk, WireOk, OrderOk;
    hide WorkerOk;
    match m
    case ByThread(t, a) =>
      assert WorkerOk(s, t);
      WorkerKeepsLock(s, t, a);
      WorkerKeepsWorkers(s, t, a);
      WorkerKeepsQueues(s, t, a);
      WorkerKeepsKind(s, t, a);
      WorkerKeepsLists(s, t, a);
      WorkerKeepsBytes(s, t, a);
      WorkerKeepsSending(s, t, a);
      WorkerKeepsWire(s, t, a);
      WorkerKeepsOrder(s, t, a);
      KindGivesServer(WorkerStep(s, t, a));
    case BySocketThread(a) =>
      ServerKeepsLock(s, a);
      ServerKeepsWorkers(s, a);
      ServerKeepsQueues(s, a);
      ServerKeepsKind(s, a);
      ServerKeepsLists(s, a);
      ServerKeepsShape(s, a);
      ServerKeepsBytes(s, a);
      ServerKeepsSending(s, a);
      ServerKeepsWire(s, a);
      ServerKeepsOrder(s, a);
      KindGivesServer(ServerStep(s, a));
  }

  lemma KindGivesServer(s: Socket)
    requires KindOk(s)
    ensures ServerOk(s)
  {
  }

  lemma {:induction false} RunKeeps(moves: seq<Move>)
    ensures Inv(Run(moves))
  {
    hide Inv, Step;
    if moves == [] {
      StartInv();
    } else {
      RunKeeps(moves[..|moves| - 1]);
      StepKeeps(Run(moves[..|moves| - 1]), moves[|moves| - 1]);
    }
  }

  lemma RunStep(moves: seq<Move>, m: Move)
    ensures Run(moves + [m]) == Step(Run(moves), m)
  {
    assert (moves + [m])[..|moves|] == moves;
  }

  // ---- The lock and the lists ----

  /** At most one thread is between taking and giving back the lock, and then the socket thread is not
      sending. */
  lemma OneWriter(moves: seq<Move>, t: Tid, u: Tid)
    requires Holding(PcOf(Run(moves), t))
    ensures Holding(PcOf(Run(moves), u)) ==> u == t
    ensures !Sending(Run(moves).server)
  {
    hide Run;
    RunKeeps(moves);
    var s := Run(moves);
    assert LockOk(s);
    assert Holding(PcOf(s, u)) <==> s.lock == ByWorker(u);
    assert Holding(PcOf(s, t)) <==> s.lock == ByWorker(t);
  }

  /** wb_size is the number of unsent bytes in the lists. */
  lemma SizeExact(moves: seq<Move>)
    requires !Gone(Run(moves))
    ensures var l := Run(moves).lists; l.wbSize == Total(l.high) + Total(l.low)
  {
    hide Run;
    RunKeeps(moves);
  }

  /** The assertions of send_buffer_, raise_uncomplete and dec_sending_ref. */
  lemma AssertionsHold(moves: seq<Move>)
    ensures var s := Run(moves);
            Clean(s.lists.low)
            && (s.server.SendLow? ==> s.lists.high == [])
            && (s.server.Drained? ==> s.lists.high == [] && s.lists.low == [] && s.lists.wbSize == 0)
            && (s.server.DecSending? ==> s.control.sending != 0)
  {
    hide Run;
    RunKeeps(moves);
  }

  /** `sending` counts what is on its way through the pipe: no more, no less, in 16 bits. */
  lemma SendingExact(moves: seq<Move>)
    ensures var s := Run(moves);
            s.control.sending == |Sends(s.control.pipe)| + |Pipers(s)| + if s.server.DecSending? then 1 else 0
  {
    hide Run;
    RunKeeps(moves);
  }

  // ---- What the peer sees ----

  /** The peer sees packages one after the other, each a beginning of one package; all but the last are
      whole for as long as nobody has begun to close the socket by force. */
  lemma PackagesWhole(moves: seq<Move>)
    ensures var s := Run(moves);
            s.trail.wire == Flat(s.trail.parts) && Fits(s.trail.parts) && (!Gone(s) ==> Contiguous(s.trail.parts))
  {
    hide Run;
    RunKeeps(moves);
  }

  /** A direct write that starts a package although the last one that the peer sees is not whole. */
  predicate WritesBehindPart(s: Socket, m: Move)
  {
    !LastWhole(s.trail.parts) && m.ByThread?
    && var pc := PcOf(s, m.t);
       pc.Write? && Starts(pc.p, 0, if m.a.Wrote? && m.a.n <= pc.p.size then m.a.n else 0)
  }

  /** In every run packages are whole until, and only until, a direct write slips in between the freeing
      of the lists and the taking of the lock in force_close, and the last package was not whole. */
  lemma ContiguousExactly(moves: seq<Move>, m: Move)
    ensures Contiguous(Run(moves + [m]).trail.parts)
            <==> Contiguous(Run(moves).trail.parts) && !WritesBehindPart(Run(moves), m)
    ensures Contiguous(Run(moves).trail.parts) && WritesBehindPart(Run(moves), m) ==> Run(moves).server.Shut?
  {
    hide Run, TrailOk;
    RunStep(moves, m);
    RunKeeps(moves);
    RunKeeps(moves + [m]);
    var s := Run(moves);
    BrokenBy(s, m);
    TrailMeans(s.trail, Progress(Hand(s), s.lists));
    TrailMeans(Run(moves + [m]).trail, Progress(Hand(Run(moves + [m])), Run(moves + [m]).lists));
    if m.ByThread? && PcOf(s, m.t).Write? { NothingInProgress(s, m.t); }
  }

  lemma TrailMeans(w: Trail, b: Option<Buf>)
    requires TrailOk(w, b)
    ensures (w.broken <==> !Contiguous(w.parts)) && (w.broken ==> w.torn)
    ensures !w.broken && b.None? ==> (w.torn <==> !LastWhole(w.parts))
  {
  }

  /** Who is about to write directly is in the middle of nothing. */
  lemma NothingInProgress(s: Socket, t: Tid)
    requires Inv(s) && PcOf(s, t).Write?
    ensures Progress(Hand(s), s.lists) == None && s.status.kind != Invalid
  {
    assert WorkerOk(s, t);
    assert Holding(PcOf(s, t)) <==> s.lock == ByWorker(t);
  }

  lemma BrokenBy(s: Socket, m: Move)
    requires Inv(s)
    ensures Step(s, m).trail.broken
            <==> s.trail.broken
                 || (s.trail.torn && m.ByThread? && PcOf(s, m.t).Write?
                     && Starts(PcOf(s, m.t).p, 0, if m.a.Wrote? && m.a.n <= PcOf(s, m.t).p.size then m.a.n else 0))
  {
    hide Inv;
    InvTorn(s);
  }

  lemma InvTorn(s: Socket)
    requires Inv(s)
    ensures s.trail.torn ==> !s.server.SendHigh? && !s.server.SendLow?
  {
  }

  /** Nothing reaches the peer once the socket is invalid. */
  lemma InvalidIsSilent(moves: seq<Move>, m: Move)
    requires Run(moves).status.kind == Invalid
    ensures Run(moves + [m]).trail.wire == Run(moves).trail.wire && Run(moves + [m]).status == Run(moves).status
  {
    hide Run;
    RunStep(moves, m);
    RunKeeps(moves);
    if m.ByThread? {
      assert WorkerOk(Run(moves), m.t);
    }
    Silent(Run(moves), m);
  }

  lemma Silent(s: Socket, m: Move)
    requires s.status.kind == Invalid && ServerOk(s) && (m.ByThread? ==> WorkerOk(s, m.t))
    ensures Step(s, m).trail.wire == s.trail.wire && Step(s, m).status == s.status
  {
    hide SendSocket;
  }

  /** High-priority packages of one sender reach the peer in the order of its calls, low-priority packages
      in the order in which they entered the pipe; no package is seen twice, and none that was not sent. */
  lemma InOrder(moves: seq<Move>, i: nat, j: nat)
    requires i < j < |Run(moves).trail.parts|
    ensures var p, q := Run(moves).trail.parts[i].pkg, Run(moves).trail.parts[j].pkg;
            (p.lane == q.lane ==> p.num < q.num) && p.num < Issued(Run(moves).senders, p.lane)
  {
    hide Run, Ordered;
    RunKeeps(moves);
    var s := Run(moves);
    LinePart(s, i);
    LinePart(s, j);
    OrderAt(LineOf(s), s.senders, i, j);
  }

  lemma LinePart(s: Socket, i: nat)
    requires i < |s.trail.parts|
    ensures i < |LineOf(s)| && LineOf(s)[i] == s.trail.parts[i].pkg
  {
  }

  lemma OrderAt(line: seq<Pkg>, w: Senders, i: nat, j: nat)
    requires Ordered(line) && Below(line, w) && i < j < |line|
    ensures (line[i].lane == line[j].lane ==> line[i].num < line[j].num) && line[i].num < Issued(w, line[i].lane)
  {
  }

  // ---- Closing ----

  /** SOCKET_CLOSE is reported at most once, exactly when the socket can no longer be read, and no
      SOCKET_DATA follows it. */
  lemma ClosedOnce(moves: seq<Move>)
    ensures var s := Run(moves);
            Closes(s.status.log) == (if s.status.kind == HalfcloseRead || s.status.kind == Invalid then 1 else 0)
            && DataFirst(s.status.log)
  {
    hide Run;
    RunKeeps(moves);
  }

  /** A socket that is closing is half closed, up to the instant between the two assignments of
      close_socket. */
  lemma ClosingIsHalfclosed(moves: seq<Move>)
    requires Run(moves).status.closing
    ensures var s := Run(moves); s.status.kind == HalfcloseRead || s.status.kind == Invalid || s.server == CloseRead
  {
    hide Run;
    RunKeeps(moves);
  }

  // ---- The window in force_close ----

  /** Nobody is sending, and t may write directly. */
  predicate Quiet(s: Socket, t: Tid)
  {
    s.lock == Free && Empty(s.lists) && s.lists.dw == None && s.control.sending == 0
    && s.status.kind == Connected && !s.status.closing && PcOf(s, t) == Idle
  }

  lemma Direct(moves: seq<Move>, t: Tid, size: nat) returns (moves': seq<Move>)
    requires Quiet(Run(moves), t)
    ensures var s, s' := Run(moves), Run(moves');
            PcOf(s', t) == Write(Pkg(High(t), Calls(s.senders, t), size)) && s'.lock == ByWorker(t)
            && s'.trail == s.trail && s'.lists == s.lists && s'.control == s.control && s'.server == s.server
            && s'.status == s.status
            && forall u: Tid :: u != t ==> PcOf(s', u) == PcOf(s, u) && Calls(s'.senders, u) == Calls(s.senders, u)
  {
    hide Run;
    moves' := moves + [ByThread(t, Send(size))];
    RunStep(moves, ByThread(t, Send(size)));
    var i := 0;
    var p := Pkg(High(t), Calls(Run(moves).senders, t), size);
    var pcs := [First(p), TryLock(p), ReadHigh(p), ReadLow(p), ReadDw(p), ReadSending(p), ReadType(p), Write(p)];
    while i < 7
      invariant 0 <= i <= 7
      invariant var s, s' := Run(moves), Run(moves');
            PcOf(s', t) == pcs[i] && s'.lock == (if i < 2 then Free else ByWorker(t))
            && s'.trail == s.trail && s'.lists == s.lists && s'.control == s.control && s'.server == s.server
            && s'.status == s.status
            && forall u: Tid :: u != t ==> PcOf(s', u) == PcOf(s, u) && Calls(s'.senders, u) == Calls(s.senders, u)
    {
      RunStep(moves', ByThread(t, Go));
      moves' := moves' + [ByThread(t, Go)];
      i := i + 1;
    }
  }

  const FIRST := Pkg(High(0), 0, 2)
  const SECOND := Pkg(High(1), 0, 1)

  /** The first package was written in part; thread 0 is at pc and the socket thread at server. */
  predicate Stage(s: Socket, pc: WorkerPc, lock: Lock, server: ServerPc, l: Lists, c: Control)
  {
    PcOf(s, 0) == pc && PcOf(s, 1) == Idle && Calls(s.senders, 1) == 0 && s.lock == lock && s.server == server
    && s.lists == l && s.control == c && s.status.kind == Connected && !s.status.closing
    && s.trail.parts == [Part(FIRST, 1)] && s.trail.torn == s.server.Shut?
  }

  const NOTHING := Lists([], [], 0, None, false)
  const DIRECT := NOTHING.(dw := Some(Buf(FIRST, 1)))
  const LISTED := Lists([Buf(FIRST, 1)], [], 1, None, true)
  const NO_COMMANDS := Control([], 0)

  lemma ByFirst(s: Socket)
    ensures Stage(s, SetDw(FIRST, 1), ByWorker(0), Poll, NOTHING, NO_COMMANDS) ==>
              Stage(WorkerStep(s, 0, Go), UnlockWake, ByWorker(0), Poll, DIRECT, NO_COMMANDS)
    ensures Stage(s, UnlockWake, ByWorker(0), Poll, DIRECT, NO_COMMANDS) ==>
              Stage(WorkerStep(s, 0, Go), Wake, Free, Poll, DIRECT, NO_COMMANDS)
    ensures Stage(s, Wake, Free, Poll, DIRECT, NO_COMMANDS) ==>
              Stage(WorkerStep(s, 0, Go), Idle, Free, Poll, DIRECT, Control([WakeCmd], 0))
    ensures Stage(s, Idle, Free, Poll, LISTED, NO_COMMANDS) ==>
              Stage(WorkerStep(s, 0, Close(true)), Idle, Free, Poll, LISTED, Control([CloseCmd(true)], 0))
  {
    hide Written;
  }

  lemma BySocket(s: Socket)
    ensures Stage(s, Idle, Free, Poll, DIRECT, Control([WakeCmd], 0)) ==>
              Stage(ServerStep(s, Command), Idle, Free, Poll, DIRECT.(armed := true), NO_COMMANDS)
    ensures Stage(s, Idle, Free, Poll, DIRECT.(armed := true), NO_COMMANDS) ==>
              Stage(ServerStep(s, CanWrite), Idle, ByServer, SendHigh, LISTED, NO_COMMANDS)
    ensures Stage(s, Idle, ByServer, SendHigh, LISTED, NO_COMMANDS) ==>
              Stage(ServerStep(s, Again), Idle, ByServer, Unlock, LISTED, NO_COMMANDS)
    ensures Stage(s, Idle, ByServer, Unlock, LISTED, NO_COMMANDS) ==>
              Stage(ServerStep(s, Go), Idle, Free, Poll, LISTED, NO_COMMANDS)
  {
    hide Written;
    assert [Buf(FIRST, 1)] + [] == [Buf(FIRST, 1)];
    assert [WakeCmd][1..] == [];
  }

  lemma BySocketClosing(s: Socket)
    ensures Stage(s, Idle, Free, Poll, LISTED, Control([CloseCmd(true)], 0)) ==>
              Stage(ServerStep(s, Command), Idle, Free, FreeLists(true), LISTED, NO_COMMANDS)
    ensures Stage(s, Idle, Free, FreeLists(true), LISTED, NO_COMMANDS) ==>
              Stage(ServerStep(s, Go), Idle, Free, Shut(true), LISTED.(high := []), NO_COMMANDS)
  {
    hide Written;
    assert [CloseCmd(true)][1..] == [];
  }

  lemma FirstPart(s: Socket)
    requires PcOf(s, 0) == Write(FIRST) && PcOf(s, 1) == Idle && Calls(s.senders, 1) == 0 && s.lock == ByWorker(0)
    requires s.server == Poll && s.lists == NOTHING && s.control == NO_COMMANDS && s.status == START.status
    requires s.trail == START.trail
    ensures Stage(WorkerStep(s, 0, Wrote(1)), SetDw(FIRST, 1), ByWorker(0), Poll, NOTHING, NO_COMMANDS)
  {
  }

  /** The first package is written in part; its rest is in the high list, and the lists have been freed. */
  lemma TornHead() returns (moves: seq<Move>)
    ensures Stage(Run(moves), Idle, Free, Shut(true), LISTED.(high := []), NO_COMMANDS)
  {
    hide Run, Stage, WorkerStep, ServerStep;
    moves := Nothing();
    moves := Direct(moves, 0, 2);
    FirstPart(Run(moves));
    moves := Then(moves, ByThread(0, Wrote(1)));
    ByFirst(Run(moves));
    moves := Then(moves, ByThread(0, Go));
    ByFirst(Run(moves));
    moves := Then(moves, ByThread(0, Go));
    ByFirst(Run(moves));
    moves := Then(moves, ByThread(0, Go));
    BySocket(Run(moves));
    moves := Then(moves, BySocketThread(Command));
    BySocket(Run(moves));
    moves := Then(moves, BySocketThread(CanWrite));
    BySocket(Run(moves));
    moves := Then(moves, BySocketThread(Again));
    BySocket(Run(moves));
    moves := Then(moves, BySocketThread(Go));
    ByFirst(Run(moves));
    moves := Then(moves, ByThread(0, Close(true)));
    BySocketClosing(Run(moves));
    moves := Then(moves, BySocketThread(Command));
    BySocketClosing(Run(moves));
    moves := Then(moves, BySocketThread(Go));
  }

  lemma Nothing() returns (moves: seq<Move>)
    ensures Run(moves) == START
  {
    moves := [];
  }

  lemma Then(moves: seq<Move>, m: Move) returns (moves': seq<Move>)
    ensures Run(moves') == Step(Run(moves), m)
  {
    moves' := moves + [m];
    RunStep(moves, m);
  }

  lemma SecondPart(s: Socket)
    requires PcOf(s, 1) == Write(SECOND) && s.trail.parts == [Part(FIRST, 1)]
    ensures WorkerStep(s, 1, Wrote(1)).trail.parts == [Part(FIRST, 1), Part(SECOND, 1)]
  {
  }

  /** The condition of ContiguousExactly is not idle: a shutdown that races with a direct write lets the
      peer see the beginning of one package followed by another. */
  lemma TornRun() returns (moves: seq<Move>)
    ensures Run(moves).trail.parts == [Part(FIRST, 1), Part(SECOND, 1)] && !Contiguous(Run(moves).trail.parts)
  {
    hide Run, WorkerStep;
    moves := TornHead();
    moves := Direct(moves, 1, 1);
    SecondPart(Run(moves));
    moves := Then(moves, ByThread(1, Wrote(1)));
    assert !Whole(Run(moves).trail.parts[0]);
  }
}
