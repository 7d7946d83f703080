/** What every run of a socket keeps: the lists, the lock, the references of the pipe and the events. */
module SocketProof {
  import opened Socket

  predicate Clean(bs: seq<Buf>) { forall i | 0 <= i < |bs| :: bs[i].off == 0 }

  predicate AllLow(bs: seq<Buf>) { forall i | 0 <= i < |bs| :: bs[i].pkg.lane.Low? }

  predicate NoneIn(bs: seq<Buf>, c: Lane) { forall i | 0 <= i < |bs| :: bs[i].pkg.lane != c }

  /** The lists are sent to the end, and nobody else can write. */
  predicate Sending(pc: ServerPc)
  {
    pc.SendHigh? || pc.SendLow? || pc.Drained? || pc.CloseWrite? || pc.Unlock?
  }

  predicate Holding(pc: WorkerPc)
  {
    pc.ReadHigh? || pc.ReadLow? || pc.ReadDw? || pc.ReadSending? || pc.ReadType? || pc.Write? || pc.SetDw?
    || pc.UnlockDone? || pc.UnlockWake? || pc.UnlockBusy?
  }

  /** Has found nothing of its own in the pipe, and has not decided yet. */
  predicate PastFirst(pc: WorkerPc) { pc.TryLock? || pc.ReadHigh? || PastHigh(pc) }

  /** Has found the high list empty. */
  predicate PastHigh(pc: WorkerPc) { pc.ReadLow? || PastDw(pc) || pc.ReadDw? }

  /** Has found no package that was written directly. */
  predicate PastDw(pc: WorkerPc) { pc.ReadSending? || pc.ReadType? || pc.Write? || pc.SetDw? }

  // ---- The lists ----

  predicate BufOk(b: Buf) { b.off <= b.pkg.size && (b.off > 0 ==> b.off < b.pkg.size) }

  /** Only the first package of the high list, or the one that was written directly, has been started. */
  predicate ListOk(l: Lists)
  {
    Clean(l.low) && AllLow(l.low)
    && (l.high != [] ==> BufOk(l.high[0]) && Clean(l.high[1..]))
    && (l.dw.Some? ==> BufOk(l.dw.value) && Clean(l.high))
  }

  predicate Empty(l: Lists) { l.high == [] && l.low == [] }

  predicate ShapeOk(s: Socket)
  {
    (s.lock == ByServer ==> s.lists.dw == None)
    && (s.server.SendLow? ==> s.lists.high == [])
    && (s.server.Drained? || s.server.AskDw? || s.server.AskSending? || Gone(s) ==> Empty(s.lists))
    && (s.status.kind == Invalid ==> s.lists.dw == None)
  }

  /** The socket has been closed, or is about to be. */
  predicate Gone(s: Socket) { s.status.kind == Invalid || s.server.Shut? }

  ghost predicate LockOk(s: Socket)
  {
    (forall t: Tid :: Holding(PcOf(s, t)) <==> s.lock == ByWorker(t))
    && (Sending(s.server) ==> s.lock == ByServer)
    && (s.lock == ByServer ==> Sending(s.server) || s.server.FreeLists? || s.server.Shut?)
  }

  predicate WorkerOk(s: Socket, t: Tid)
  {
    var pc := PcOf(s, t);
    (PastHigh(pc) ==> Clean(s.lists.high) && NoneIn(s.lists.high, High(t)))
    && (PastDw(pc) ==> s.lists.dw == None)
    && (pc.Write? || pc.SetDw? ==> s.status.kind != Invalid)
    && (pc.SetDw? ==> pc.n < pc.p.size)
  }

  ghost predicate WorkersOk(s: Socket) { forall t: Tid :: WorkerOk(s, t) }

  // ---- The type and the events ----

  function Closes(log: seq<Event>): nat
  {
    if log == [] then 0 else Closes(log[..|log| - 1]) + if log[|log| - 1] == CloseEvent then 1 else 0
  }

  predicate DataFirst(log: seq<Event>)
  {
    forall i, j | 0 <= i < j < |log| :: log[i] == CloseEvent ==> log[j] != DataEvent
  }

  /** What the socket thread remembers about the type while it acts. */
  predicate ServerOk(s: Socket)
  {
    match s.server
    case Poll => true
    case DecSending => true
    case AskDw(why) => WhyOk(s, why)
    case AskSending(why) => WhyOk(s, why)
    case SetClosing(halfRead) => s.status.kind != Invalid && s.status.kind != HalfcloseWrite && halfRead == (s.status.kind == HalfcloseRead)
    case CloseRead => s.status.kind == Connected
    case FreeLists(raise) => s.status.kind != Invalid && raise == (s.status.kind != HalfcloseRead)
    case Shut(raise) => s.status.kind != Invalid && raise == (s.status.kind != HalfcloseRead)
    case _ => s.status.kind != Invalid
  }

  predicate WhyOk(s: Socket, why: Why)
  {
    s.status.kind != Invalid
    && match why
       case ToClose(halfRead) => halfRead == (s.status.kind == HalfcloseRead)
       case AfterEof => s.status.closing
  }

  predicate LogOk(kind: Type, log: seq<Event>)
  {
    Closes(log) == (if kind == HalfcloseRead || kind == Invalid then 1 else 0)
    && (Closes(log) == 0 ==> CloseEvent !in log)
    && DataFirst(log)
  }

  predicate KindOk(s: Socket)
  {
    ServerOk(s)
    && (s.status.closing ==> s.status.kind == HalfcloseRead || s.status.kind == Invalid || s.server == CloseRead)
    && LogOk(s.status.kind, s.status.log)
  }

  lemma LogGrows(log: seq<Event>, e: Event)
    ensures Closes(log + [e]) == Closes(log) + if e == CloseEvent then 1 else 0
    ensures DataFirst(log) && (e == DataEvent ==> CloseEvent !in log) ==> DataFirst(log + [e])
  {
    assert (log + [e])[..|log|] == log;
  }

  lemma LogKept(kind: Type, log: seq<Event>)
    requires LogOk(kind, log)
    ensures LogOk(kind, log + [ErrEvent])
    ensures kind == Connected ==> LogOk(HalfcloseWrite, log + [ErrEvent])
    ensures kind != HalfcloseRead && kind != Invalid ==> LogOk(kind, log + [DataEvent])
    ensures kind != HalfcloseRead && kind != Invalid ==>
              LogOk(HalfcloseRead, log + [CloseEvent]) && LogOk(Invalid, log + [CloseEvent])
    ensures kind == HalfcloseRead ==> LogOk(Invalid, log)
  {
    hide Closes, DataFirst;
    LogGrows(log, CloseEvent);
    LogGrows(log, ErrEvent);
    LogGrows(log, DataEvent);
  }

  lemma WorkerKeepsKind(s: Socket, t: Tid, a: Act)
    requires KindOk(s)
    ensures KindOk(WorkerStep(s, t, a))
  {
    hide LogOk, Written;
    var s' := WorkerStep(s, t, a);
    assert s'.status == s.status && s'.server == s.server;
  }

  lemma ServerKeepsKind(s: Socket, a: Act)
    requires KindOk(s)
    ensures KindOk(ServerStep(s, a))
  {
    hide KindOk;
    if s.server.Poll? { PollKeepsKind(s, a); } else { ActKeepsKind(s, a); }
  }

  lemma PollKeepsKind(s: Socket, a: Act)
    requires KindOk(s) && s.server.Poll?
    ensures KindOk(ServerStep(s, a))
  {
    hide LogOk, Taken, SendSocket;
    LogKept(s.status.kind, s.status.log);
  }

  lemma ActKeepsKind(s: Socket, a: Act)
    requires KindOk(s) && !s.server.Poll?
    ensures KindOk(ServerStep(s, a))
  {
    hide LogOk, HighSent, LowSent, Written, Tear, PollStep;
    LogKept(s.status.kind, s.status.log);
  }

  // ---- Unsent bytes ----

  function Total(bs: seq<Buf>): nat
  {
    if bs == [] then 0 else Rest(bs[0]) + Total(bs[1..])
  }

  lemma TotalAppend(bs: seq<Buf>, b: Buf)
    ensures Total(bs + [b]) == Total(bs) + Rest(b)
  {
    if bs == [] {
      assert (bs + [b])[1..] == [];
    } else {
      assert (bs + [b])[1..] == bs[1..] + [b];
    }
  }

  lemma TotalCons(b: Buf, bs: seq<Buf>)
    ensures Total([b] + bs) == Rest(b) + Total(bs)
  {
    assert ([b] + bs)[1..] == bs;
  }

  predicate BytesOk(l: Lists) { l.wbSize == Total(l.high) + Total(l.low) }

  lemma SendKeepsBytes(l: Lists, st: Status, p: Pkg)
    requires BytesOk(l)
    ensures BytesOk(SendSocket(l, st, p))
  {
    hide Total;
    TotalAppend(l.high, Buf(p, 0));
    TotalAppend(l.low, Buf(p, 0));
    assert [] + [Buf(p, 0)] == [Buf(p, 0)];
  }

  lemma TakenKeepsBytes(l: Lists)
    requires BytesOk(l)
    ensures BytesOk(Taken(l))
  {
    if l.dw.Some? {
      TotalCons(l.dw.value, l.high);
    }
  }

  lemma HeadTotal(b: Buf, bs: seq<Buf>, n: nat)
    requires b.off <= b.pkg.size && n <= Rest(b)
    ensures Total([Buf(b.pkg, b.off + n)] + bs) == Total([b] + bs) - n
    ensures n == Rest(b) ==> Total(bs) == Total([b] + bs) - n
  {
    TotalCons(b, bs);
    TotalCons(Buf(b.pkg, b.off + n), bs);
  }

  lemma HighSentKeepsBytes(l: Lists, n: nat)
    requires BytesOk(l) && l.high != [] && l.high[0].off <= l.high[0].pkg.size && n <= Rest(l.high[0])
    ensures BytesOk(HighSent(l, n))
  {
    hide Total;
    assert l.high == [l.high[0]] + l.high[1..];
    HeadTotal(l.high[0], l.high[1..], n);
  }

  lemma LowSentKeepsBytes(l: Lists, n: nat)
    requires BytesOk(l) && l.low != [] && l.low[0].off <= l.low[0].pkg.size && n <= Rest(l.low[0])
    requires l.high == []
    ensures BytesOk(LowSent(l, n))
  {
    hide Total;
    assert l.low == [l.low[0]] + l.low[1..];
    HeadTotal(l.low[0], l.low[1..], n);
    TotalCons(l.low[0], l.low[1..]);
    TotalCons(Buf(l.low[0].pkg, l.low[0].off + n), []);
    assert [Buf(l.low[0].pkg, l.low[0].off + n)] + [] == [Buf(l.low[0].pkg, l.low[0].off + n)];
    EmptyTotal();
  }

  lemma EmptyTotal()
    ensures Total([]) == 0
  {
  }

  lemma WorkerKeepsBytes(s: Socket, t: Tid, a: Act)
    requires Gone(s) || BytesOk(s.lists)
    ensures var s' := WorkerStep(s, t, a); Gone(s') || BytesOk(s'.lists)
  {
    hide BytesOk;
    DwIsNotListed(s.lists, PcOf(s, t));
  }

  /** What the poller is asked for has nothing to do with what is in the lists. */
  lemma Rearmed(l: Lists)
    ensures forall armed: bool :: BytesOk(l.(armed := armed)) == BytesOk(l) && ListOk(l.(armed := armed)) == ListOk(l)
  {
  }

  lemma DwIsNotListed(l: Lists, pc: WorkerPc)
    ensures pc.SetDw? && BytesOk(l) ==> BytesOk(l.(dw := Some(Buf(pc.p, pc.n))))
  {
  }

  lemma ServerKeepsBytes(s: Socket, a: Act)
    requires (Gone(s) || BytesOk(s.lists)) && ListOk(s.lists) && ShapeOk(s) && ServerOk(s)
    ensures var s' := ServerStep(s, a); Gone(s') || BytesOk(s'.lists)
  {
    hide BytesOk, Total, HighSent, LowSent, Taken, SendSocket, Written, Tear;
    Rearmed(s.lists);
    if s.server.Poll? && a.Command? && s.control.pipe != [] && s.control.pipe[0].SendCmd? {
      if s.status.kind != Invalid {
        SendKeepsBytes(s.lists, s.status, s.control.pipe[0].pkg);
      }
    } else if s.server.Poll? && a.CanWrite? && s.status.kind != Invalid {
      TakenKeepsBytes(s.lists);
    } else if s.server.SendHigh? && s.lists.high != [] && a.Wrote? && a.n <= Rest(s.lists.high[0]) {
      HighSentKeepsBytes(s.lists, a.n);
    } else if s.server.SendLow? && s.lists.low != [] && a.Wrote? && a.n <= Rest(s.lists.low[0]) {
      LowSentKeepsBytes(s.lists, a.n);
    }
  }

  // ---- References of the pipe ----

  function Sends(pipe: seq<Cmd>): seq<Pkg>
  {
    if pipe == [] then [] else (if pipe[0].SendCmd? then [pipe[0].pkg] else []) + Sends(pipe[1..])
  }

  lemma SendsAppend(pipe: seq<Cmd>, c: Cmd)
    ensures Sends(pipe + [c]) == Sends(pipe) + if c.SendCmd? then [c.pkg] else []
  {
    if pipe == [] {
      assert (pipe + [c])[1..] == [];
    } else {
      assert (pipe + [c])[1..] == pipe[1..] + [c];
    }
  }

  predicate Piping(pc: WorkerPc) { pc.Pipe? || pc.PipeLow? }

  ghost function Pipers(s: Socket): set<Tid>
  {
    set t | t in s.senders.pcs && Piping(s.senders.pcs[t])
  }

  /** `sending` counts the threads and the commands between inc_sending_ref and dec_sending_ref. */
  ghost predicate SendingOk(s: Socket)
  {
    s.control.sending == |Sends(s.control.pipe)| + |Pipers(s)| + if s.server.DecSending? then 1 else 0
  }

  lemma PipersAfter(s: Socket, s': Socket, t: Tid, pc: WorkerPc)
    requires s'.senders.pcs == s.senders.pcs[t := pc]
    ensures Pipers(s') == if Piping(pc) then Pipers(s) + {t} else Pipers(s) - {t}
    ensures t in Pipers(s) <==> Piping(PcOf(s, t))
  {
  }

  lemma PipersSame(s: Socket, s': Socket)
    requires s'.senders.pcs == s.senders.pcs
    ensures Pipers(s') == Pipers(s)
  {
  }

  predicate Quietly(pc: WorkerPc, a: Act)
  {
    !pc.Wake? && !pc.Inc? && !Piping(pc) && !pc.IncLow? && (pc.Idle? ==> !a.Close?)
  }

  lemma QuietControl(s: Socket, t: Tid, a: Act)
    requires Quietly(PcOf(s, t), a)
    ensures var s' := WorkerStep(s, t, a);
            s'.control == s.control && s'.server == s.server && !Piping(PcOf(s', t))
            && (s'.senders.pcs == s.senders.pcs || s'.senders.pcs == s.senders.pcs[t := PcOf(s', t)])
  {
    hide Written;
  }

  /** A thread whose next step is not to count or to put: nothing changes. */
  lemma OthersKeepSending(s: Socket, t: Tid, a: Act)
    requires SendingOk(s) && Quietly(PcOf(s, t), a)
    ensures SendingOk(WorkerStep(s, t, a))
  {
    hide Sends, Pipers, WorkerStep;
    var s' := WorkerStep(s, t, a);
    QuietControl(s, t, a);
    if s'.senders.pcs == s.senders.pcs {
      PipersSame(s, s');
    } else {
      PipersAfter(s, s', t, PcOf(s', t));
    }
  }

  lemma WorkerKeepsSending(s: Socket, t: Tid, a: Act)
    requires SendingOk(s)
    ensures SendingOk(WorkerStep(s, t, a))
  {
    hide Sends, Pipers, DirectWrite;
    var s' := WorkerStep(s, t, a);
    var pc := PcOf(s, t);
    if pc.Wake? || Piping(pc) {
      PipersAfter(s, s', t, Idle);
      SendsAppend(s.control.pipe, s'.control.pipe[|s.control.pipe|]);
    } else if (pc.Inc? || pc.IncLow?) && s.control.sending < MAX_SENDING {
      PipersAfter(s, s', t, PcOf(s', t));
    } else if pc.Idle? && a.Close? {
      PipersSame(s, s');
      SendsAppend(s.control.pipe, CloseCmd(a.shutdown));
    } else if !pc.Inc? && !pc.IncLow? {
      OthersKeepSending(s, t, a);
    }
  }

  lemma SendsHead(pipe: seq<Cmd>)
    requires pipe != []
    ensures Sends(pipe) == (if pipe[0].SendCmd? then [pipe[0].pkg] else []) + Sends(pipe[1..])
  {
  }

  lemma ServerControl(s: Socket, a: Act)
    ensures ServerStep(s, a).senders == s.senders
    ensures var s' := ServerStep(s, a);
            if s.server.DecSending? then s'.control == Uncounted(s.control) && s'.server == Poll
            else if s.server.Poll? && a.Command? && s.control.pipe != [] then
              s'.control == Took(s.control) && (s'.server == DecSending <==> s.control.pipe[0].SendCmd?)
            else s'.control == s.control && s'.server != DecSending
  {
    hide HighSent, LowSent, Taken, SendSocket, Written, Tear, Uncounted;
  }

  lemma ServerKeepsSending(s: Socket, a: Act)
    requires SendingOk(s)
    ensures SendingOk(ServerStep(s, a))
  {
    hide ServerStep, Sends, Pipers;
    ServerControl(s, a);
    PipersSame(s, ServerStep(s, a));
    if s.control.pipe != [] {
      SendsHead(s.control.pipe);
    }
  }

  // ---- The lists and the lock ----

  lemma OtherThread(s: Socket, t: Tid, a: Act, u: Tid)
    requires u != t
    ensures PcOf(WorkerStep(s, t, a), u) == PcOf(s, u)
    ensures Calls(WorkerStep(s, t, a).senders, u) == Calls(s.senders, u)
  {
    hide Written;
  }

  /** What a thread changes without the lock, or with it. */
  lemma OwnLock(s: Socket, t: Tid, a: Act)
    requires Holding(PcOf(s, t)) <==> s.lock == ByWorker(t)
    ensures var s' := WorkerStep(s, t, a);
            (Holding(PcOf(s', t)) <==> s'.lock == ByWorker(t)) && s'.server == s.server
            && (s'.lock == s.lock || (s.lock == Free && s'.lock == ByWorker(t)) || (s.lock == ByWorker(t) && s'.lock == Free))
  {
    hide Written;
  }

  lemma WorkerKeepsLock(s: Socket, t: Tid, a: Act)
    requires LockOk(s)
    ensures LockOk(WorkerStep(s, t, a))
  {
    hide WorkerStep;
    var s' := WorkerStep(s, t, a);
    assert Holding(PcOf(s, t)) <==> s.lock == ByWorker(t);
    OwnLock(s, t, a);
    forall u: Tid ensures Holding(PcOf(s', u)) <==> s'.lock == ByWorker(u) {
      assert Holding(PcOf(s, u)) <==> s.lock == ByWorker(u);
      if u != t { OtherThread(s, t, a, u); }
    }
  }

  /** The socket thread leaves the lock to the others. */
  lemma ServerLocks(s: Socket, a: Act)
    requires (Sending(s.server) ==> s.lock == ByServer)
    requires (s.lock == ByServer ==> Sending(s.server) || s.server.FreeLists? || s.server.Shut?)
    ensures var s' := ServerStep(s, a);
            s'.senders == s.senders && (s'.lock == s.lock || (!s.lock.ByWorker? && !s'.lock.ByWorker?))
            && (Sending(s'.server) ==> s'.lock == ByServer)
            && (s'.lock == ByServer ==> Sending(s'.server) || s'.server.FreeLists? || s'.server.Shut?)
  {
    hide HighSent, LowSent, Taken, SendSocket, Written, Tear;
  }

  lemma ServerKeepsLock(s: Socket, a: Act)
    requires LockOk(s)
    ensures LockOk(ServerStep(s, a))
  {
    hide ServerStep;
    var s' := ServerStep(s, a);
    ServerLocks(s, a);
    forall u: Tid ensures Holding(PcOf(s', u)) <==> s'.lock == ByWorker(u) {
      assert Holding(PcOf(s, u)) <==> s.lock == ByWorker(u);
      assert PcOf(s', u) == PcOf(s, u);
    }
  }

  lemma WorkerKeepsLists(s: Socket, t: Tid, a: Act)
    requires ListOk(s.lists) && ShapeOk(s) && LockOk(s) && WorkerOk(s, t)
    ensures var s' := WorkerStep(s, t, a); ListOk(s'.lists) && ShapeOk(s')
  {
    hide Written;
    assert Holding(PcOf(s, t)) <==> s.lock == ByWorker(t);
  }

  lemma OwnWorker(s: Socket, t: Tid, a: Act)
    requires WorkerOk(s, t) && (Holding(PcOf(s, t)) <==> s.lock == ByWorker(t))
    ensures var s' := WorkerStep(s, t, a);
            WorkerOk(s', t) && s'.lists.high == s.lists.high && s'.status == s.status
            && (s'.lists.dw == s.lists.dw || s.lock == ByWorker(t))
  {
    hide Written;
  }

  lemma WorkerKeepsWorkers(s: Socket, t: Tid, a: Act)
    requires WorkersOk(s) && LockOk(s)
    ensures WorkersOk(WorkerStep(s, t, a))
  {
    hide WorkerStep, Clean, NoneIn;
    var s' := WorkerStep(s, t, a);
    assert Holding(PcOf(s, t)) <==> s.lock == ByWorker(t);
    assert WorkerOk(s, t);
    OwnWorker(s, t, a);
    forall u: Tid ensures WorkerOk(s', u) {
      assert WorkerOk(s, u);
      assert Holding(PcOf(s, u)) <==> s.lock == ByWorker(u);
      if u != t { OtherThread(s, t, a, u); }
    }
  }

  lemma SendKeepsList(l: Lists, st: Status, p: Pkg)
    requires ListOk(l)
    ensures ListOk(SendSocket(l, st, p))
  {
  }

  lemma TakenKeepsList(l: Lists)
    requires ListOk(l)
    ensures ListOk(Taken(l)) && Taken(l).dw == None
  {
  }

  lemma HighSentKeepsList(l: Lists, n: nat)
    requires ListOk(l) && l.dw == None && l.high != [] && n <= Rest(l.high[0])
    ensures ListOk(HighSent(l, n)) && HighSent(l, n).dw == None
  {
  }

  lemma LowSentKeepsList(l: Lists, n: nat)
    requires ListOk(l) && l.dw == None && l.high == [] && l.low != [] && n <= Rest(l.low[0])
    ensures ListOk(LowSent(l, n)) && LowSent(l, n).dw == None
    ensures n == Rest(l.low[0]) ==> LowSent(l, n).high == []
  {
  }

  lemma ServerKeepsLists(s: Socket, a: Act)
    requires ListOk(s.lists) && ShapeOk(s) && LockOk(s) && ServerOk(s)
    ensures ListOk(ServerStep(s, a).lists)
  {
    hide ListOk, HighSent, LowSent, Taken, SendSocket, Written, Tear;
    Rearmed(s.lists);
    if s.server.Poll? && a.Command? && s.control.pipe != [] && s.control.pipe[0].SendCmd? {
      SendKeepsList(s.lists, s.status, s.control.pipe[0].pkg);
    } else if s.server.Poll? && a.CanWrite? {
      TakenKeepsList(s.lists);
    } else if s.server.SendHigh? && s.lists.high != [] && a.Wrote? && a.n <= Rest(s.lists.high[0]) {
      HighSentKeepsList(s.lists, a.n);
    } else if s.server.SendLow? && s.lists.low != [] && a.Wrote? && a.n <= Rest(s.lists.low[0]) {
      LowSentKeepsList(s.lists, a.n);
    } else if s.server.FreeLists? || s.server.Shut? {
      LessList(s.lists);
    }
  }

  lemma LessList(l: Lists)
    requires ListOk(l)
    ensures ListOk(l.(high := [], low := [])) && ListOk(l.(dw := None))
  {
  }

  lemma ServerKeepsShape(s: Socket, a: Act)
    requires ListOk(s.lists) && ShapeOk(s) && LockOk(s) && ServerOk(s)
    ensures ShapeOk(ServerStep(s, a))
  {
    hide ListOk, HighSent, LowSent, Taken, SendSocket, Written, Tear, LockOk;
    assert Sending(s.server) ==> s.lock == ByServer by { ServerLock(s); }
    if s.server.Poll? && a.CanWrite? {
      TakenKeepsList(s.lists);
    } else if s.server.SendHigh? && s.lists.high != [] && a.Wrote? && a.n <= Rest(s.lists.high[0]) {
      HighSentKeepsList(s.lists, a.n);
    } else if s.server.SendLow? && s.lists.low != [] && a.Wrote? && a.n <= Rest(s.lists.low[0]) {
      LowSentKeepsList(s.lists, a.n);
    } else if s.server.Poll? && a.Command? && s.control.pipe != [] && s.control.pipe[0].SendCmd? {
      SendKeepsDw(s.lists, s.status, s.control.pipe[0].pkg);
      ServerLock(s);
    }
  }

  lemma SendKeepsDw(l: Lists, st: Status, p: Pkg)
    ensures SendSocket(l, st, p).dw == l.dw
    ensures st.kind == Invalid ==> SendSocket(l, st, p) == l
  {
  }

  lemma ServerLock(s: Socket)
    requires LockOk(s)
    ensures Sending(s.server) ==> s.lock == ByServer
    ensures s.lock == ByServer ==> Sending(s.server) || s.server.FreeLists? || s.server.Shut?
  {
  }

  lemma SendKeepsNone(s: Socket, p: Pkg, t: Tid)
    requires WorkerOk(s, t)
    requires PastHigh(PcOf(s, t)) ==> p.lane != High(t)
    ensures var l := SendSocket(s.lists, s.status, p);
            PastHigh(PcOf(s, t)) ==> Clean(l.high) && NoneIn(l.high, High(t))
  {
  }

  // ---- Threads and the pipe ----

  predicate Others(ps: seq<Pkg>, c: Lane) { forall i | 0 <= i < |ps| :: ps[i].lane != c }

  /** A package that its sender has not handed over yet. */
  predicate Carries(pc: WorkerPc)
  {
    pc.First? || pc.TryLock? || pc.ReadHigh? || pc.ReadLow? || pc.ReadDw? || pc.ReadSending? || pc.ReadType?
    || pc.Write? || pc.UnlockBusy? || pc.Inc? || pc.Pipe?
  }

  /** A package in hand is its sender's last; past the first check its sender has nothing in the pipe. */
  predicate QueueOk(s: Socket, t: Tid)
  {
    var pc := PcOf(s, t);
    (Carries(pc) ==> pc.p.lane == High(t) && pc.p.num + 1 == Calls(s.senders, t))
    && (PastFirst(pc) ==> Others(Sends(s.control.pipe), High(t)))
  }

  ghost predicate QueuesOk(s: Socket) { forall t: Tid :: QueueOk(s, t) }

  /** What a step puts into the pipe. */
  lemma WorkerPuts(s: Socket, t: Tid, a: Act) returns (ps: seq<Pkg>)
    ensures Sends(WorkerStep(s, t, a).control.pipe) == Sends(s.control.pipe) + ps
    ensures var pc := PcOf(s, t);
            ps == if pc.Pipe? then [pc.p] else if pc.PipeLow? then [Pkg(Low, s.senders.tickets, pc.size)] else []
  {
    hide Sends, DirectWrite;
    var pc := PcOf(s, t);
    SendsAppend(s.control.pipe, WakeCmd);
    if pc.Pipe? {
      SendsAppend(s.control.pipe, SendCmd(pc.p));
      ps := [pc.p];
    } else if pc.PipeLow? {
      ps := [Pkg(Low, s.senders.tickets, pc.size)];
      SendsAppend(s.control.pipe, SendCmd(ps[0]));
    } else {
      ps := [];
      if pc.Idle? && a.Close? {
        SendsAppend(s.control.pipe, CloseCmd(a.shutdown));
      } else if !pc.Wake? {
        QuietPipe(s, t, a);
      }
    }
  }

  lemma QuietPipe(s: Socket, t: Tid, a: Act)
    requires var pc := PcOf(s, t); !pc.Pipe? && !pc.PipeLow? && !pc.Wake? && (pc.Idle? ==> !a.Close?)
    ensures WorkerStep(s, t, a).control.pipe == s.control.pipe
  {
    hide Written;
  }

  lemma OthersMore(ps: seq<Pkg>, qs: seq<Pkg>, c: Lane)
    requires Others(ps, c) && Others(qs, c)
    ensures Others(ps + qs, c)
  {
  }

  /** A package in hand stays its sender's last. */
  lemma WorkerKeepsCarried(s: Socket, t: Tid, a: Act)
    requires QueueOk(s, t)
    ensures var s', pc := WorkerStep(s, t, a), PcOf(WorkerStep(s, t, a), t);
            Carries(pc) ==> pc.p.lane == High(t) && pc.p.num + 1 == Calls(s'.senders, t)
  {
    hide Written, Sends, Others;
  }

  /** Who gets past the first check has found nothing counted, or was past it and has put nothing. */
  lemma PastFirstBefore(s: Socket, t: Tid, a: Act)
    requires PastFirst(PcOf(WorkerStep(s, t, a), t))
    ensures WorkerStep(s, t, a).control == s.control && (PastFirst(PcOf(s, t)) || s.control.sending == 0)
  {
    hide Written;
  }

  lemma WorkerKeepsOwnQueue(s: Socket, t: Tid, a: Act)
    requires QueueOk(s, t) && SendingOk(s)
    ensures QueueOk(WorkerStep(s, t, a), t)
  {
    hide WorkerStep, Sends, Carries, PastFirst;
    WorkerKeepsCarried(s, t, a);
    if PastFirst(PcOf(WorkerStep(s, t, a), t)) { PastFirstBefore(s, t, a); }
    assert s.control.sending == 0 ==> Sends(s.control.pipe) == [];
  }

  lemma WorkerKeepsQueues(s: Socket, t: Tid, a: Act)
    requires QueuesOk(s) && SendingOk(s)
    ensures QueuesOk(WorkerStep(s, t, a))
  {
    hide WorkerStep, Sends, Pipers, SendingOk;
    var s' := WorkerStep(s, t, a);
    var ps := WorkerPuts(s, t, a);
    assert QueueOk(s, t);
    WorkerKeepsOwnQueue(s, t, a);
    forall u: Tid ensures QueueOk(s', u) {
      assert QueueOk(s, u);
      if u != t {
        OtherThread(s, t, a, u);
        if PastFirst(PcOf(s, u)) {
          OthersMore(Sends(s.control.pipe), ps, High(u));
        }
      }
    }
  }

  lemma ServerKeepsQueues(s: Socket, a: Act)
    requires QueuesOk(s)
    ensures QueuesOk(ServerStep(s, a))
  {
    hide ServerStep;
    ServerControl(s, a);
    forall u: Tid ensures QueueOk(ServerStep(s, a), u) {
      assert QueueOk(s, u);
      if s.control.pipe != [] && PastFirst(PcOf(s, u)) {
        OthersLess(s.control.pipe, High(u));
      }
    }
  }

  lemma OthersLess(pipe: seq<Cmd>, c: Lane)
    requires pipe != [] && Others(Sends(pipe), c)
    ensures Others(Sends(pipe[1..]), c)
  {
    var first := if pipe[0].SendCmd? then [pipe[0].pkg] else [];
    assert Sends(pipe) == first + Sends(pipe[1..]);
    assert Sends(pipe)[|first|..] == Sends(pipe[1..]);
  }

  /** While a thread has the lock the socket thread only appends to the lists, or frees them. */
  lemma ServerListsWhileHeld(s: Socket, a: Act)
    requires LockOk(s) && s.lock.ByWorker?
    ensures var l, l' := s.lists, ServerStep(s, a).lists;
            (l'.high == l.high && l'.low == l.low)
            || (l'.high == [] && l'.low == [])
            || (s.control.pipe != [] && s.control.pipe[0].SendCmd?
                && l' == SendSocket(l, s.status, s.control.pipe[0].pkg))
    ensures ServerStep(s, a).status.kind == Invalid ==> s.status.kind == Invalid
    ensures ServerStep(s, a).lists.dw == s.lists.dw
  {
    hide HighSent, LowSent, Taken, Written, Tear;
    ServerLock(s);
  }

  lemma ServerKeepsWorkers(s: Socket, a: Act)
    requires WorkersOk(s) && LockOk(s) && QueuesOk(s)
    ensures WorkersOk(ServerStep(s, a))
  {
    hide ServerStep, SendSocket;
    var s' := ServerStep(s, a);
    ServerControl(s, a);
    forall u: Tid ensures WorkerOk(s', u) {
      assert WorkerOk(s, u) && QueueOk(s, u);
      assert Holding(PcOf(s, u)) <==> s.lock == ByWorker(u);
      assert PcOf(s', u) == PcOf(s, u);
      if s.lock == ByWorker(u) {
        ServerListsWhileHeld(s, a);
        if s.control.pipe != [] && s.control.pipe[0].SendCmd? {
          if PastHigh(PcOf(s, u)) {
            assert Sends(s.control.pipe)[0] == s.control.pipe[0].pkg;
          }
          SendKeepsNone(s, s.control.pipe[0].pkg, u);
        }
      }
    }
  }
}
