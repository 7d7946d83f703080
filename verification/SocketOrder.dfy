/** The order of the packages, from the calls to the peer. */
module SocketOrder {
  import opened Socket
  import opened SocketProof
  import opened SocketWire

  // ---- Packages in a row ----

  /** The packages of a lane are in the order of their numbers. */
  predicate Ordered(line: seq<Pkg>)
  {
    forall i, j | 0 <= i < j < |line| :: line[i].lane == line[j].lane ==> line[i].num < line[j].num
  }

  predicate Has(line: seq<Pkg>, c: Lane, k: nat)
  {
    exists i | 0 <= i < |line| :: line[i].lane == c && line[i].num == k
  }

  /** How many packages of a lane have been handed over: written directly, or put into the pipe. */
  function Issued(w: Senders, c: Lane): nat
  {
    match c
    case Low => w.tickets
    case High(t) => if Carries(PcIn(w, t)) && Calls(w, t) > 0 then Calls(w, t) - 1 else Calls(w, t)
  }

  function PcIn(w: Senders, t: Tid): WorkerPc { if t in w.pcs then w.pcs[t] else Idle }

  predicate Below(line: seq<Pkg>, w: Senders)
  {
    forall i | 0 <= i < |line| :: line[i].num < Issued(w, line[i].lane)
  }

  ghost predicate Complete(line: seq<Pkg>, w: Senders)
  {
    forall c: Lane, k: nat :: k < Issued(w, c) ==> Has(line, c, k)
  }

  /** In order, nothing but what was handed over and, when nothing has been dropped, all of it. */
  ghost predicate LineOk(line: seq<Pkg>, w: Senders, intact: bool)
  {
    Ordered(line) && Below(line, w) && (intact ==> Complete(line, w))
  }

  lemma OrderInsert(a: seq<Pkg>, p: Pkg, b: seq<Pkg>, w: Senders, w': Senders, intact: bool)
    requires LineOk(a + b, w, intact)
    requires p.num == Issued(w, p.lane) && Others(b, p.lane)
    requires forall c: Lane :: Issued(w', c) == Issued(w, c) + if c == p.lane then 1 else 0
    ensures LineOk(a + [p] + b, w', intact)
  {
    var line, line' := a + b, a + [p] + b;
    forall i | 0 <= i < |line'| ensures i != |a| ==> line'[i] == line[if i < |a| then i else i - 1] {}
    if intact {
      forall c: Lane, k: nat | k < Issued(w', c) ensures Has(line', c, k) {
        if c == p.lane && k == p.num {
          assert line'[|a|] == p;
        } else {
          assert Has(line, c, k);
          var i :| 0 <= i < |line| && line[i].lane == c && line[i].num == k;
          assert line'[if i < |a| then i else i + 1] == line[i];
        }
      }
    }
  }

  lemma OrderDrop(a: seq<Pkg>, m: seq<Pkg>, b: seq<Pkg>, w: Senders)
    requires LineOk(a + m + b, w, false)
    ensures LineOk(a + b, w, false)
  {
    var line, line' := a + m + b, a + b;
    forall i | 0 <= i < |line'| ensures line'[i] == line[if i < |a| then i else i + |m|] {}
  }

  lemma OrderMove(a: seq<Pkg>, m: seq<Pkg>, p: Pkg, b: seq<Pkg>, w: Senders, intact: bool)
    requires LineOk(a + m + [p] + b, w, intact) && Others(m, p.lane)
    ensures LineOk(a + [p] + m + b, w, intact)
  {
    var line, line' := a + m + [p] + b, a + [p] + m + b;
    var k := |a| + |m|;
    forall i | 0 <= i < |line'|
      ensures line'[i] == line[if i < |a| || i > k then i else if i == |a| then k else i - 1]
    {
    }
    assert Ordered(line');
    if intact {
      forall c: Lane, n: nat | n < Issued(w, c) ensures Has(line', c, n) {
        assert Has(line, c, n);
        var i :| 0 <= i < |line| && line[i].lane == c && line[i].num == n;
        assert line'[if i < |a| || i > k then i else if i == k then |a| else i + 1] == line[i];
      }
    }
  }

  // ---- The line of a socket ----

  function PartPkgs(parts: seq<Part>): seq<Pkg> { seq(|parts|, i requires 0 <= i < |parts| => parts[i].pkg) }

  function Pkgs(bs: seq<Buf>): seq<Pkg> { seq(|bs|, i requires 0 <= i < |bs| => bs[i].pkg) }

  /** A package of which nothing has been written. */
  function New(b: Option<Buf>): seq<Pkg>
  {
    if b.Some? && b.value.off == 0 then [b.value.pkg] else []
  }

  function Fresh(bs: seq<Buf>): seq<Pkg>
  {
    if bs == [] then [] else New(Some(bs[0])) + Pkgs(bs[1..])
  }

  /** All packages that have been handed over, in the order in which the peer will see them. */
  function Line(w: Trail, hand: Option<Buf>, l: Lists, pipe: seq<Cmd>): seq<Pkg>
  {
    PartPkgs(w.parts) + New(hand) + New(l.dw) + Fresh(l.high) + Pkgs(l.low) + Sends(pipe)
  }

  function LineOf(s: Socket): seq<Pkg> { Line(s.trail, Hand(s), s.lists, s.control.pipe) }

  /** Nothing has been dropped yet. */
  predicate Intact(s: Socket)
  {
    (!s.status.closing || s.server.CloseRead?) && (s.status.kind == Connected || s.status.kind == HalfcloseRead)
    && !s.server.Shut?
  }

  ghost predicate OrderOk(s: Socket) { LineOk(LineOf(s), s.senders, Intact(s)) }

  lemma CleanFresh(bs: seq<Buf>)
    requires Clean(bs)
    ensures Fresh(bs) == Pkgs(bs)
  {
  }

  lemma NewPart(w: Trail, p: Pkg, off: nat, n: nat)
    ensures var ps := PartPkgs(Written(w, p, off, n).parts);
            if Starts(p, off, n) then ps == PartPkgs(w.parts) + [p]
            else (off > 0 ==> LastIs(w.parts, Buf(p, off))) ==> ps == PartPkgs(w.parts)
  {
    var ps := PartPkgs(Written(w, p, off, n).parts);
    if !Starts(p, off, n) && (off > 0 ==> LastIs(w.parts, Buf(p, off))) {
      assert forall i | 0 <= i < |ps| :: ps[i] == PartPkgs(w.parts)[i];
    }
  }

  // ---- Threads ----

  lemma OthersQueue(l: Lists, pipe: seq<Cmd>, t: Tid)
    requires Clean(l.high) && NoneIn(l.high, High(t)) && AllLow(l.low) && Others(Sends(pipe), High(t))
    ensures Others(Fresh(l.high) + Pkgs(l.low) + Sends(pipe), High(t))
  {
    CleanFresh(l.high);
    OthersMore(Pkgs(l.high), Pkgs(l.low), High(t));
    OthersMore(Pkgs(l.high) + Pkgs(l.low), Sends(pipe), High(t));
  }

  /** A package that is written directly overtakes only packages of others. */
  lemma DirectKeepsOrder(s: Socket, t: Tid, a: Act)
    requires OrderOk(s) && LockOk(s) && WorkerOk(s, t) && QueueOk(s, t) && ListOk(s.lists) && PcOf(s, t).Write?
    ensures OrderOk(WorkerStep(s, t, a))
  {
    hide LineOk, Written, Others, Sends, Pkgs, PartPkgs, Fresh;
    assert Holding(PcOf(s, t)) <==> s.lock == ByWorker(t);
    var s' := WorkerStep(s, t, a);
    var p := PcOf(s, t).p;
    var n := if a.Wrote? && a.n <= p.size then a.n else 0;
    var front, back := PartPkgs(s.trail.parts), Fresh(s.lists.high) + Pkgs(s.lists.low) + Sends(s.control.pipe);
    NewPart(s.trail, p, 0, n);
    assert LineOf(s) == front + back;
    assert LineOf(s') == front + [p] + back;
    OthersQueue(s.lists, s.control.pipe, t);
    DirectIssued(s, t, a);
    OrderInsert(front, p, back, s.senders, s'.senders, Intact(s));
  }

  lemma DirectIssued(s: Socket, t: Tid, a: Act)
    requires QueueOk(s, t) && PcOf(s, t).Write?
    ensures forall c: Lane :: Issued(WorkerStep(s, t, a).senders, c) == Issued(s.senders, c) + if c == High(t) then 1 else 0
    ensures PcOf(s, t).p.num == Issued(s.senders, High(t))
  {
    hide Written, Sends;
  }

  lemma PipedIssued(s: Socket, t: Tid, a: Act, p: Pkg)
    requires QueueOk(s, t)
    requires var pc := PcOf(s, t); pc == Pipe(p) || (pc.PipeLow? && p == Pkg(Low, s.senders.tickets, pc.size))
    ensures forall c: Lane :: Issued(WorkerStep(s, t, a).senders, c) == Issued(s.senders, c) + if c == p.lane then 1 else 0
    ensures p.num == Issued(s.senders, p.lane)
  {
    hide Sends;
  }

  lemma PipedKeepsOrder(s: Socket, t: Tid, a: Act)
    requires OrderOk(s) && LockOk(s) && QueueOk(s, t) && Piping(PcOf(s, t))
    ensures OrderOk(WorkerStep(s, t, a))
  {
    hide LineOk, Line, QueueOk, Sends;
    var s' := WorkerStep(s, t, a);
    var ps := WorkerPuts(s, t, a);
    PipedIssued(s, t, a, ps[0]);
    assert Hand(s') == Hand(s) by { assert Holding(PcOf(s, t)) <==> s.lock == ByWorker(t); }
    LinePut(s, s', ps);
    assert LineOf(s) + [] == LineOf(s) && LineOf(s) + [ps[0]] + [] == LineOf(s');
    OrderInsert(LineOf(s), ps[0], [], s.senders, s'.senders, Intact(s));
  }

  lemma LinePut(s: Socket, s': Socket, ps: seq<Pkg>)
    requires Hand(s') == Hand(s) && s'.trail == s.trail && s'.lists == s.lists
    requires Sends(s'.control.pipe) == Sends(s.control.pipe) + ps
    ensures LineOf(s') == LineOf(s) + ps
  {
    hide Hand, Sends, PartPkgs, Pkgs, Fresh, New;
    Assoc(PartPkgs(s.trail.parts) + New(Hand(s)) + New(s.lists.dw) + Fresh(s.lists.high) + Pkgs(s.lists.low), Sends(s.control.pipe), ps);
  }

  lemma Assoc(a: seq<Pkg>, b: seq<Pkg>, c: seq<Pkg>)
    ensures a + (b + c) == a + b + c
  {
  }

  lemma QuietIssued(s: Socket, t: Tid, a: Act)
    requires QueueOk(s, t) && !PcOf(s, t).Write? && !Piping(PcOf(s, t))
    ensures forall c: Lane :: Issued(WorkerStep(s, t, a).senders, c) == Issued(s.senders, c)
  {
    hide Written, Sends;
  }

  lemma QuietLine(s: Socket, t: Tid, a: Act)
    requires LockOk(s) && WorkerOk(s, t) && !PcOf(s, t).Write? && !Piping(PcOf(s, t))
    ensures var s' := WorkerStep(s, t, a);
            New(Hand(s')) + New(s'.lists.dw) == New(Hand(s)) + New(s.lists.dw)
            && s'.lists.high == s.lists.high && s'.lists.low == s.lists.low
  {
    hide WorkerStep;
    assert Holding(PcOf(s, t)) <==> s.lock == ByWorker(t);
    if PcOf(s, t).SetDw? { HandLeft(s, t, a); } else { HandKept(s, t, a); }
  }

  lemma QuietTrail(s: Socket, t: Tid, a: Act)
    requires !PcOf(s, t).Write?
    ensures var s' := WorkerStep(s, t, a); s'.trail == s.trail && Intact(s') == Intact(s)
  {
    hide Written;
  }

  lemma SameIssued(line: seq<Pkg>, w: Senders, w': Senders, intact: bool)
    requires LineOk(line, w, intact)
    requires forall c: Lane :: Issued(w', c) == Issued(w, c)
    ensures LineOk(line, w', intact)
  {
    hide Issued, Has;
  }

  lemma QuietKeepsOrder(s: Socket, t: Tid, a: Act)
    requires OrderOk(s) && LockOk(s) && WorkerOk(s, t) && QueueOk(s, t) && !PcOf(s, t).Write? && !Piping(PcOf(s, t))
    ensures OrderOk(WorkerStep(s, t, a))
  {
    hide LineOk, WorkerStep, Issued, LockOk, WorkerOk, QueueOk, Intact, Hand, New, Sends, PartPkgs, Pkgs, Fresh;
    var s' := WorkerStep(s, t, a);
    QuietIssued(s, t, a);
    QuietLine(s, t, a);
    QuietTrail(s, t, a);
    var ps := WorkerPuts(s, t, a);
    assert Sends(s.control.pipe) + [] == Sends(s.control.pipe);
    Assoc(PartPkgs(s.trail.parts), New(Hand(s)), New(s.lists.dw));
    Assoc(PartPkgs(s.trail.parts), New(Hand(s')), New(s'.lists.dw));
    assert LineOf(s') == LineOf(s);
    SameIssued(LineOf(s), s.senders, s'.senders, Intact(s));
  }

  lemma WorkerKeepsOrder(s: Socket, t: Tid, a: Act)
    requires OrderOk(s) && LockOk(s) && WorkersOk(s) && QueuesOk(s) && ListOk(s.lists)
    ensures OrderOk(WorkerStep(s, t, a))
  {
    hide OrderOk, WorkerStep, LockOk, WorkerOk, QueueOk, ListOk;
    assert WorkerOk(s, t) && QueueOk(s, t);
    if PcOf(s, t).Write? {
      DirectKeepsOrder(s, t, a);
    } else if Piping(PcOf(s, t)) {
      PipedKeepsOrder(s, t, a);
    } else {
      QuietKeepsOrder(s, t, a);
    }
  }

  // ---- The socket thread ----

  lemma LessIntact(line: seq<Pkg>, w: Senders, intact: bool, intact': bool)
    requires LineOk(line, w, intact) && (intact' ==> intact)
    ensures LineOk(line, w, intact')
  {
  }

  lemma TakenKeepsLine(w: Trail, l: Lists, pipe: seq<Cmd>)
    requires ListOk(l)
    ensures Line(w, None, Taken(l), pipe) == Line(w, None, l, pipe)
  {
    hide Sends, PartPkgs;
    if l.dw.Some? {
      CleanFresh(l.high);
      assert ([l.dw.value] + l.high)[1..] == l.high;
    }
  }

  lemma HighSentFresh(l: Lists, n: nat)
    requires ListOk(l) && l.high != [] && n <= Rest(l.high[0])
    ensures var b, l' := l.high[0], HighSent(l, n);
            Fresh(l.high) == (if Starts(b.pkg, b.off, n) then [b.pkg] else []) + Fresh(l'.high)
    ensures HighSent(l, n).low == l.low && HighSent(l, n).dw == l.dw
  {
    hide Pkgs;
    var b := l.high[0];
    CleanFresh(l.high[1..]);
    FreshCons(Buf(b.pkg, b.off + n), l.high[1..]);
    FreshCons(b, l.high[1..]);
    assert [b] + l.high[1..] == l.high;
  }

  /** Progress, whether complete or not, moves a package from its list to the wire. */
  lemma HighSentKeepsLine(w: Trail, l: Lists, pipe: seq<Cmd>, n: nat)
    requires ListOk(l) && l.dw == None && l.high != [] && n <= Rest(l.high[0]) && TrailOk(w, Progress(None, l))
    ensures var b := l.high[0]; Line(Written(w, b.pkg, b.off, n), None, HighSent(l, n), pipe) == Line(w, None, l, pipe)
  {
    hide Sends, PartPkgs, Pkgs, Written, TrailOk, Fresh, HighSent, Starts;
    var b := l.high[0];
    ProgressIsLast(w, Progress(None, l));
    NewPart(w, b.pkg, b.off, n);
    HighSentFresh(l, n);
    Assoc(PartPkgs(w.parts), [b.pkg], Fresh(HighSent(l, n).high));
  }

  lemma FreshCons(b: Buf, bs: seq<Buf>)
    ensures Fresh([b] + bs) == New(Some(b)) + Pkgs(bs)
  {
    assert ([b] + bs)[1..] == bs;
  }

  lemma ProgressIsLast(w: Trail, b: Option<Buf>)
    requires TrailOk(w, b)
    ensures b.Some? ==> LastIs(w.parts, b.value)
  {
  }

  lemma PkgsCons(bs: seq<Buf>)
    requires bs != []
    ensures Pkgs(bs) == [bs[0].pkg] + Pkgs(bs[1..])
    ensures Pkgs([]) == []
  {
  }

  /** What is left of the low list, and what of its first package has not been started. */
  lemma LowSentFresh(l: Lists, n: nat)
    requires l.high == [] && l.low != [] && l.low[0].off == 0 && n <= Rest(l.low[0])
    ensures var b, l' := l.low[0], LowSent(l, n);
            Pkgs(l.low) == (if Starts(b.pkg, 0, n) then [b.pkg] else []) + Fresh(l'.high) + Pkgs(l'.low)
    ensures LowSent(l, n).dw == l.dw
  {
    hide Pkgs;
    var b := l.low[0];
    PkgsCons(l.low);
    FreshCons(Buf(b.pkg, n), []);
    assert [Buf(b.pkg, n)] + [] == [Buf(b.pkg, n)];
    assert Fresh([]) == [];
  }

  lemma LowSentKeepsLine(w: Trail, l: Lists, pipe: seq<Cmd>, n: nat)
    requires ListOk(l) && l.dw == None && l.high == [] && l.low != [] && n <= Rest(l.low[0])
    ensures var b := l.low[0]; Line(Written(w, b.pkg, b.off, n), None, LowSent(l, n), pipe) == Line(w, None, l, pipe)
  {
    hide Sends, PartPkgs, Pkgs, Written, Fresh, LowSent, Starts;
    var b, l' := l.low[0], LowSent(l, n);
    NewPart(w, b.pkg, b.off, n);
    LowSentFresh(l, n);
    NoneFresh();
    Assoc(PartPkgs(w.parts), if Starts(b.pkg, 0, n) then [b.pkg] else [], Fresh(l'.high) + Pkgs(l'.low));
  }

  lemma NoneFresh()
    ensures Fresh([]) == []
  {
  }

  lemma PkgsAppend(bs: seq<Buf>, b: Buf)
    ensures Pkgs(bs + [b]) == Pkgs(bs) + [b.pkg]
    ensures b.off == 0 ==> Fresh(bs + [b]) == Fresh(bs) + [b.pkg]
  {
    if bs != [] {
      assert (bs + [b])[1..] == bs[1..] + [b];
    }
  }

  lemma LowOthers(bs: seq<Buf>, c: Lane)
    requires AllLow(bs) && c.High?
    ensures Others(Pkgs(bs), c)
  {
  }

  /** A package from the pipe goes to the end of its list: high-priority packages overtake low-priority
      ones only. */
  lemma SendKeepsOrder(s: Socket)
    requires OrderOk(s) && ListOk(s.lists) && s.server.Poll? && s.control.pipe != [] && s.control.pipe[0].SendCmd?
    ensures OrderOk(ServerStep(s, Command))
  {
    hide LineOk, Sends, PartPkgs, Pkgs, Fresh, New, Hand, Others, AllLow, Clean;
    var s' := ServerStep(s, Command);
    var p, l, l' := s.control.pipe[0].pkg, s.lists, s'.lists;
    var rest := Sends(s.control.pipe[1..]);
    SendsHead(s.control.pipe);
    assert Hand(s') == Hand(s) by { SameHand(s, s'); }
    var front := PartPkgs(s.trail.parts) + New(Hand(s)) + New(l.dw) + Fresh(l.high);
    assert LineOf(s) == front + Pkgs(l.low) + [p] + rest;
    PkgsAppend(l.high, Buf(p, 0));
    PkgsAppend(l.low, Buf(p, 0));
    assert [] + [Buf(p, 0)] == [Buf(p, 0)];
    if l' == l {
      OrderDropped(front + Pkgs(l.low), p, rest, s, s');
    } else if l'.low == l.low {
      if p.lane.High? {
        LowOthers(l.low, p.lane);
      } else {
        NothingLow(p.lane);
      }
      OrderMove(front, Pkgs(l.low), p, rest, s.senders, Intact(s));
      Assoc(PartPkgs(s.trail.parts) + New(Hand(s)) + New(l.dw), Fresh(l.high), [p]);
      assert LineOf(s') == front + [p] + Pkgs(l.low) + rest;
    } else {
      Assoc(front, Pkgs(l.low), [p]);
      assert LineOf(s') == LineOf(s);
    }
  }

  lemma NothingLow(c: Lane)
    ensures Others(Pkgs([]), c)
  {
  }

  lemma SameHand(s: Socket, s': Socket)
    requires s'.senders == s.senders && s'.lock == s.lock
    ensures Hand(s') == Hand(s)
  {
  }

  lemma OrderDropped(a: seq<Pkg>, p: Pkg, b: seq<Pkg>, s: Socket, s': Socket)
    requires OrderOk(s) && LineOf(s) == a + [p] + b && LineOf(s') == a + b
    requires s'.senders == s.senders && !Intact(s')
    ensures OrderOk(s')
  {
    LessIntact(LineOf(s), s.senders, Intact(s), false);
    OrderDrop(a, [p], b, s.senders);
  }

  lemma FreeKeepsOrder(s: Socket, a: Act)
    requires OrderOk(s) && s.server.FreeLists?
    ensures OrderOk(ServerStep(s, a))
  {
    hide LineOk, Sends, PartPkgs;
    var s', l, rest := ServerStep(s, a), s.lists, Sends(s.control.pipe);
    var front := PartPkgs(s.trail.parts) + New(Hand(s)) + New(l.dw);
    Assoc(front, Fresh(l.high), Pkgs(l.low));
    LessIntact(LineOf(s), s.senders, Intact(s), false);
    OrderDrop(front, Fresh(l.high) + Pkgs(l.low), rest, s.senders);
    assert LineOf(s') == front + rest;
  }

  lemma ShutKeepsOrder(s: Socket, a: Act)
    requires OrderOk(s) && ShapeOk(s) && s.server.Shut?
    ensures OrderOk(ServerStep(s, a))
  {
    hide LineOk, Sends, PartPkgs;
    var s', l, rest := ServerStep(s, a), s.lists, Sends(s.control.pipe);
    if !s.lock.ByWorker? {
      LessIntact(LineOf(s), s.senders, Intact(s), false);
      assert LineOf(s) == PartPkgs(s.trail.parts) + New(l.dw) + rest;
      OrderDrop(PartPkgs(s.trail.parts), New(l.dw), rest, s.senders);
      assert LineOf(s') == PartPkgs(s.trail.parts) + rest;
    }
  }

  lemma ListKeepsOrder(s: Socket, a: Act)
    requires OrderOk(s) && WireOk(s) && ListOk(s.lists) && ShapeOk(s) && LockOk(s)
    requires s.server.SendHigh? || s.server.SendLow?
    ensures OrderOk(ServerStep(s, a))
  {
    hide LineOk, Line, Written, TrailOk, ListOk, HighSent, LowSent, Progress;
    ServerLock(s);
    if s.server.SendHigh? && s.lists.high != [] && a.Wrote? && a.n <= Rest(s.lists.high[0]) {
      HighSentKeepsLine(s.trail, s.lists, s.control.pipe, a.n);
    } else if s.server.SendLow? && s.lists.low != [] && a.Wrote? && a.n <= Rest(s.lists.low[0]) {
      LowSentKeepsLine(s.trail, s.lists, s.control.pipe, a.n);
    }
  }

  lemma LessStays(s: Socket, a: Act)
    requires KindOk(s)
    ensures Intact(ServerStep(s, a)) ==> Intact(s)
  {
    hide Taken, SendSocket, Written, HighSent, LowSent, Tear, LogOk;
  }

  lemma RearmedLine(w: Trail, hand: Option<Buf>, l: Lists)
    ensures forall armed: bool, pipe :: Line(w, hand, l.(armed := armed), pipe) == Line(w, hand, l, pipe)
  {
    hide PartPkgs, Pkgs, Fresh, New, Sends;
  }

  lemma PollLine(s: Socket, a: Act)
    requires ListOk(s.lists) && LockOk(s)
    requires !s.server.SendHigh? && !s.server.SendLow? && !s.server.FreeLists? && !s.server.Shut?
    requires s.server.Poll? && a.Command? && s.control.pipe != [] ==> !s.control.pipe[0].SendCmd?
    ensures LineOf(ServerStep(s, a)) == LineOf(s)
  {
    hide Taken, PartPkgs, Pkgs, Fresh, New, Sends, ListOk, LockOk, Line;
    ServerLock(s);
    TakenKeepsLine(s.trail, s.lists, s.control.pipe);
    RearmedLine(s.trail, Hand(s), s.lists);
    if s.control.pipe != [] && !s.control.pipe[0].SendCmd? {
      TookKeepsLine(s.trail, Hand(s), s.lists, s.control.pipe);
    }
  }

  lemma TookKeepsLine(w: Trail, hand: Option<Buf>, l: Lists, pipe: seq<Cmd>)
    requires pipe != [] && !pipe[0].SendCmd?
    ensures Line(w, hand, l, pipe[1..]) == Line(w, hand, l, pipe)
  {
    hide PartPkgs, Pkgs, Fresh, New;
    SendsHead(pipe);
    assert [] + Sends(pipe[1..]) == Sends(pipe[1..]);
  }

  lemma ServerKeepsOrder(s: Socket, a: Act)
    requires OrderOk(s) && WireOk(s) && ListOk(s.lists) && ShapeOk(s) && LockOk(s) && KindOk(s)
    ensures OrderOk(ServerStep(s, a))
  {
    hide LineOk, ServerStep, Line, Intact, Hand, LockOk, ListOk, WireOk, ShapeOk, KindOk;
    if s.server.SendHigh? || s.server.SendLow? {
      ListKeepsOrder(s, a);
    } else if s.server.FreeLists? {
      FreeKeepsOrder(s, a);
    } else if s.server.Shut? {
      ShutKeepsOrder(s, a);
    } else if s.server.Poll? && a.Command? && s.control.pipe != [] && s.control.pipe[0].SendCmd? {
      SendKeepsOrder(s);
    } else {
      ServerControl(s, a);
      PollLine(s, a);
      LessStays(s, a);
      LessIntact(LineOf(s), s.senders, Intact(s), Intact(ServerStep(s, a)));
    }
  }
}
