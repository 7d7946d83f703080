/** The two priorities: which packages overtake which, and where low-priority ones may be. */
module SocketPriority {
  import opened Socket
  import opened SocketProof
  import opened SocketWire
  import opened SocketOrder
  import opened SocketTheorems
  import opened SocketClosing

  // ---- The order of what has left the pipe ----

  /** The package that enters is put somewhere among the others, whose order stays. */
  ghost predicate Grows(old': seq<Pkg>, new': seq<Pkg>, p: Option<Pkg>)
  {
    if p.None? then new' == old' else exists k :: 0 <= k <= |old'| && new' == Inserted(old', k, p.value)
  }

  function Inserted(line: seq<Pkg>, k: nat, p: Pkg): seq<Pkg>
    requires k <= |line|
  {
    line[..k] + [p] + line[k..]
  }

  ghost predicate Before(line: seq<Pkg>, p: Pkg, q: Pkg)
  {
    exists i, j :: 0 <= i < j < |line| && line[i] == p && line[j] == q
  }

  lemma BeforeStays(old': seq<Pkg>, new': seq<Pkg>, e: Option<Pkg>, p: Pkg, q: Pkg)
    requires Grows(old', new', e) && Before(old', p, q)
    ensures Before(new', p, q)
  {
    if e.Some? {
      var k :| 0 <= k <= |old'| && new' == Inserted(old', k, e.value);
      var i, j :| 0 <= i < j < |old'| && old'[i] == p && old'[j] == q;
      assert new'[if i < k then i else i + 1] == p && new'[if j < k then j else j + 1] == q;
    }
  }

  lemma Behind(a: seq<Pkg>, p: Pkg, b: seq<Pkg>)
    ensures Grows(a + b, a + [p] + b, Some(p))
    ensures forall q :: q in a ==> Before(a + [p] + b, q, p)
    ensures forall q :: q in b ==> Before(a + [p] + b, p, q)
  {
    assert a + [p] + b == Inserted(a + b, |a|, p);
    forall q | q in a ensures Before(a + [p] + b, q, p) {
      var i :| 0 <= i < |a| && a[i] == q;
      assert (a + [p] + b)[i] == q && (a + [p] + b)[|a|] == p;
    }
    forall q | q in b ensures Before(a + [p] + b, p, q) {
      var i :| 0 <= i < |b| && b[i] == q;
      assert (a + [p] + b)[|a| + 1 + i] == q && (a + [p] + b)[|a|] == p;
    }
  }

  lemma NoSends()
    ensures Sends([]) == []
  {
  }

  /** What will be sent before the low list. */
  function AboveLow(s: Socket): seq<Pkg>
  {
    PartPkgs(s.trail.parts) + New(Hand(s)) + New(s.lists.dw) + Fresh(s.lists.high)
  }

  lemma FrontIs(s: Socket)
    ensures Front(s) == AboveLow(s) + Pkgs(s.lists.low)
  {
    hide PartPkgs, Pkgs, Fresh, New, Hand;
    assert Sends([]) == [];
  }

  lemma WorkerGrows(s: Socket, t: Tid, a: Act)
    requires LockOk(s) && WorkerOk(s, t) && ListOk(s.lists)
    ensures Grows(Front(s), Front(WorkerStep(s, t, a)), Entering(s, ByThread(t, a)))
  {
    hide Written, PartPkgs, Pkgs, Fresh, Sends, Front, WorkerStep;
    var s' := WorkerStep(s, t, a);
    assert Holding(PcOf(s, t)) <==> s.lock == ByWorker(t);
    if PcOf(s, t).Write? {
      DirectGrows(s, t, a);
    } else {
      SameFront(s, t, a);
    }
  }

  lemma SameFront(s: Socket, t: Tid, a: Act)
    requires LockOk(s) && WorkerOk(s, t) && ListOk(s.lists) && !PcOf(s, t).Write?
    ensures Front(WorkerStep(s, t, a)) == Front(s)
  {
    hide Written, PartPkgs, Pkgs, Fresh, Sends;
    assert Holding(PcOf(s, t)) <==> s.lock == ByWorker(t);
    if !Piping(PcOf(s, t)) {
      QuietLine(s, t, a);
      QuietTrail(s, t, a);
      Assoc(PartPkgs(s.trail.parts), New(Hand(s)), New(s.lists.dw));
      var s' := WorkerStep(s, t, a);
      Assoc(PartPkgs(s.trail.parts), New(Hand(s')), New(s'.lists.dw));
    }
  }

  lemma DirectGrows(s: Socket, t: Tid, a: Act)
    requires LockOk(s) && WorkerOk(s, t) && PcOf(s, t).Write?
    ensures Grows(Front(s), Front(WorkerStep(s, t, a)), Some(PcOf(s, t).p))
  {
    hide Written, PartPkgs, Pkgs, Fresh, Sends;
    assert Holding(PcOf(s, t)) <==> s.lock == ByWorker(t);
    var s', p := WorkerStep(s, t, a), PcOf(s, t).p;
    NewPart(s.trail, p, 0, if a.Wrote? && a.n <= p.size then a.n else 0);
    var done, rest := PartPkgs(s.trail.parts), Fresh(s.lists.high) + Pkgs(s.lists.low);
    NoSends();
    assert Front(s) == done + rest;
    assert Front(s') == done + [p] + rest;
    Behind(done, p, rest);
  }

  /** A package from the pipe: a high-priority one goes before the low list, a low-priority one into it, unless
      both lists are empty. */
  lemma SendGrows(s: Socket)
    requires s.server.Poll? && s.control.pipe != [] && s.control.pipe[0].SendCmd?
    ensures var s', p := ServerStep(s, Command), s.control.pipe[0].pkg;
            if !Accepts(s.status) then Front(s') == Front(s) && s'.lists.low == s.lists.low
            else if p.lane.Low? && !Empty(s.lists) then Front(s') == Front(s) + [p] && s'.lists.low == s.lists.low + [Buf(p, 0)]
            else Front(s') == AboveLow(s) + [p] + Pkgs(s.lists.low) && s'.lists.low == s.lists.low
  {
    hide PartPkgs, Pkgs, Fresh, New, Hand, Sends;
    var s', l, p := ServerStep(s, Command), s.lists, s.control.pipe[0].pkg;
    SameHand(s, s');
    PkgsAppend(l.high, Buf(p, 0));
    PkgsAppend(l.low, Buf(p, 0));
    NoneFresh();
    NoSends();
    assert [] + [Buf(p, 0)] == [Buf(p, 0)];
  }

  lemma CommandGrows(s: Socket)
    requires s.server.Poll? && s.control.pipe != [] && s.control.pipe[0].SendCmd?
    ensures Grows(Front(s), Front(ServerStep(s, Command)), Entering(s, BySocketThread(Command)))
  {
    hide Front, ServerStep, AboveLow, Pkgs, Accepts;
    var p := s.control.pipe[0].pkg;
    SendGrows(s);
    FrontIs(s);
    Behind(AboveLow(s), p, Pkgs(s.lists.low));
    Behind(Front(s), p, []);
    assert Front(s) + [] == Front(s) && Front(s) + [p] + [] == Front(s) + [p];
  }

  lemma FrontGrows(s: Socket, m: Move)
    requires Inv(s) && !Freeing(s, m)
    ensures Grows(Front(s), Front(Step(s, m)), Entering(s, m))
  {
    hide Inv, Front, WorkerStep, ServerStep, ListOk, ShapeOk, LockOk, WireOk, OrderOk, Grows;
    InvParts(s);
    match m
    case ByThread(t, a) =>
      assert WorkerOk(s, t);
      WorkerGrows(s, t, a);
    case BySocketThread(a) =>
      if s.server.Poll? && a.Command? && s.control.pipe != [] && s.control.pipe[0].SendCmd? {
        CommandGrows(s);
      } else {
        if s.server.SendHigh? || s.server.SendLow? { ListFront(s, a); } else { PollFront(s, a); }
        assert Grows(Front(s), Front(s), None) by { Unchanged(Front(s)); }
      }
  }

  lemma Unchanged(line: seq<Pkg>)
    ensures Grows(line, line, None)
  {
  }

  lemma NotGone(s: Socket, m: Move)
    requires ServerOk(s) && !Gone(Step(s, m))
    ensures !Gone(s) && !Freeing(s, m)
  {
    hide Gone, Step;
    ClosingStays(s, m);
    if Freeing(s, m) { FreeingIsGone(s, m); }
  }

  /** Two packages keep their order until the lists are freed. */
  lemma {:induction false} OrderStays(moves: seq<Move>, more: seq<Move>, p: Pkg, q: Pkg)
    requires Before(Front(Run(moves)), p, q) && !Gone(Run(moves + more))
    ensures Before(Front(Run(moves + more)), p, q)
    decreases |more|
  {
    hide Run, Step, Front, Inv, Gone, Freeing, Before;
    if more == [] {
      assert moves + more == moves;
    } else {
      var less, m := more[..|more| - 1], more[|more| - 1];
      assert less + [m] == more;
      Concat(moves, less, m);
      RunKeeps(moves + less);
      InvParts(Run(moves + less));
      NotGone(Run(moves + less), m);
      OrderStays(moves, less, p, q);
      FrontGrows(Run(moves + less), m);
      BeforeStays(Front(Run(moves + less)), Front(Run(moves + more)), Entering(Run(moves + less), m), p, q);
    }
  }

  // ---- The low list ----

  /** What is in the low list after a step was in it, or enters it. */
  lemma LowBefore(s: Socket, m: Move, q: Pkg)
    requires q in Pkgs(Step(s, m).lists.low)
    ensures q in Pkgs(s.lists.low) || Entering(s, m) == Some(q)
  {
    hide Written, Tear, HighSent, Taken;
    match m
    case ByThread(t, a) => LowSame(s, t, a);
    case BySocketThread(a) =>
      var i :| 0 <= i < |Pkgs(Step(s, m).lists.low)| && Pkgs(Step(s, m).lists.low)[i] == q;
      HighSentLow(s.lists);
      LowGoes(s, a, i);
      if k :| 0 <= k < |s.lists.low| && s.lists.low[k] == ServerStep(s, a).lists.low[i] { assert Pkgs(s.lists.low)[k] == q; }
  }

  lemma LowSame(s: Socket, t: Tid, a: Act)
    ensures WorkerStep(s, t, a).lists.low == s.lists.low
  {
    hide Written;
  }

  lemma HighSentLow(l: Lists)
    ensures forall n: nat :: l.high != [] ==> HighSent(l, n).low == l.low
    ensures Taken(l).low == l.low
  {
  }

  lemma LowGoes(s: Socket, a: Act, i: nat)
    requires i < |ServerStep(s, a).lists.low|
    ensures var b := ServerStep(s, a).lists.low[i];
            (exists k :: 0 <= k < |s.lists.low| && s.lists.low[k] == b) || Entering(s, BySocketThread(a)) == Some(b.pkg)
  {
    hide Written, Tear;
    var low := ServerStep(s, a).lists.low;
    if |low| == |s.lists.low| - 1 { assert low[i] == s.lists.low[i + 1]; }
    if i < |s.lists.low| && |low| >= |s.lists.low| { assert low[i] == s.lists.low[i]; }
  }

  /** A package stays in the low list until a part of it is written. */
  lemma LowStays(s: Socket, m: Move, q: Pkg)
    requires ListOk(s.lists) && !Freeing(s, m) && q in Pkgs(s.lists.low)
    ensures q in Pkgs(Step(s, m).lists.low) || q in PartPkgs(Step(s, m).trail.parts)
  {
    hide Written, Tear, HighSent, Taken, PartPkgs;
    match m
    case ByThread(t, a) => LowSame(s, t, a);
    case BySocketThread(a) =>
      var i :| 0 <= i < |Pkgs(s.lists.low)| && Pkgs(s.lists.low)[i] == q;
      HighSentLow(s.lists);
      if s.server.SendLow? && a.Wrote? {
        NewPart(s.trail, s.lists.low[0].pkg, s.lists.low[0].off, a.n);
      }
      LowKept(s, a, i);
  }

  lemma LowKept(s: Socket, a: Act, i: nat)
    requires ListOk(s.lists) && !s.server.FreeLists? && !s.server.Shut? && i < |s.lists.low|
    requires s.server.SendLow? && a.Wrote? && Starts(s.lists.low[0].pkg, s.lists.low[0].off, a.n) ==>
               s.lists.low[0].pkg in PartPkgs(Written(s.trail, s.lists.low[0].pkg, s.lists.low[0].off, a.n).parts)
    ensures var s' := ServerStep(s, a);
            s.lists.low[i].pkg in Pkgs(s'.lists.low) || s.lists.low[i].pkg in PartPkgs(s'.trail.parts)
  {
    hide Written, Tear, PartPkgs;
    var low, low' := s.lists.low, ServerStep(s, a).lists.low;
    if |low'| == |low| - 1 {
      if i > 0 { assert low'[i - 1] == low[i] && Pkgs(low')[i - 1] == low[i].pkg; }
    } else if |low'| >= |low| {
      assert low'[i] == low[i] && Pkgs(low')[i] == low[i].pkg;
    }
  }

  /** Packages that have been started stay so. */
  lemma PartsStay(s: Socket, m: Move, q: Pkg)
    requires WireOk(s) && ListOk(s.lists) && LockOk(s) && q in PartPkgs(s.trail.parts)
    ensures q in PartPkgs(Step(s, m).trail.parts)
  {
    hide Written, HighSent, LowSent, Taken, TrailOk, LockOk, Progress;
    var i :| 0 <= i < |s.trail.parts| && s.trail.parts[i].pkg == q;
    match m
    case ByThread(t, a) =>
      if PcOf(s, t).Write? {
        var p := PcOf(s, t).p;
        PartStays(s.trail, p, 0, if a.Wrote? && a.n <= p.size then a.n else 0, i);
      }
      WorkerParts(s, t, a);
      assert PartPkgs(Step(s, m).trail.parts)[i] == q;
    case BySocketThread(a) =>
      if a.Wrote? && s.lists.high != [] { PartStays(s.trail, s.lists.high[0].pkg, s.lists.high[0].off, a.n, i); }
      if a.Wrote? && s.lists.low != [] { PartStays(s.trail, s.lists.low[0].pkg, s.lists.low[0].off, a.n, i); }
      InProgress(s);
      ServerParts(s, a, i);
      assert PartPkgs(Step(s, m).trail.parts)[i] == q;
  }

  lemma WorkerParts(s: Socket, t: Tid, a: Act)
    ensures var pc := PcOf(s, t);
            WorkerStep(s, t, a).trail
            == if pc.Write? then Written(s.trail, pc.p, 0, if a.Wrote? && a.n <= pc.p.size then a.n else 0) else s.trail
  {
    hide Written;
  }

  /** A package of which a part has been written, at the head of a list, is the last that the peer sees. */
  lemma InProgress(s: Socket)
    requires WireOk(s) && ListOk(s.lists) && LockOk(s)
    ensures (s.server.SendHigh? && s.lists.high != [] && s.lists.high[0].off > 0) ==> LastIs(s.trail.parts, s.lists.high[0])
    ensures s.lists.low != [] ==> s.lists.low[0].off == 0
  {
    ServerLock(s);
    ProgressIsLast(s.trail, Progress(Hand(s), s.lists));
  }

  lemma PartStays(w: Trail, p: Pkg, off: nat, n: nat, i: nat)
    requires i < |w.parts|
    ensures i < |Written(w, p, off, n).parts|
    ensures off == 0 || i < |w.parts| - 1 || LastIs(w.parts, Buf(p, off)) ==> Written(w, p, off, n).parts[i].pkg == w.parts[i].pkg
  {
  }

  lemma ServerParts(s: Socket, a: Act, i: nat)
    requires i < |s.trail.parts|
    requires s.server.SendHigh? && s.lists.high != [] && s.lists.high[0].off > 0 ==> LastIs(s.trail.parts, s.lists.high[0])
    requires s.lists.low != [] ==> s.lists.low[0].off == 0
    requires a.Wrote? && s.lists.high != [] ==>
               var b := s.lists.high[0];
               i < |Written(s.trail, b.pkg, b.off, a.n).parts|
               && (b.off == 0 || LastIs(s.trail.parts, b) ==> Written(s.trail, b.pkg, b.off, a.n).parts[i].pkg == s.trail.parts[i].pkg)
    requires a.Wrote? && s.lists.low != [] ==>
               var b := s.lists.low[0];
               i < |Written(s.trail, b.pkg, b.off, a.n).parts|
               && (b.off == 0 ==> Written(s.trail, b.pkg, b.off, a.n).parts[i].pkg == s.trail.parts[i].pkg)
    ensures var s' := ServerStep(s, a); i < |s'.trail.parts| && s'.trail.parts[i].pkg == s.trail.parts[i].pkg
  {
    hide Written, HighSent, LowSent, Taken, SendSocket;
  }

  // ---- Overtaking ----

  const COMMAND := BySocketThread(Command)

  /** The socket thread is about to take package p from the pipe, and to list it. */
  predicate TakesSend(s: Socket, p: Pkg)
  {
    s.server.Poll? && s.control.pipe != [] && s.control.pipe[0] == SendCmd(p) && Accepts(s.status)
  }

  /** No package is among those that have left the pipe twice. */
  lemma NotInBoth(s: Socket, q: Pkg)
    requires Inv(s)
    ensures !(q in AboveLow(s) && q in Pkgs(s.lists.low))
  {
    hide AboveLow, Front, LineOf, Pkgs, Inv;
    var a, b := AboveLow(s), Pkgs(s.lists.low);
    FrontIs(s);
    LineIsFront(s);
    LineFacts(s);
    forall i, j | 0 <= i < |a| && 0 <= j < |b| ensures a[i] != b[j] {
      assert LineOf(s)[i] == a[i] && LineOf(s)[|a| + j] == b[j];
    }
  }

  /** From the time when a low-priority package was listed: if it went into the low list, it is there or has been
      started; if not, it never is. */
  lemma {:induction false} WhereLow(moves: seq<Move>, more: seq<Move>, q: Pkg)
    requires TakesSend(Run(moves), q) && q.lane.Low? && !Gone(Run(moves + [COMMAND] + more))
    ensures var s, s' := Run(moves), Run(moves + [COMMAND] + more);
            && q in Front(s')
            && (q in Pkgs(s'.lists.low) ==> !Empty(s.lists))
            && (!Empty(s.lists) ==> q in Pkgs(s'.lists.low) || q in PartPkgs(s'.trail.parts))
    decreases |more|
  {
    hide Run, Step, Front, Inv, Gone, Freeing, Pkgs, PartPkgs, TakesSend, Empty;
    if more == [] {
      assert moves + [COMMAND] + more == moves + [COMMAND];
      RunStep(moves, COMMAND);
      RunKeeps(moves);
      FirstPlace(Run(moves), q);
    } else {
      var less, m := more[..|more| - 1], more[|more| - 1];
      assert less + [m] == more;
      Concat(moves + [COMMAND], less, m);
      var s := Run(moves + [COMMAND] + less);
      RunKeeps(moves + [COMMAND] + less);
      InvParts(s);
      NotGone(s, m);
      WhereLow(moves, less, q);
      FrontStep(s, m, q);
      if q in Pkgs(s.lists.low) {
        LowStays(s, m, q);
      } else if q in PartPkgs(s.trail.parts) {
        PartsStay(s, m, q);
      }
      if q in Pkgs(Step(s, m).lists.low) {
        LowBefore(s, m, q);
        EntersOnce(s, m, q);
      }
    }
  }

  lemma FirstPlace(s: Socket, q: Pkg)
    requires Inv(s) && TakesSend(s, q) && q.lane.Low?
    ensures var s' := Step(s, COMMAND);
            q in Front(s') && (q in Pkgs(s'.lists.low) <==> !Empty(s.lists))
  {
    hide Inv, Front, AboveLow, ServerStep;
    SendGrows(s);
    PkgsAppend(s.lists.low, Buf(q, 0));
    FrontIs(s);
    InPipe(s, q);
    if Empty(s.lists) { assert q !in Pkgs(s.lists.low); }
  }

  /** A package at the head of the pipe has not left it. */
  lemma InPipe(s: Socket, q: Pkg)
    requires Inv(s) && s.control.pipe != [] && s.control.pipe[0] == SendCmd(q)
    ensures q !in Front(s)
  {
    hide Inv, Front;
    SendsHead(s.control.pipe);
    OnceInLine(s, q);
  }

  /** What has left the pipe does not enter again. */
  lemma EntersOnce(s: Socket, m: Move, q: Pkg)
    requires Inv(s) && q in Front(s)
    ensures Entering(s, m) != Some(q)
  {
    hide Front, LineOf;
    if Entering(s, m) == Some(q) {
      match m
      case ByThread(t, a) =>
        assert QueueOk(s, t) && WorkerOk(s, t);
        LineIsFront(s);
        HandedOver(s, q);
        NotIssued(s, t);
      case BySocketThread(a) => InPipe(s, q);
    }
  }

  /** A package that is about to be written directly has not been handed over. */
  lemma NotIssued(s: Socket, t: Tid)
    requires QueueOk(s, t) && PcOf(s, t).Write?
    ensures PcOf(s, t).p.num >= Issued(s.senders, PcOf(s, t).p.lane)
  {
  }

  /** Packages that the peer sees have left the pipe, in this order. */
  ghost predicate Precedes(parts: seq<Part>, p: Pkg, q: Pkg)
  {
    forall j :: 0 <= j < |parts| && parts[j].pkg == q ==> exists i :: 0 <= i < j && parts[i].pkg == p
  }

  lemma SeenInOrder(s: Socket, p: Pkg, q: Pkg)
    requires Inv(s) && Before(Front(s), p, q)
    ensures Precedes(s.trail.parts, p, q)
  {
    hide Front, LineOf, Inv;
    var line, parts := LineOf(s), s.trail.parts;
    LineIsFront(s);
    LineFacts(s);
    var k, n :| 0 <= k < n < |Front(s)| && Front(s)[k] == p && Front(s)[n] == q;
    assert line[k] == p && line[n] == q;
    forall j | 0 <= j < |parts| && parts[j].pkg == q ensures exists i :: 0 <= i < j && parts[i].pkg == p {
      LinePart(s, j);
      assert j == n;
      LinePart(s, k);
    }
  }

  /** A high-priority package overtakes a low-priority one that was taken from the pipe before it if and only if
      the lists were not empty when that one was taken, and none of it has been written when the high-priority
      package is.  So the peer sees the one first, or the other. */
  lemma OvertakesExactly(moves: seq<Move>, more: seq<Move>, rest: seq<Move>, low: Pkg, high: Pkg)
    requires TakesSend(Run(moves), low) && low.lane.Low?
    requires TakesSend(Run(moves + [COMMAND] + more), high) && high.lane.High?
    requires !Gone(Run(moves + [COMMAND] + more + [COMMAND] + rest))
    ensures var parts := Run(moves + [COMMAND] + more + [COMMAND] + rest).trail.parts;
            if !Empty(Run(moves).lists) && low !in PartPkgs(Run(moves + [COMMAND] + more).trail.parts)
            then Precedes(parts, high, low) else Precedes(parts, low, high)
  {
    hide Run, Step, Inv, Gone, TakesSend, Empty, Pkgs, PartPkgs, Precedes, Front, Before;
    var then' := moves + [COMMAND] + more;
    var end := then' + [COMMAND] + rest;
    RunKeeps(then');
    RunKeeps(end);
    GoneStays(then' + [COMMAND], rest);
    RunStep(then', COMMAND);
    InvParts(Run(then'));
    NotGone(Run(then'), COMMAND);
    WhereLow(moves, more, low);
    NextOrder(Run(then'), low, high);
    var first, second := if low in Pkgs(Run(then').lists.low) then high else low, if low in Pkgs(Run(then').lists.low) then low else high;
    OrderStays(then' + [COMMAND], rest, first, second);
    SeenInOrder(Run(end), first, second);
    if low in PartPkgs(Run(then').trail.parts) { StartedIsAbove(Run(then'), low); }
  }

  lemma {:induction false} GoneStays(moves: seq<Move>, more: seq<Move>)
    requires !Gone(Run(moves + more))
    ensures !Gone(Run(moves))
    decreases |more|
  {
    hide Run, Step, Inv, Gone, Freeing;
    if more == [] {
      assert moves + more == moves;
    } else {
      var less, m := more[..|more| - 1], more[|more| - 1];
      assert less + [m] == more;
      Concat(moves, less, m);
      RunKeeps(moves + less);
      InvParts(Run(moves + less));
      NotGone(Run(moves + less), m);
      GoneStays(moves, less);
    }
  }

  lemma StartedIsAbove(s: Socket, q: Pkg)
    requires Inv(s) && q in PartPkgs(s.trail.parts)
    ensures q !in Pkgs(s.lists.low)
  {
    hide Inv, PartPkgs, Pkgs;
    NotInBoth(s, q);
    assert q in AboveLow(s);
  }

  lemma NextOrder(s: Socket, low: Pkg, high: Pkg)
    requires Inv(s) && TakesSend(s, high) && high.lane.High? && low in Front(s)
    ensures var line := Front(Step(s, COMMAND));
            if low in Pkgs(s.lists.low) then Before(line, high, low) else Before(line, low, high)
  {
    hide Inv, Front, AboveLow, ServerStep, Pkgs, Before;
    SendGrows(s);
    FrontIs(s);
    Behind(AboveLow(s), high, Pkgs(s.lists.low));
  }

  // ---- Low-priority packages in the high list ----

  /** The packages that threads have written directly, in part or whole. */
  ghost function Directs(moves: seq<Move>): set<Pkg>
  {
    if moves == [] then {}
    else
      var init, m := moves[..|moves| - 1], moves[|moves| - 1];
      Directs(init) + if m.ByThread? && PcOf(Run(init), m.t).Write? then {PcOf(Run(init), m.t).p} else {}
  }

  predicate HighFrom(bs: seq<Buf>, k: nat) { forall i :: k <= i < |bs| ==> bs[i].pkg.lane.High? }

  /** Behind the head of the high list there are high-priority packages only; when the head was written directly,
      behind the second one. */
  predicate PlacesOk(l: Lists, ds: set<Pkg>)
  {
    && HighFrom(l.high, 2)
    && (|l.high| > 1 && l.high[1].pkg.lane.Low? ==> l.high[0].pkg in ds && l.high[0].pkg.lane.High?)
    && (l.dw.Some? ==> l.dw.value.pkg in ds && l.dw.value.pkg.lane.High? && HighFrom(l.high, 1))
  }

  /** So it is while a thread has the lock and has found the high list empty. */
  predicate HolderOk(s: Socket, t: Tid, ds: set<Pkg>)
  {
    var pc := PcOf(s, t);
    (PastHigh(pc) ==> HighFrom(s.lists.high, 1)) && (pc.SetDw? ==> pc.p in ds && pc.p.lane.High?)
  }

  ghost predicate PriorityOk(s: Socket, ds: set<Pkg>)
  {
    PlacesOk(s.lists, ds) && forall t: Tid :: HolderOk(s, t, ds)
  }

  lemma WorkerPlaces(s: Socket, t: Tid, a: Act, ds: set<Pkg>, ds': set<Pkg>)
    requires PlacesOk(s.lists, ds) && HolderOk(s, t, ds) && WorkerOk(s, t) && QueueOk(s, t)
    requires ds <= ds' && (PcOf(s, t).Write? ==> PcOf(s, t).p in ds')
    ensures PlacesOk(WorkerStep(s, t, a).lists, ds') && HolderOk(WorkerStep(s, t, a), t, ds')
    ensures WorkerStep(s, t, a).lists.high == s.lists.high
  {
    hide Written;
  }

  lemma WorkerKeepsPriority(s: Socket, t: Tid, a: Act, ds: set<Pkg>, ds': set<Pkg>)
    requires Inv(s) && PriorityOk(s, ds)
    requires ds <= ds' && (PcOf(s, t).Write? ==> PcOf(s, t).p in ds')
    ensures PriorityOk(WorkerStep(s, t, a), ds')
  {
    hide Inv, WorkerStep, PlacesOk;
    InvParts(s);
    assert WorkerOk(s, t) && QueueOk(s, t) && HolderOk(s, t, ds);
    WorkerPlaces(s, t, a, ds, ds');
    var s' := WorkerStep(s, t, a);
    forall u: Tid ensures HolderOk(s', u, ds') {
      assert HolderOk(s, u, ds);
      if u != t { OtherThread(s, t, a, u); }
    }
  }

  lemma SendPlaces(l: Lists, st: Status, p: Pkg, ds: set<Pkg>)
    requires PlacesOk(l, ds)
    ensures PlacesOk(SendSocket(l, st, p), ds)
    ensures HighFrom(l.high, 1) ==> HighFrom(SendSocket(l, st, p).high, 1)
  {
  }

  lemma SentPlaces(l: Lists, n: nat, ds: set<Pkg>)
    requires PlacesOk(l, ds)
    ensures l.dw == None ==> PlacesOk(Taken(l), ds)
    ensures l.dw.Some? ==> PlacesOk(Taken(l), ds)
    ensures l.high != [] && l.dw == None ==> PlacesOk(HighSent(l, n), ds)
    ensures l.high == [] && l.low != [] && l.dw == None ==> PlacesOk(LowSent(l, n), ds)
  {
  }

  lemma FewerPlaces(l: Lists, armed: bool, ds: set<Pkg>)
    requires PlacesOk(l, ds)
    ensures PlacesOk(l.(armed := armed), ds) && PlacesOk(l.(high := [], low := []), ds) && PlacesOk(l.(dw := None), ds)
  {
  }

  lemma ServerPlaces(s: Socket, a: Act, ds: set<Pkg>)
    requires PlacesOk(s.lists, ds) && ShapeOk(s) && LockOk(s)
    ensures PlacesOk(ServerStep(s, a).lists, ds)
  {
    hide PlacesOk, SendSocket, Taken, HighSent, LowSent, Written, Tear, LockOk;
    ServerLock(s);
    FewerPlaces(s.lists, true, ds);
    FewerPlaces(s.lists, false, ds);
    if s.server.Poll? && a.Command? && s.control.pipe != [] && s.control.pipe[0].SendCmd? {
      SendPlaces(s.lists, s.status, s.control.pipe[0].pkg, ds);
    }
    SentPlaces(s.lists, if a.Wrote? then a.n else 0, ds);
  }

  lemma ServerKeepsHolders(s: Socket, a: Act, t: Tid, ds: set<Pkg>)
    requires PlacesOk(s.lists, ds) && LockOk(s) && HolderOk(s, t, ds)
    ensures HolderOk(ServerStep(s, a), t, ds)
  {
    hide ServerStep, SendSocket;
    ServerControl(s, a);
    assert Holding(PcOf(s, t)) <==> s.lock == ByWorker(t);
    assert PcOf(ServerStep(s, a), t) == PcOf(s, t);
    if PastHigh(PcOf(s, t)) {
      ServerListsWhileHeld(s, a);
      if s.control.pipe != [] && s.control.pipe[0].SendCmd? {
        SendPlaces(s.lists, s.status, s.control.pipe[0].pkg, ds);
      }
    }
  }

  lemma {:induction false} RunPlaces(moves: seq<Move>)
    ensures PriorityOk(Run(moves), Directs(moves))
    decreases |moves|
  {
    hide Inv, PlacesOk, HolderOk, WorkerStep, ServerStep;
    if moves == [] {
      StartPlaces();
    } else {
      var init, m := moves[..|moves| - 1], moves[|moves| - 1];
      RunPlaces(init);
      RunKeeps(init);
      InvParts(Run(init));
      match m
      case ByThread(t, a) => WorkerKeepsPriority(Run(init), t, a, Directs(init), Directs(moves));
      case BySocketThread(a) =>
        assert Directs(moves) == Directs(init);
        ServerPlaces(Run(init), a, Directs(init));
        forall t: Tid ensures HolderOk(Run(moves), t, Directs(moves)) { ServerKeepsHolders(Run(init), a, t, Directs(init)); }
    }
  }

  lemma StartPlaces()
    ensures PriorityOk(START, {})
  {
  }

  /** In every run there is at most one low-priority package in the high list: at its head, or directly behind a
      package that was written directly. */
  lemma LowsInHigh(moves: seq<Move>, i: nat)
    requires i < |Run(moves).lists.high| && Run(moves).lists.high[i].pkg.lane.Low?
    ensures i == 0 || (i == 1 && Run(moves).lists.high[0].pkg in Directs(moves))
    ensures forall j :: 0 <= j < |Run(moves).lists.high| && j != i ==> Run(moves).lists.high[j].pkg.lane.High?
  {
    hide Run;
    RunPlaces(moves);
  }
}
