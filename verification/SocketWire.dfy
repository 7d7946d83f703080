/** What reaches the peer: packages in one piece each. */
module SocketWire {
  import opened Socket
  import opened SocketProof

  /** The bytes of some parts, one after the other. */
  function Flat(parts: seq<Part>): seq<Unit>
  {
    if parts == [] then []
    else Flat(parts[..|parts| - 1]) + Bytes(parts[|parts| - 1].pkg, 0, parts[|parts| - 1].n)
  }

  predicate Whole(p: Part) { p.n == p.pkg.size }

  /** Packages follow each other; only the last may be incomplete. */
  predicate Contiguous(parts: seq<Part>)
  {
    forall i | 0 <= i < |parts| - 1 :: Whole(parts[i])
  }

  predicate Fits(parts: seq<Part>)
  {
    forall i | 0 <= i < |parts| :: parts[i].n <= parts[i].pkg.size
  }

  /** The package that a thread has written directly but not passed on. */
  function Hand(s: Socket): Option<Buf>
  {
    if s.lock.ByWorker? then
      var pc := PcOf(s, s.lock.t);
      if pc.SetDw? then Some(Buf(pc.p, pc.n)) else None
    else None
  }

  /** The package whose rest is still to be written. */
  function Progress(hand: Option<Buf>, l: Lists): Option<Buf>
  {
    if Started(hand) then hand
    else if Started(l.dw) then l.dw
    else if Started(Head(l.high)) then Head(l.high)
    else None
  }

  predicate LastIs(parts: seq<Part>, b: Buf)
  {
    b.off < b.pkg.size && parts != [] && parts[|parts| - 1] == Part(b.pkg, b.off)
  }

  predicate LastWhole(parts: seq<Part>) { parts == [] || Whole(parts[|parts| - 1]) }

  /** The wire is the parts; the last part is the package in progress; a package that will never be
      completed is last, or the wire is broken. */
  predicate TrailOk(w: Trail, b: Option<Buf>)
  {
    w.wire == Flat(w.parts)
    && Fits(w.parts)
    && (b.Some? ==> LastIs(w.parts, b.value))
    && (w.broken <==> !Contiguous(w.parts))
    && (w.broken ==> w.torn)
    && (!w.broken ==> if w.torn then b.None? && !LastWhole(w.parts) else b.None? ==> LastWhole(w.parts))
  }

  predicate WireOk(s: Socket)
  {
    TrailOk(s.trail, Progress(Hand(s), s.lists)) && (s.trail.torn ==> Gone(s))
  }

  function Ahead(p: Pkg, off: nat): Option<Buf>
  {
    if 0 < off < p.size then Some(Buf(p, off)) else None
  }

  lemma FlatAppend(parts: seq<Part>, p: Pkg, n: nat)
    ensures Flat(parts + [Part(p, n)]) == Flat(parts) + Bytes(p, 0, n)
  {
    assert (parts + [Part(p, n)])[..|parts|] == parts;
  }

  lemma FlatExtend(parts: seq<Part>, p: Pkg, off: nat, n: nat)
    requires parts != [] && parts[|parts| - 1] == Part(p, off)
    ensures Flat(parts[|parts| - 1 := Part(p, off + n)]) == Flat(parts) + Bytes(p, off, off + n)
  {
    var k := |parts| - 1;
    assert parts[k := Part(p, off + n)][..k] == parts[..k];
    assert Bytes(p, 0, off + n) == Bytes(p, 0, off) + Bytes(p, off, off + n);
    assert Flat(parts[..k]) + (Bytes(p, 0, off) + Bytes(p, off, off + n)) == Flat(parts[..k]) + Bytes(p, 0, off) + Bytes(p, off, off + n);
  }

  lemma WriteKeepsTrail(w: Trail, p: Pkg, off: nat, n: nat)
    requires off == 0 || off < p.size
    requires TrailOk(w, Ahead(p, off)) && off + n <= p.size && (off > 0 ==> !w.torn)
    ensures TrailOk(Written(w, p, off, n), Ahead(p, off + n))
  {
    hide Flat, Bytes;
    if Starts(p, off, n) {
      FlatAppend(w.parts, p, n);
      Appended(w.parts, Part(p, n));
    } else if off > 0 {
      FlatExtend(w.parts, p, off, n);
      Extended(w.parts, Part(p, off + n));
    } else {
      NoBytes(p);
      assert w.wire + [] == w.wire;
    }
  }

  lemma NoBytes(p: Pkg)
    ensures Bytes(p, 0, 0) == []
  {
  }

  lemma Appended(parts: seq<Part>, p: Part)
    ensures Contiguous(parts + [p]) <==> Contiguous(parts) && LastWhole(parts)
  {
    var parts' := parts + [p];
    if Contiguous(parts') {
      forall i | 0 <= i < |parts| ensures Whole(parts[i]) { assert parts'[i] == parts[i]; }
    }
  }

  lemma Extended(parts: seq<Part>, p: Part)
    requires parts != []
    ensures Contiguous(parts[|parts| - 1 := p]) <==> Contiguous(parts)
  {
    var parts' := parts[|parts| - 1 := p];
    forall i | 0 <= i < |parts| - 1 ensures Whole(parts[i]) <==> Whole(parts'[i]) { assert parts'[i] == parts[i]; }
    if Contiguous(parts') {
      forall i | 0 <= i < |parts| - 1 ensures Whole(parts[i]) { assert Whole(parts'[i]); }
    }
  }

  lemma TearKeepsTrail(w: Trail, b: Option<Buf>)
    requires TrailOk(w, b) && (b.Some? ==> !w.torn)
    ensures TrailOk(w.(torn := w.torn || b.Some?), None)
  {
  }

  // ---- Threads ----

  /** Who leaves a package to the socket thread has it in hand before. */
  lemma HandLeft(s: Socket, t: Tid, a: Act)
    requires LockOk(s) && WorkerOk(s, t) && PcOf(s, t).SetDw?
    ensures var s' := WorkerStep(s, t, a);
            Hand(s) == Some(Buf(PcOf(s, t).p, PcOf(s, t).n)) && s.lists.dw == None && Hand(s') == None
            && s'.lists == s.lists.(dw := Hand(s)) && s'.trail == s.trail && s'.status == s.status && s'.server == s.server
  {
    assert Holding(PcOf(s, t)) <==> s.lock == ByWorker(t);
  }

  /** Otherwise, but for writing, nothing is taken in hand or left. */
  lemma HandKept(s: Socket, t: Tid, a: Act)
    requires (Holding(PcOf(s, t)) <==> s.lock == ByWorker(t)) && !PcOf(s, t).Write? && !PcOf(s, t).SetDw?
    ensures var s' := WorkerStep(s, t, a);
            Hand(s') == Hand(s) && s'.lists == s.lists && s'.trail == s.trail && s'.status == s.status && s'.server == s.server
  {
    hide DirectWrite;
    var s' := WorkerStep(s, t, a);
    if s.lock.ByWorker? && s.lock.t != t { OtherThread(s, t, a, s.lock.t); }
  }

  lemma WorkerKeepsProgress(s: Socket, t: Tid, a: Act)
    requires LockOk(s) && WorkerOk(s, t) && !PcOf(s, t).Write?
    ensures var s' := WorkerStep(s, t, a);
            Progress(Hand(s'), s'.lists) == Progress(Hand(s), s.lists)
            && s'.trail == s.trail && (Gone(s') <==> Gone(s))
  {
    hide WorkerStep;
    assert Holding(PcOf(s, t)) <==> s.lock == ByWorker(t);
    if PcOf(s, t).SetDw? { HandLeft(s, t, a); } else { HandKept(s, t, a); }
  }

  lemma DirectKeepsWire(s: Socket, t: Tid, a: Act)
    requires WireOk(s) && LockOk(s) && WorkerOk(s, t) && PcOf(s, t).Write?
    ensures WireOk(WorkerStep(s, t, a))
  {
    hide Written, TrailOk;
    assert Holding(PcOf(s, t)) <==> s.lock == ByWorker(t);
    var p := PcOf(s, t).p;
    var n := if a.Wrote? && a.n <= p.size then a.n else 0;
    var s' := WorkerStep(s, t, a);
    assert Progress(Hand(s), s.lists) == None;
    WriteKeepsTrail(s.trail, p, 0, n);
    WrittenTorn(s.trail, p, 0, n);
    assert Progress(Hand(s'), s'.lists) == Ahead(p, n);
    assert s'.trail == Written(s.trail, p, 0, n);
  }

  lemma WrittenTorn(w: Trail, p: Pkg, off: nat, n: nat)
    ensures Written(w, p, off, n).torn == w.torn
  {
  }

  lemma WorkerKeepsWire(s: Socket, t: Tid, a: Act)
    requires WireOk(s) && LockOk(s) && WorkersOk(s)
    ensures WireOk(WorkerStep(s, t, a))
  {
    hide WorkerStep, TrailOk, Hand, Progress, LockOk;
    assert WorkerOk(s, t);
    if PcOf(s, t).Write? {
      DirectKeepsWire(s, t, a);
    } else {
      WorkerKeepsProgress(s, t, a);
    }
  }

  // ---- The socket thread ----

  lemma TakenKeepsProgress(l: Lists)
    requires ListOk(l)
    ensures Progress(None, Taken(l)) == Progress(None, l)
  {
  }

  lemma SendKeepsProgress(h: Option<Buf>, l: Lists, st: Status, p: Pkg)
    ensures Progress(h, SendSocket(l, st, p)) == Progress(h, l)
  {
  }

  lemma HighSentKeepsTrail(w: Trail, l: Lists, n: nat)
    requires ListOk(l) && l.dw == None && l.high != [] && n <= Rest(l.high[0]) && !w.torn
    requires TrailOk(w, Progress(None, l))
    ensures var b := l.high[0]; TrailOk(Written(w, b.pkg, b.off, n), Progress(None, HighSent(l, n)))
  {
    hide Written, TrailOk;
    var b := l.high[0];
    WriteKeepsTrail(w, b.pkg, b.off, n);
  }

  lemma LowSentKeepsTrail(w: Trail, l: Lists, n: nat)
    requires ListOk(l) && l.dw == None && l.high == [] && l.low != [] && n <= Rest(l.low[0]) && !w.torn
    requires TrailOk(w, Progress(None, l))
    ensures var b := l.low[0]; TrailOk(Written(w, b.pkg, b.off, n), Progress(None, LowSent(l, n)))
  {
    hide Written, TrailOk;
    var b := l.low[0];
    WriteKeepsTrail(w, b.pkg, b.off, n);
  }

  lemma HighStepKeepsWire(s: Socket, a: Act)
    requires WireOk(s) && ListOk(s.lists) && ShapeOk(s) && LockOk(s) && ServerOk(s) && s.server.SendHigh?
    ensures WireOk(ServerStep(s, a))
  {
    hide Written, TrailOk, HighSent, ListOk, Progress;
    ServerLock(s);
    var s' := ServerStep(s, a);
    if s.lists.high != [] && a.Wrote? && a.n <= Rest(s.lists.high[0]) {
      var b := s.lists.high[0];
      HighSentKeepsTrail(s.trail, s.lists, a.n);
      WrittenTorn(s.trail, b.pkg, b.off, a.n);
    }
  }

  lemma LowStepKeepsWire(s: Socket, a: Act)
    requires WireOk(s) && ListOk(s.lists) && ShapeOk(s) && LockOk(s) && ServerOk(s) && s.server.SendLow?
    ensures WireOk(ServerStep(s, a))
  {
    hide Written, TrailOk, LowSent, ListOk, Progress;
    ServerLock(s);
    var s' := ServerStep(s, a);
    if s.lists.low != [] && a.Wrote? && a.n <= Rest(s.lists.low[0]) {
      var b := s.lists.low[0];
      LowSentKeepsTrail(s.trail, s.lists, a.n);
      WrittenTorn(s.trail, b.pkg, b.off, a.n);
    }
  }

  /** Freeing the lists tears the package whose rest was in them, and no other. */
  lemma FreeKeepsWire(s: Socket, a: Act)
    requires WireOk(s) && ListOk(s.lists) && LockOk(s) && WorkersOk(s) && ServerOk(s) && s.server.FreeLists?
    ensures WireOk(ServerStep(s, a))
  {
    hide TrailOk;
    HandAlone(s);
    TearKeepsTrail(s.trail, Progress(Hand(s), s.lists));
  }

  /** A thread that has written directly has found the lists clean. */
  lemma HandAlone(s: Socket)
    requires LockOk(s) && WorkersOk(s)
    ensures Hand(s).Some? ==> Clean(s.lists.high) && s.lists.dw == None
  {
    if s.lock.ByWorker? {
      assert WorkerOk(s, s.lock.t);
    }
  }

  lemma ShutKeepsWire(s: Socket, a: Act)
    requires WireOk(s) && ListOk(s.lists) && ShapeOk(s) && s.server.Shut?
    ensures WireOk(ServerStep(s, a))
  {
    hide TrailOk;
    if !s.lock.ByWorker? {
      var b := Progress(Hand(s), s.lists);
      assert Progress(Hand(ServerStep(s, a)), ServerStep(s, a).lists) == None;
      ShutTears(s.trail, b);
    }
  }

  lemma ShutTears(w: Trail, b: Option<Buf>)
    requires TrailOk(w, b) && (b.Some? ==> b.value.off > 0)
    ensures TrailOk(Tear(w, b), None)
  {
  }

  lemma RearmedProgress(h: Option<Buf>, l: Lists)
    ensures forall armed: bool :: Progress(h, l.(armed := armed)) == Progress(h, l)
  {
  }

  lemma PollKeepsProgress(s: Socket, a: Act)
    requires ListOk(s.lists) && LockOk(s) && ServerOk(s)
    requires !s.server.SendHigh? && !s.server.SendLow? && !s.server.FreeLists? && !s.server.Shut?
    ensures var s' := ServerStep(s, a);
            Progress(Hand(s'), s'.lists) == Progress(Hand(s), s.lists) && s'.trail == s.trail
            && (Gone(s) ==> Gone(s'))
  {
    hide Progress, Taken, SendSocket, ListOk, LockOk;
    ServerLock(s);
    TakenKeepsProgress(s.lists);
    RearmedProgress(Hand(s), s.lists);
    if s.control.pipe != [] && s.control.pipe[0].SendCmd? {
      SendKeepsProgress(Hand(s), s.lists, s.status, s.control.pipe[0].pkg);
    }
  }

  lemma ServerKeepsWire(s: Socket, a: Act)
    requires WireOk(s) && ListOk(s.lists) && ShapeOk(s) && LockOk(s) && WorkersOk(s) && ServerOk(s)
    ensures WireOk(ServerStep(s, a))
  {
    hide ServerStep, TrailOk, Hand, Progress, LockOk, ListOk, WorkersOk;
    match s.server
    case SendHigh => HighStepKeepsWire(s, a);
    case SendLow => LowStepKeepsWire(s, a);
    case FreeLists(_) => FreeKeepsWire(s, a);
    case Shut(_) => ShutKeepsWire(s, a);
    case _ => PollKeepsProgress(s, a);
  }
}
