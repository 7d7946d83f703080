/** A socket as the socket thread handles it, in place.  Each method is one call of the source: it does what
    some steps do in the state machine.  Other threads take steps in between where the source waits for
    them, which is when force_close spins on dw_lock. */
module SocketSlot {
  import opened Socket
  import opened SocketProof
  import opened SocketTheorems
  import opened SocketRuns

  /** In every state that can be reached, `waits` names steps of other threads after which the lock is free. */
  ghost predicate Releases(waits: Socket -> seq<Move>)
  {
    forall s: Socket :: Inv(s) ==> ByOthers(waits(s)) && !Serve(s, waits(s)).lock.ByWorker?
  }

  /** What happens while force_close waits: the lists have been freed. */
  ghost function Waited(s: Socket, waits: Socket -> seq<Move>): (others: seq<Move>)
    requires Inv(s) && s.server.FreeLists? && Releases(waits)
    ensures ByOthers(others) && !Serve(ServerStep(s, Go), others).lock.ByWorker?
  {
    StepKeeps(s, BySocketThread(Go));
    waits(ServerStep(s, Go))
  }

  /** What write returns; an interrupted call is made again at once. */
  datatype Outcome = Count(n: nat) | WouldBlock | Failed

  /** What the functions of the source return: -1, or what to report. */
  datatype Return = Ignore | Reset | Report(e: Event)

  function Events(r: Return): seq<Event> { if r.Report? then [r.e] else [] }

  lemma InvFacts(s: Socket)
    requires Inv(s)
    ensures Clean(s.lists.low) && (s.server.SendLow? ==> s.lists.high == [])
  {
  }

  lemma InvDrained(s: Socket)
    requires Inv(s)
    ensures s.server == Drained ==> s.lists.high == [] && s.lists.low == [] && s.lists.wbSize == 0
  {
  }

  class Slot {
    var kind: Type
    var closing: bool
    var high: seq<Buf>
    var low: seq<Buf>
    var wbSize: int
    var dw: Option<Buf>
    var armed: bool

    ghost predicate Matches(s: Socket)
      reads this
    {
      s.status.kind == kind && s.status.closing == closing && s.lists == Lists(high, low, wbSize, dw, armed)
    }

    constructor ()
      ensures Matches(START)
    {
      kind, closing, high, low, wbSize, dw, armed := Connected, false, [], [], 0, None, false;
    }

    /** force_close; it frees the lists, and waits for the lock while other threads go on. */
    method ForceClose(ghost s: Socket, ghost raise: bool, ghost others: seq<Move>) returns (ghost s': Socket)
      requires Matches(s) && s.server == FreeLists(raise)
      requires ByOthers(others) && !Serve(ServerStep(s, Go), others).lock.ByWorker?
      modifies this
      ensures Reaches(s, s') && Matches(s') && kind == Invalid && high == [] && low == []
      ensures s'.server == Poll && s'.lock == Free && (others == [] ==> s'.control == s.control)
      ensures s'.status.log == s.status.log + if raise then [CloseEvent] else []
    {
      hide Serve, Written;
      Stay(s);
      high, low := [], [];
      Go1(s, s, Go);
      ghost var s1 := ServerStep(s, Go);
      ghost var s2 := Serve(s1, others);
      NoOthers(s1);
      OthersLeave(s1, others);
      assert Reaches(s1, s2);
      Join(s, s1, s2);
      kind := Invalid;
      dw := None;
      Go1(s, s2, Go);
      s' := ServerStep(s2, Go);
    }

    lemma NoOthers(s: Socket)
      ensures Serve(s, []) == s && ByOthers([])
    {
    }

    method CloseWrite(ghost s: Socket) returns (r: Return, ghost s': Socket)
      requires Matches(s) && s.server == ServerPc.CloseWrite && s.lock == ByServer && kind != Invalid
      modifies this
      ensures r != Ignore && Reaches(s, s') && Matches(s') && s'.control == s.control && Released(s')
      ensures s'.status.log == s.status.log + Events(r)
      ensures (high == old(high) && low == old(low)) || (high == [] && low == [])
    {
      hide Serve;
      Stay(s);
      Go1(s, s, Go);
      s' := ServerStep(s, Go);
      if closing || kind == HalfcloseRead {
        NoOthers(ServerStep(s', Go));
        s' := ForceClose(s', false, []);
        Join(s, ServerStep(s, Go), s');
        r := Reset;
      } else if kind == HalfcloseWrite {
        r := Reset;
      } else {
        kind := HalfcloseWrite;
        armed := false;
        r := Report(ErrEvent);
      }
    }

    /** Up to the return from send_buffer_: the lock has been given back with the socket, or is about to be. */
    ghost predicate Released(s: Socket)
      reads this
    {
      if kind == Invalid then s.server == Poll && s.lock == Free else s.server == Unlock && s.lock == ByServer
    }

    /** The list that send_list_tcp works on. */
    function ListAt(ofLow: bool): seq<Buf>
      reads this
    {
      if ofLow then low else high
    }

    /** What raise_uncomplete will make of the lists. */
    ghost predicate MatchesRaised(s: Socket)
      reads this
    {
      s.status.kind == kind && s.status.closing == closing
      && s.lists == if low != [] && low[0].off > 0 then Lists([low[0]], low[1..], wbSize, dw, armed)
                    else Lists(high, low, wbSize, dw, armed)
    }

    /** One write; `whole` if the package is complete. */
    method WriteHead(ofLow: bool, n: nat, ghost s: Socket) returns (whole: bool, ghost s': Socket)
      requires Matches(s) && AtList(s, ofLow) && ListAt(ofLow) != [] && n <= Rest(ListAt(ofLow)[0])
      requires Clean(low) && (ofLow ==> high == [])
      modifies this`high, this`low, this`wbSize
      ensures Reaches(s, s') && s'.control == s.control && s'.status == s.status && s'.lock == s.lock
      ensures whole == (n == old(Rest(ListAt(ofLow)[0])))
      ensures if whole then Matches(s') && s'.server == s.server && ListAt(ofLow) == old(ListAt(ofLow)[1..])
              else MatchesRaised(s') && s'.server == Unlock && ListAt(ofLow) != []
      ensures (ofLow ==> high == []) && (whole || !ofLow ==> Clean(low))
    {
      hide Serve, Written;
      Stay(s);
      Go1(s, s, Wrote(n));
      s' := ServerStep(s, Wrote(n));
      var b := ListAt(ofLow)[0];
      wbSize := wbSize - n;
      whole := n == Rest(b);
      var rest := ListAt(ofLow)[1..];
      var list := if whole then rest else [Buf(b.pkg, b.off + n)] + rest;
      if ofLow {
        low := list;
        assert !whole ==> low[0] == Buf(b.pkg, n) && low[1..] == rest;
      } else {
        high := list;
      }
    }

    ghost predicate AtList(s: Socket, ofLow: bool)
      reads this`kind
    {
      s.server == (if ofLow then SendLow else SendHigh) && s.lock == ByServer && kind != Invalid
    }

    /** write failed. */
    method SendFailed(ofLow: bool, ghost s: Socket) returns (r: Return, ghost s': Socket)
      requires Matches(s) && AtList(s, ofLow) && ListAt(ofLow) != []
      requires Clean(low) && (ofLow ==> high == [])
      modifies this
      ensures r != Ignore && Reaches(s, s') && MatchesRaised(s') && Released(s') && s'.control == s.control
      ensures s'.status.log == s.status.log + Events(r)
      ensures (ofLow ==> high == []) && Clean(low)
    {
      hide Serve;
      Stay(s);
      Go1(s, s, Fatal);
      ghost var s1 := ServerStep(s, Fatal);
      r, s' := CloseWrite(s1);
      Join(s, s1, s');
    }

    lemma Blocked(ofLow: bool, s: Socket, s': Socket)
      requires Matches(s') && AtList(s', ofLow) && ListAt(ofLow) != [] && Clean(low) && Reaches(s, s')
      ensures var s2 := ServerStep(s', Again);
              Reaches(s, s2) && MatchesRaised(s2) && s2.server == Unlock
              && s2.control == s'.control && s2.status == s'.status && s2.lock == s'.lock
    {
      hide Serve;
      Go1(s, s', Again);
    }

    lemma Emptied(ofLow: bool, s: Socket)
      requires Matches(s) && (low != [] ==> low[0].off == 0)
      ensures MatchesRaised(s)
    {
    }

    method SendListTcp(ofLow: bool, outcomes: seq<Outcome>, ghost s: Socket)
      returns (r: Return, left: seq<Outcome>, ghost s': Socket)
      requires Matches(s) && AtList(s, ofLow)
      requires Clean(low) && (ofLow ==> high == [])
      modifies this
      ensures Reaches(s, s') && MatchesRaised(s') && s'.control == s.control
      ensures s'.status.log == s.status.log + Events(r)
      ensures (ofLow ==> high == []) && (!ofLow || r != Ignore ==> Clean(low))
      ensures r != Ignore ==> Released(s')
      ensures r == Ignore ==>
                s'.lock == ByServer && kind != Invalid && s'.server == if ListAt(ofLow) == [] then s.server else Unlock
    {
      hide Serve, ServerStep, Reaches, MatchesRaised, Matches;
      left := outcomes;
      s' := s;
      r := Ignore;
      Stay(s);
      while ListAt(ofLow) != []
        invariant Reaches(s, s') && Matches(s') && AtList(s', ofLow)
        invariant s'.control == s.control && s'.status == s.status
        invariant Clean(low) && (ofLow ==> high == [])
        decreases |ListAt(ofLow)|
      {
        var b := ListAt(ofLow)[0];
        var out := if left == [] then WouldBlock else left[0];
        left := if left == [] then left else left[1..];
        ghost var s1 := s';
        match out {
          case WouldBlock =>
            Blocked(ofLow, s, s1);
            s' := ServerStep(s1, Again);
            return;
          case Failed =>
            r, s' := SendFailed(ofLow, s1);
            Join(s, s1, s');
            return;
          case Count(n) =>
            var whole;
            whole, s' := WriteHead(ofLow, if n < Rest(b) then n else Rest(b), s1);
            Join(s, s1, s');
            if !whole {
              return;
            }
        }
      }
      Emptied(ofLow, s');
    }

    method SendBufferLow(outcomes: seq<Outcome>, ghost s: Socket)
      returns (r: Return, empty: bool, ghost s': Socket)
      requires Inv(s) && Matches(s) && AtList(s, true) && high == []
      modifies this
      ensures Reaches(s, s') && Matches(s') && s'.control == s.control
      ensures s'.status.log == s.status.log + Events(r)
      ensures if empty then r == Ignore && s'.server == Drained && s'.lock == ByServer && kind != Invalid else Released(s')
    {
      hide Serve, ServerStep, Reaches, Inv;
      InvFacts(s);
      var left;
      r, left, s' := SendListTcp(true, outcomes, s);
      empty := r == Ignore && low == [];
      if r == Ignore {
        if low == [] {
          LowDone(s, s');
          s' := ServerStep(s', Go);
        } else if low[0].off > 0 {
          // raise_uncomplete
          high, low := [low[0]], low[1..];
        }
      }
    }

    lemma LowDone(s: Socket, s': Socket)
      requires Reaches(s, s') && s'.server == SendLow && s'.lists.low == []
      ensures Reaches(s, ServerStep(s', Go)) && ServerStep(s', Go) == s'.(server := Drained)
    {
      Go1(s, s', Go);
    }

    lemma HighDone(s: Socket, s': Socket)
      requires Reaches(s, s') && s'.server == SendHigh && s'.lists.high == []
      ensures Reaches(s, ServerStep(s', Go))
      ensures ServerStep(s', Go) == s'.(server := if s'.lists.low == [] then Drained else SendLow)
    {
      Go1(s, s', Go);
    }

    /** send_buffer_. */
    method SendBufferLocked(outcomes: seq<Outcome>, ghost s: Socket) returns (r: Return, ghost s': Socket)
      requires Inv(s) && Matches(s) && AtList(s, false)
      modifies this
      ensures Reaches(s, s') && Matches(s') && Released(s') && s'.control == s.control
      ensures s'.status.log == s.status.log + Events(r)
    {
      hide Serve, ServerStep, Reaches, Inv;
      InvFacts(s);
      assert low != [] ==> low[0].off == 0;
      var left;
      r, left, s' := SendListTcp(false, outcomes, s);
      if r != Ignore || high != [] {
        return;
      }
      HighDone(s, s');
      s' := ServerStep(s', Go);
      if low != [] {
        ReachesInv(s, s');
        ghost var s1 := s';
        var empty;
        r, empty, s' := SendBufferLow(left, s1);
        Join(s, s1, s');
        if !empty {
          return;
        }
      }
      ReachesInv(s, s');
      ghost var s2 := s';
      s' := AllSent(s2);
      Join(s, s2, s');
    }

    /** Nothing is left to send. */
    method AllSent(ghost s: Socket) returns (ghost s': Socket)
      requires Inv(s) && Matches(s) && s.server == Drained && s.lock == ByServer && kind != Invalid
      modifies this
      ensures Reaches(s, s') && Matches(s') && Released(s') && s'.control == s.control && s'.status.log == s.status.log
    {
      hide Serve, ServerStep, Reaches, Inv;
      InvDrained(s);
      assert high == [] && low == [] && wbSize == 0;
      Stay(s);
      Go1(s, s, Go);
      DrainedStep(s);
      s' := ServerStep(s, Go);
      if closing {
        ghost var s1 := s';
        NoOthers(ServerStep(s1, Go));
        FreeStepLock(s1);
        s' := ForceClose(s1, false, []);
        Join(s, s1, s');
      } else {
        armed := false;
      }
    }

    lemma FreeStepLock(s: Socket)
      requires s.server.FreeLists?
      ensures ServerStep(s, Go).lock == s.lock
    {
    }

    lemma DrainedStep(s: Socket)
      requires s.server == Drained
      ensures ServerStep(s, Go)
              == if s.status.closing then s.(server := FreeLists(false))
                 else s.(lists := s.lists.(armed := false), server := Unlock)
    {
    }

    /** send_buffer, for an event of the poller. */
    method SendBuffer(outcomes: seq<Outcome>, ghost s: Socket, locked: bool) returns (r: Return, ghost s': Socket)
      requires Inv(s) && Matches(s) && s.server == Poll && kind != Invalid && armed && locked == (s.lock != Free)
      modifies this
      ensures Reaches(s, s') && Matches(s') && s'.server == Poll && s'.control == s.control
      ensures s'.status.log == s.status.log + Events(r)
    {
      hide Serve, ServerStep, Reaches, Inv;
      Stay(s);
      s' := s;
      r := Ignore;
      if locked {
        return;
      }
      Go1(s, s, CanWrite);
      s' := ServerStep(s, CanWrite);
      TakingStep(s);
      if dw.Some? {
        wbSize := wbSize + Rest(dw.value);
        high := [dw.value] + high;
        dw := None;
      }
      ReachesInv(s, s');
      ghost var s1 := s';
      r, s' := SendBufferLocked(outcomes, s1);
      Join(s, s1, s');
      if s'.server == Unlock {
        Go1(s, s', Go);
        UnlockStep(s');
        s' := ServerStep(s', Go);
      }
    }

    lemma TakingStep(s: Socket)
      requires s.server == Poll && s.status.kind != Invalid && s.lock == Free && s.lists.armed
      ensures ServerStep(s, CanWrite) == s.(lists := Taken(s.lists), lock := ByServer, server := SendHigh)
    {
    }

    lemma UnlockStep(s: Socket)
      requires s.server == Unlock
      ensures ServerStep(s, Go) == s.(lock := Free, server := Poll)
    {
    }

    /** send_socket and dec_sending_ref, for the first command in the pipe. */
    method SendCommand(p: Pkg, ghost s: Socket) returns (ghost s': Socket)
      requires Matches(s) && s.server == Poll && s.control.pipe != [] && s.control.pipe[0] == SendCmd(p)
      modifies this
      ensures Reaches(s, s') && Matches(s') && s'.server == Poll
    {
      hide Serve;
      Stay(s);
      Go1(s, s, Command);
      s' := ServerStep(s, Command);
      if kind != Invalid && kind != HalfcloseWrite && !closing {
        if high == [] && low == [] {
          high := [Buf(p, 0)];
          armed := true;
        } else if p.lane.High? {
          high := high + [Buf(p, 0)];
        } else {
          low := low + [Buf(p, 0)];
        }
        wbSize := wbSize + p.size;
      }
      Go1(s, s', Go);
      s' := ServerStep(s', Go);
    }

    /** trigger_write, for the first command in the pipe. */
    method TriggerWrite(ghost s: Socket) returns (ghost s': Socket)
      requires Matches(s) && s.server == Poll && s.control.pipe != [] && s.control.pipe[0] == WakeCmd
      modifies this`armed
      ensures Reaches(s, s') && Matches(s') && s'.server == Poll && (armed || kind == Invalid)
    {
      hide Serve;
      Stay(s);
      Go1(s, s, Command);
      s' := ServerStep(s, Command);
      if kind != Invalid { armed := true; }
    }

    /** nomore_sending_data. */
    predicate NoMore(sending: nat)
      reads this
    {
      (high == [] && low == [] && dw.None? && sending == 0) || kind == HalfcloseWrite
    }

    /** The steps of nomore_sending_data: s0 is asked, and s1 is what has been reached from s. */
    lemma Asked(s: Socket, s0: Socket, s1: Socket, why: Why) returns (s': Socket)
      requires Reaches(s, s1) && s1 == Ask(s0, why) && Matches(s0) && s0.server == Poll
      ensures Reaches(s, s') && s' == Answer(s0, why, NoMore(s0.control.sending))
    {
      hide Serve, Reaches;
      s' := s1;
      if high == [] && low == [] {
        Go1(s, s', Go);
        s' := ServerStep(s', Go);
        if dw.None? {
          Go1(s, s', Go);
          s' := ServerStep(s', Go);
        }
      }
    }

    /** close_read, at the end of close_socket or of forward_message_tcp. */
    method CloseRead(ghost s: Socket) returns (ghost s': Socket)
      requires Matches(s) && s.server == ServerPc.CloseRead
      modifies this`kind
      ensures Reaches(s, s') && Matches(s') && s'.server == Poll && s'.lock == s.lock && s'.control == s.control
      ensures kind == HalfcloseRead && s'.status.log == s.status.log + [CloseEvent]
    {
      hide Serve;
      Stay(s);
      Go1(s, s, Go);
      s' := ServerStep(s, Go);
      kind := HalfcloseRead;
    }

    /** The first step of close_socket. */
    lemma CloseStarts(s: Socket, shutdown: bool) returns (s': Socket)
      requires Matches(s) && s.server == Poll && s.control.pipe != [] && s.control.pipe[0] == CloseCmd(shutdown)
      requires kind != Invalid
      ensures Reaches(s, s') && s'.control.sending == s.control.sending && s'.lock == s.lock && Matches(s')
      ensures s'.status == s.status
      ensures var halfRead := kind == HalfcloseRead;
              s'.server == if shutdown || NoMore(s.control.sending) then FreeLists(!halfRead) else SetClosing(halfRead)
    {
      hide Serve;
      Stay(s);
      Go1(s, s, Command);
      s' := ServerStep(s, Command);
      if !shutdown {
        ghost var s1 := s.(control := Took(s.control));
        s' := Asked(s, s1, s', ToClose(kind == HalfcloseRead));
      }
    }

    /** close_socket, for the first command in the pipe. */
    method CloseSocket(shutdown: bool, sending: nat, ghost s: Socket, ghost waits: Socket -> seq<Move>)
      returns (r: Return, ghost s': Socket)
      requires Matches(s) && s.server == Poll && s.control.pipe != [] && s.control.pipe[0] == CloseCmd(shutdown)
      requires kind != Invalid && sending == s.control.sending && Inv(s) && Releases(waits)
      modifies this
      ensures Reaches(s, s') && Matches(s') && s'.server == Poll
      ensures s'.status.log == s.status.log + Events(r)
      ensures kind == Invalid || (kind == HalfcloseRead && closing)
    {
      hide Serve, ServerStep, Inv;
      s' := CloseStarts(s, shutdown);
      ghost var s1 := s';
      var shutdownRead := kind == HalfcloseRead;
      if shutdown || NoMore(sending) {
        ReachesInv(s, s1);
        s' := ForceClose(s1, !shutdownRead, Waited(s1, waits));
        Join(s, s1, s');
        r := if shutdownRead then Ignore else Report(CloseEvent);
      } else {
        Go1(s, s1, Go);
        ClosingStep(s1);
        s' := ServerStep(s1, Go);
        closing := true;
        r := Ignore;
        if !shutdownRead {
          ghost var s2 := s';
          s' := CloseRead(s2);
          Join(s, s2, s');
          r := Report(CloseEvent);
        }
      }
    }

    lemma ClosingStep(s: Socket)
      requires s.server.SetClosing?
      ensures ServerStep(s, Go)
              == s.(status := s.status.(closing := true), server := if s.server.halfRead then Poll else ServerPc.CloseRead)
    {
    }

    /** forward_message_tcp, when read returns n bytes. */
    method ForwardMessage(n: nat, sending: nat, ghost s: Socket, ghost waits: Socket -> seq<Move>)
      returns (r: Return, ghost s': Socket)
      requires Matches(s) && s.server == Poll && kind != Invalid && sending == s.control.sending && Inv(s) && Releases(waits)
      modifies this
      ensures Reaches(s, s') && Matches(s') && s'.server == Poll
      ensures s'.status.log == s.status.log + Events(r)
    {
      hide Serve, Inv, Written, Tear;
      InvClosing(s);
      Stay(s);
      Go1(s, s, Got(n));
      ghost var s1 := ServerStep(s, Got(n));
      s' := s1;
      r := Ignore;
      if n == 0 {
        if closing {
          s1 := Asked(s, s, s1, AfterEof);
          s' := s1;
          if NoMore(sending) {
            ReachesInv(s, s1);
            s' := ForceClose(s1, false, Waited(s1, waits));
            Join(s, s1, s');
          }
        } else if kind == HalfcloseWrite {
          ReachesInv(s, s1);
          s' := ForceClose(s1, true, Waited(s1, waits));
          Join(s, s1, s');
          r := Report(CloseEvent);
        } else if kind != HalfcloseRead {
          s' := CloseRead(s1);
          Join(s, s1, s');
          r := Report(CloseEvent);
        }
      } else if kind != HalfcloseRead {
        r := Report(DataEvent);
      }
    }
  }

  lemma InvClosing(s: Socket)
    requires Inv(s)
    ensures s.server == Poll && s.status.closing ==> s.status.kind == HalfcloseRead || s.status.kind == Invalid
  {
  }
}
