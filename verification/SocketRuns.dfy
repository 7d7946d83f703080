/** Steps taken from any state, and the lock, which is always given back. */
module SocketRuns {
  import opened Socket
  import opened SocketProof
  import opened SocketTheorems

  /** Some steps are taken. */
  ghost function Serve(s: Socket, moves: seq<Move>): Socket
  {
    if moves == [] then s else Step(Serve(s, moves[..|moves| - 1]), moves[|moves| - 1])
  }

  ghost predicate Reaches(s: Socket, s': Socket) { exists moves: seq<Move> :: Serve(s, moves) == s' }

  lemma Stay(s: Socket)
    ensures Reaches(s, s)
  {
    assert Serve(s, []) == s;
  }

  /** One more step of the socket thread. */
  lemma Go1(s: Socket, s': Socket, a: Act)
    requires Reaches(s, s')
    ensures Reaches(s, ServerStep(s', a))
  {
    var moves: seq<Move> :| Serve(s, moves) == s';
    var m := BySocketThread(a);
    assert (moves + [m])[..|moves|] == moves;
    assert Serve(s, moves + [m]) == ServerStep(s', a);
  }

  ghost predicate ByOthers(moves: seq<Move>) { forall i | 0 <= i < |moves| :: moves[i].ByThread? }

  /** Steps of other threads change neither the lists, but for the package that is written directly, nor the
      status. */
  lemma {:induction false} OthersLeave(s: Socket, others: seq<Move>)
    requires ByOthers(others)
    ensures var s' := Serve(s, others);
            s'.server == s.server && s'.status == s.status && s'.lists.(dw := None) == s.lists.(dw := None)
    decreases |others|
  {
    hide WorkerStep, ServerStep;
    if others != [] {
      var m := others[|others| - 1];
      OthersLeave(s, others[..|others| - 1]);
      ThreadLeaves(Serve(s, others[..|others| - 1]), m.t, m.a);
    }
  }

  lemma ThreadLeaves(s: Socket, t: Tid, a: Act)
    ensures var s' := WorkerStep(s, t, a);
            s'.server == s.server && s'.status == s.status && s'.lists.(dw := None) == s.lists.(dw := None)
  {
    hide Written;
  }

  lemma Join(s: Socket, s1: Socket, s2: Socket)
    requires Reaches(s, s1) && Reaches(s1, s2)
    ensures Reaches(s, s2)
  {
    var a: seq<Move> :| Serve(s, a) == s1;
    var b: seq<Move> :| Serve(s1, b) == s2;
    ServeBoth(s, a, b);
    assert Serve(s, a + b) == s2;
  }

  lemma {:induction false} ServeBoth(s: Socket, a: seq<Move>, b: seq<Move>)
    ensures Serve(s, a + b) == Serve(Serve(s, a), b)
  {
    hide Step;
    if b == [] {
      assert a + b == a;
    } else {
      ServeBoth(s, a, b[..|b| - 1]);
      assert (a + b)[..|a + b| - 1] == a + b[..|b| - 1];
    }
  }

  lemma {:induction false} ServeKeeps(s: Socket, moves: seq<Move>)
    requires Inv(s)
    ensures Inv(Serve(s, moves))
  {
    hide Inv, Step;
    if moves != [] {
      ServeKeeps(s, moves[..|moves| - 1]);
      StepKeeps(Serve(s, moves[..|moves| - 1]), moves[|moves| - 1]);
    }
  }

  lemma ReachesInv(s: Socket, s': Socket)
    requires Inv(s) && Reaches(s, s')
    ensures Inv(s')
  {
    hide Inv, Serve;
    var moves: seq<Move> :| Serve(s, moves) == s';
    ServeKeeps(s, moves);
  }

  /** How many steps a thread that has the lock is away from giving it back, at most. */
  function StepsLeft(pc: WorkerPc): nat
  {
    match pc
    case ReadHigh(_) => 8
    case ReadLow(_) => 7
    case ReadDw(_) => 6
    case ReadSending(_) => 5
    case ReadType(_) => 4
    case Write(_) => 3
    case SetDw(_, _) => 2
    case _ => 1
  }

  /** The lock is always given back: from every state that can be reached the thread that has it can go on
      until it is free. */
  lemma {:induction false} LockIsReleased(s: Socket) returns (moves: seq<Move>)
    requires LockOk(s)
    ensures ByOthers(moves) && !Serve(s, moves).lock.ByWorker? && forall i | 0 <= i < |moves| :: moves[i].a == Go
    decreases if s.lock.ByWorker? then 1 + StepsLeft(PcOf(s, s.lock.t)) else 0
  {
    hide Serve, LockOk;
    moves := [];
    Nothing1(s);
    if s.lock.ByWorker? {
      var m := ByThread(s.lock.t, Go);
      HolderStep(s);
      WorkerKeepsLock(s, s.lock.t, Go);
      var more := LockIsReleased(Step(s, m));
      moves := [m] + more;
      ServeBoth(s, [m], more);
      Single(s, m);
    }
  }

  lemma Nothing1(s: Socket)
    ensures Serve(s, []) == s
  {
  }

  lemma Single(s: Socket, m: Move)
    ensures Serve(s, [m]) == Step(s, m)
  {
    assert [m][..0] == [];
    Nothing1(s);
  }

  lemma HolderStep(s: Socket)
    requires LockOk(s) && s.lock.ByWorker?
    ensures var s' := WorkerStep(s, s.lock.t, Go);
            s'.lock == Free || (s'.lock == s.lock && StepsLeft(PcOf(s', s.lock.t)) < StepsLeft(PcOf(s, s.lock.t)))
  {
    hide Written;
    assert Holding(PcOf(s, s.lock.t));
  }
}
