/** skynet/skynet-src/rwlock.h, the lock built from two atomic counters, as a state machine in which every
    step is one atomic operation of one of any number of threads. */
module RwLock {

  type Tid = nat

  datatype Pc =
    | Outside
    | ReadWait      // about to load `write`, before counting itself
    | ReadCount     // about to increment `read`
    | ReadCheck     // about to load `write` again
    | ReadUndo      // about to decrement `read` and start over
    | Reading       // past rwlock_rlock; about to decrement `read` in rwlock_runlock
    | WriteClaim    // about to compare-and-swap `write` from 0 to 1
    | WriteDrain    // about to load `read`
    | Writing       // past rwlock_wlock; about to store 0 to `write` in rwlock_wunlock

  datatype Lock = Lock(write: int, read: int, threads: map<Tid, Pc>)

  /** What a step leaves open: what a thread outside wants, and whether a compare-and-swap that could
      succeed fails spuriously. */
  datatype Act = Go | WantRead | WantWrite | Spurious

  const START := Lock(0, 0, map[])

  function PcOf(s: Lock, t: Tid): Pc { if t in s.threads then s.threads[t] else Outside }

  function At(s: Lock, t: Tid, pc: Pc): Lock { s.(threads := s.threads[t := pc]) }

  function Step(s: Lock, t: Tid, a: Act): Lock
  {
    match PcOf(s, t)
    case Outside => if a.WantRead? then At(s, t, ReadWait) else if a.WantWrite? then At(s, t, WriteClaim) else s
    case ReadWait => if s.write != 0 then s else At(s, t, ReadCount)
    case ReadCount => At(s.(read := s.read + 1), t, ReadCheck)
    case ReadCheck => At(s, t, if s.write != 0 then ReadUndo else Reading)
    case ReadUndo => At(s.(read := s.read - 1), t, ReadWait)
    case Reading => At(s.(read := s.read - 1), t, Outside)
    case WriteClaim => if s.write == 0 && !a.Spurious? then At(s.(write := 1), t, WriteDrain) else s
    case WriteDrain => if s.read != 0 then s else At(s, t, Writing)
    case Writing => At(s.(write := 0), t, Outside)
  }

  datatype Move = Move(t: Tid, a: Act)

  /** Any interleaving. */
  ghost function Run(moves: seq<Move>): Lock
  {
    if moves == [] then START
    else Step(Run(moves[..|moves| - 1]), moves[|moves| - 1].t, moves[|moves| - 1].a)
  }

  /** Between its increment and its decrement of `read`. */
  predicate Counted(pc: Pc) { pc.ReadCheck? || pc.ReadUndo? || pc.Reading? }

  predicate Claims(pc: Pc) { pc.WriteDrain? || pc.Writing? }

  ghost function Readers(s: Lock): set<Tid> { set t | t in s.threads && Counted(s.threads[t]) }

  /** `write` says whether some thread has claimed the lock; only one has. */
  ghost predicate ClaimOk(s: Lock)
  {
    && (s.write == 0 || s.write == 1)
    && (s.write == 0 ==> forall t :: !Claims(PcOf(s, t)))
    && (s.write == 1 ==> exists t :: Claims(PcOf(s, t)))
    && (forall t, u :: Claims(PcOf(s, t)) && Claims(PcOf(s, u)) ==> t == u)
  }

  ghost predicate ExclusionOk(s: Lock) { forall t, u :: PcOf(s, t).Writing? ==> !PcOf(s, u).Reading? }

  ghost predicate Inv(s: Lock) { s.read == |Readers(s)| && ClaimOk(s) && ExclusionOk(s) }

  lemma ReadersAfter(s: Lock, t: Tid, pc: Pc)
    ensures Readers(At(s, t, pc)) == if Counted(pc) then Readers(s) + {t} else Readers(s) - {t}
    ensures t in Readers(s) <==> Counted(PcOf(s, t))
  {
  }

  /** No step changes where other threads are. */
  lemma Others(s: Lock, t: Tid, a: Act)
    ensures forall u: Tid :: u != t ==> PcOf(Step(s, t, a), u) == PcOf(s, u)
  {
  }

  /** The counter changes when a thread starts or stops being counted. */
  lemma ReadCounts(s: Lock, t: Tid, a: Act)
    ensures var s' := Step(s, t, a);
            && s'.read + (if Counted(PcOf(s, t)) then 1 else 0) == s.read + (if Counted(PcOf(s', t)) then 1 else 0)
            && (s'.threads == s.threads || s'.threads == s.threads[t := PcOf(s', t)])
  {
  }

  lemma ReadersSame(s: Lock, s': Lock)
    requires s'.threads == s.threads
    ensures Readers(s') == Readers(s)
  {
  }

  lemma ReadersKept(s: Lock, t: Tid, a: Act)
    requires s.read == |Readers(s)|
    ensures Step(s, t, a).read == |Readers(Step(s, t, a))|
  {
    hide Step, Readers;
    var s' := Step(s, t, a);
    ReadCounts(s, t, a);
    ReadersAfter(s, t, PcOf(s', t));
    if s'.threads == s.threads {
      ReadersSame(s, s');
    } else {
      ReadersSame(At(s, t, PcOf(s', t)), s');
    }
  }

  lemma ClaimKept(s: Lock, t: Tid, a: Act)
    requires ClaimOk(s)
    ensures ClaimOk(Step(s, t, a))
  {
    var s', pc := Step(s, t, a), PcOf(s, t);
    Others(s, t, a);
    if pc.Writing? {
      forall u: Tid ensures !Claims(PcOf(s', u)) {
        if u != t { assert Claims(PcOf(s, t)) && !Claims(PcOf(s, u)); }
      }
    } else if pc.WriteClaim? && s' != s {
      assert Claims(PcOf(s', t));
    } else if s.write == 1 {
      var u :| Claims(PcOf(s, u));
      assert Claims(PcOf(s', u));
    }
  }

  /** A reader gets past its check only while nobody claims the lock; a writer gets in only when nobody
      is counted. */
  lemma ExclusionKept(s: Lock, t: Tid, a: Act)
    requires ExclusionOk(s) && ClaimOk(s) && s.read == |Readers(s)|
    ensures ExclusionOk(Step(s, t, a))
  {
    var s', pc := Step(s, t, a), PcOf(s, t);
    Others(s, t, a);
    if pc.WriteDrain? && s.read == 0 {
      assert Readers(s) == {};
      forall u: Tid ensures !PcOf(s, u).Reading? { assert u !in Readers(s); }
    }
    if pc.ReadCheck? && s.write == 0 {
      forall u: Tid ensures !PcOf(s, u).Writing? { assert !Claims(PcOf(s, u)); }
    }
  }

  lemma StepKeeps(s: Lock, t: Tid, a: Act)
    requires Inv(s)
    ensures Inv(Step(s, t, a))
  {
    hide Step, ClaimOk, ExclusionOk, Readers;
    ReadersKept(s, t, a);
    ClaimKept(s, t, a);
    ExclusionKept(s, t, a);
  }

  lemma {:induction false} RunKeeps(moves: seq<Move>)
    ensures Inv(Run(moves))
    decreases |moves|
  {
    if moves == [] {
      assert Readers(START) == {};
    } else {
      RunKeeps(moves[..|moves| - 1]);
      StepKeeps(Run(moves[..|moves| - 1]), moves[|moves| - 1].t, moves[|moves| - 1].a);
    }
  }

  /** Exclusion: past rwlock_wlock, there is no thread past rwlock_rlock, and no other writer. */
  lemma Exclusion(moves: seq<Move>, t: Tid, u: Tid)
    requires PcOf(Run(moves), t).Writing? && u != t
    ensures !PcOf(Run(moves), u).Reading? && !PcOf(Run(moves), u).Writing?
  {
    hide Run;
    RunKeeps(moves);
    assert Claims(PcOf(Run(moves), t));
    assert PcOf(Run(moves), u).Writing? ==> Claims(PcOf(Run(moves), u));
  }

  /** The counter is always the number of threads between their increment and their decrement. */
  lemma CounterExact(moves: seq<Move>)
    ensures Run(moves).read == |Readers(Run(moves))|
    ensures forall t :: PcOf(Run(moves), t).Reading? ==> Run(moves).read > 0
  {
    hide Run;
    RunKeeps(moves);
    var s := Run(moves);
    forall t | PcOf(s, t).Reading? ensures s.read > 0 { assert t in Readers(s); }
  }

  /** A thread whose next operation does not just repeat itself. */
  ghost predicate CanMove(s: Lock, t: Tid)
  {
    exists a :: Step(s, t, a) != s && !PcOf(s, t).Outside?
  }

  /** The lock never jams: when a thread spins, another one can move, so that somebody that holds the
      lock or is about to undo a count is what it waits for. */
  lemma NeverJams(moves: seq<Move>, t: Tid) returns (u: Tid)
    requires !PcOf(Run(moves), t).Outside? && !CanMove(Run(moves), t)
    ensures u != t && CanMove(Run(moves), u)
  {
    hide Run;
    RunKeeps(moves);
    var s := Run(moves);
    var pc := PcOf(s, t);
    assert Step(s, t, Go) == s;
    var w := t;
    if !pc.WriteDrain? {
      assert s.write != 0;
      w :| Claims(PcOf(s, w));
      u := w;
    }
    if PcOf(s, w).WriteDrain? && s.read != 0 {
      assert Readers(s) != {};
      u :| u in Readers(s);
    }
    Moves(s, u);
  }

  lemma Moves(s: Lock, u: Tid)
    requires u in s.threads && (Counted(PcOf(s, u)) || PcOf(s, u).Writing? || (PcOf(s, u).WriteDrain? && s.read == 0))
    ensures CanMove(s, u)
  {
    assert PcOf(Step(s, u, Go), u) != PcOf(s, u);
  }
}
