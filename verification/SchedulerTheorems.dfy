/** The promises of the scheduler, for every run and every interleaving. */
module SchedulerTheorems {
  import opened Mq
  import opened Scheduler
  import opened SchedulerProof

  /** The threads that have a reference to context h. */
  ghost function Referrers(s: State, h: nat): set<Tid>
  {
    set t | t in s.threads && RefOf(s.threads[t]) == Some(h)
  }

  ghost predicate HeldBy(s: State, t: Tid, h: nat) { Holds(PcOf(s, t), h) }

  lemma ServiceFacts(s: State, h: nat)
    requires Inv(s) && h < |s.services|
    ensures EachOK(s, h) && ServiceOK(s.services[h])
  {
  }

  lemma ThreadFacts(s: State, t: Tid, h: nat)
    requires Inv(s) && h < |s.services|
    ensures ThreadOK(s, t) && Agree(PcOf(s, t), t, h, s.services[h])
  {
    assert ThreadOK(s, t);
  }

  /** At most one thread holds a queue; a queue that is held is not listed; no queue is listed twice. */
  lemma OneHolder(moves: seq<Move>, h: nat, t: Tid, u: Tid)
    requires HeldBy(Run(moves), t, h)
    ensures HeldBy(Run(moves), u, h) ==> u == t
    ensures h !in Run(moves).global
  {
    hide Run;
    RunKeeps(moves);
    var s := Run(moves);
    assert ThreadOK(s, t) && ThreadOK(s, u);
    ThreadFacts(s, t, h);
    ThreadFacts(s, u, h);
    assert s.services[h].owner == Held(t);
  }

  lemma ListedOnce(moves: seq<Move>, i: nat, j: nat)
    requires i < j < |Run(moves).global|
    ensures Run(moves).global[i] != Run(moves).global[j]
  {
    hide Run;
    RunKeeps(moves);
  }

  /** No wakeup is lost: a queue with messages is listed, or some thread holds it. */
  lemma NoLostWakeup(moves: seq<Move>, h: nat) returns (t: Tid)
    requires h < |Run(moves).services| && Run(moves).services[h].queue.msgs != []
    ensures h in Run(moves).global || HeldBy(Run(moves), t, h)
  {
    hide Run;
    RunKeeps(moves);
    var s := Run(moves);
    ServiceFacts(s, h);
    t := if s.services[h].owner.Held? then s.services[h].owner.t else 0;
    ThreadFacts(s, t, h);
  }

  /** In every run, in the order in which they were pushed: each message was handed to its service
      once, or is in the hands of the worker that holds the queue, or was dropped once, or is still
      queued.  Messages are dropped only after the context was deleted. */
  lemma EachMessageOnce(moves: seq<Move>, h: nat, t: Tid)
    requires h < |Run(moves).services|
    ensures var s, v := Run(moves), Run(moves).services[h];
            && (HeldBy(s, t, h) ==> v.pushed == v.dispatched + InHand(PcOf(s, t), h) + v.dropped + v.queue.msgs)
            && ((forall u :: !HeldBy(s, u, h)) ==> v.pushed == v.dispatched + v.dropped + v.queue.msgs)
            && (v.dropped != [] ==> v.deleted)
  {
    hide Run;
    RunKeeps(moves);
    var s := Run(moves);
    ServiceFacts(s, h);
    ThreadFacts(s, t, h);
    if s.services[h].owner.Held? {
      ThreadFacts(s, s.services[h].owner.t, h);
      assert HeldBy(s, s.services[h].owner.t, h);
    }
  }

  /** A queue is freed at most once; then its context is gone, it is empty, and neither the global list
      nor any thread refers to it. */
  lemma FreedLast(moves: seq<Move>, h: nat, t: Tid)
    requires h < |Run(moves).services|
    ensures var s, v := Run(moves), Run(moves).services[h];
            && v.frees <= 1
            && (v.frees == 1 ==> v.deleted && v.queue.msgs == [] && h !in s.global && !HeldBy(s, t, h) && RefOf(PcOf(s, t)) != Some(h))
            && (PcOf(s, t).Free? && PcOf(s, t).q == h ==> v.frees == 0)
  {
    hide Run;
    RunKeeps(moves);
    var s := Run(moves);
    ServiceFacts(s, h);
    ThreadFacts(s, t, h);
    if h in s.global {
      var i :| 0 <= i < |s.global| && s.global[i] == h;
      assert s.services[h].owner.Listed?;
    }
  }

  /** The reference count of a context is exact, and the context is deleted, once, when it reaches zero. */
  lemma ReferencesExact(moves: seq<Move>, h: nat, t: Tid)
    requires h < |Run(moves).services|
    ensures var s, v := Run(moves), Run(moves).services[h];
            && v.ref == |Referrers(s, h)| + (if v.registered then 1 else 0)
            && (v.deleted ==> v.ref == 0)
            && (PcOf(s, t).Delete? && PcOf(s, t).h == h ==> v.ref == 0 && !v.deleted)
  {
    hide Run;
    RunKeeps(moves);
    var s := Run(moves);
    ServiceFacts(s, h);
    ThreadFacts(s, t, h);
    forall u: Tid ensures u in Referrers(s, h) <==> u in s.services[h].holders { ThreadFacts(s, u, h); }
    assert Referrers(s, h) == s.services[h].holders;
  }

  /** A thread with a reference to a context uses it only while it is alive, and messages are handed only to
      a service that was initialized. */
  lemma AliveWhenReferred(moves: seq<Move>, t: Tid)
    ensures var s, pc := Run(moves), PcOf(Run(moves), t);
            && (RefOf(pc).Some? ==> RefOf(pc).value < |s.services| && !s.services[RefOf(pc).value].deleted)
            && (pc.Call? ==> pc.q < |s.services| && s.services[pc.q].init)
  {
    hide Run;
    RunKeeps(moves);
    var s, pc := Run(moves), PcOf(Run(moves), t);
    assert ThreadOK(s, t);
    if pc.Swap? { ThreadFacts(s, t, pc.q); ServiceFacts(s, pc.q); NotEmpty(s.services[pc.q], t); }
    else if RefOf(pc).Some? {
      var h := RefOf(pc).value;
      assert Concern(pc) == Some(h);
      ThreadFacts(s, t, h);
      ServiceFacts(s, h);
      NotEmpty(s.services[h], t);
    }
  }

  /** The context that the next step of a thread reads or writes: one to which it has a reference, or the one
      that it has launched and given up its reference to. */
  function Uses(pc: Pc): Option<nat>
  {
    if pc.SetInit? || pc.Announce? then Some(pc.h) else RefOf(pc)
  }

  /** Some thread is about to delete context h. */
  ghost predicate BeingDeleted(s: State, h: nat) { exists u: Tid :: PcOf(s, u).Delete? && PcOf(s, u).h == h }

  /** A context that is used is alive exactly as long as its handle is registered, some thread has a
      reference to it, or its deletion has not happened yet. */
  lemma AliveExactly(moves: seq<Move>, t: Tid, h: nat)
    requires Uses(PcOf(Run(moves), t)) == Some(h)
    ensures var s := Run(moves);
            h < |s.services|
            && (!s.services[h].deleted <==> s.services[h].registered || Referrers(s, h) != {} || BeingDeleted(s, h))
  {
    hide Run;
    RunKeeps(moves);
    var s, pc := Run(moves), PcOf(Run(moves), t);
    assert ThreadOK(s, t);
    AliveWhenReferred(moves, t);
    var v := s.services[h];
    ReferencesExact(moves, h, t);
    ServiceFacts(s, h);
    if v.deleting.Some? {
      ThreadFacts(s, v.deleting.value, h);
    }
    if BeingDeleted(s, h) {
      var u: Tid :| PcOf(s, u).Delete? && PcOf(s, u).h == h;
      ThreadFacts(s, u, h);
    }
  }

  /** The launcher of a service uses the context after it gave up its reference: when the handle is retired
      in between, the context is gone. */
  lemma LauncherUsesDeleted() returns (moves: seq<Move>)
    ensures PcOf(Run(moves), 0) == SetInit(0) && |Run(moves).services| == 1 && Run(moves).services[0].deleted
  {
    moves := [];
    assert Run(moves) == START;
    hide Run;
    moves := Then(moves, Move(0, Create));
    assert Run(moves).services == [NewService(0)];
    moves := Then(moves, Move(0, InitResult(true)));
    moves := Then(moves, Move(0, Go));
    assert Run(moves).services[0].ref == 1;
    moves := Then(moves, Move(1, RetireHandle(0)));
    moves := Then(moves, Move(1, Go));
    moves := Then(moves, Move(1, Go));
  }

  lemma Then(moves: seq<Move>, m: Move) returns (moves': seq<Move>)
    ensures moves' == moves + [m] && Run(moves') == Step(Run(moves), m.t, m.a)
  {
    moves' := moves + [m];
    assert moves'[..|moves|] == moves;
  }

  lemma NotEmpty(v: Service, t: Tid)
    requires ServiceOK(v) && t in v.holders
    ensures !v.deleted
  {
    assert v.holders != {};
  }

  /** The assertions of skynet_mq.c hold: a queue that is put on the global list is not on it, and a
      queue is marked for release once. */
  lemma AssertionsHold(moves: seq<Move>, t: Tid)
    ensures var s, pc := Run(moves), PcOf(Run(moves), t);
            Concern(pc).Some? ==>
              var h := Concern(pc).value;
              && h < |s.services|
              && (pc.PushBack? || pc.Launch? || pc.Give? ==> h !in s.global)
              && (pc.Delete? || pc.Holder? ==> !s.services[h].queue.release && (!s.services[h].queue.inGlobal ==> h !in s.global))
  {
    hide Run;
    RunKeeps(moves);
    var s, pc := Run(moves), PcOf(Run(moves), t);
    assert ThreadOK(s, t);
    if Concern(pc).Some? {
      var h := Concern(pc).value;
      ThreadFacts(s, t, h);
      ServiceFacts(s, h);
      if pc.Holder? { NotEmpty(s.services[h], t); }
      if h in s.global {
        var i :| 0 <= i < |s.global| && s.global[i] == h;
        assert s.services[h].owner.Listed?;
      }
    }
  }

  // ---- Turns ----

  /** The next step of a thread takes the first queue off the global list. */
  predicate Takes(pc: Pc) { pc.Pop? || pc.Swap? }

  /** Every take moves a listed queue one place forward, or hands it to the thread that takes it; nothing
      else moves it. */
  lemma Advances(moves: seq<Move>, t: Tid, a: Act, i: nat)
    requires i < |Run(moves).global|
    ensures var s, s' := Run(moves), Step(Run(moves), t, a);
            if !Takes(PcOf(s, t)) then i < |s'.global| && s'.global[i] == s.global[i]
            else if i > 0 then i - 1 < |s'.global| && s'.global[i - 1] == s.global[i]
            else HeldBy(s', t, s.global[0])
  {
    hide Run;
    RunKeeps(moves);
    var s := Run(moves);
    assert ThreadOK(s, t);
    assert GlobalOK(s);
    StepGrows(s, t, a);
  }

  lemma StepGrows(s: State, t: Tid, a: Act)
    requires ThreadOK(s, t)
    ensures var s' := Step(s, t, a);
            !Takes(PcOf(s, t)) ==> |s'.global| >= |s.global| && s'.global[..|s.global|] == s.global
    ensures var s' := Step(s, t, a);
            Takes(PcOf(s, t)) && s.global != [] && s.global[0] < |s.services| ==>
              s'.global == s.global[1..] && HeldBy(s', t, s.global[0])
  {
    hide MarkQueue, PushQueue, PopQueue;
  }

  /** How many takes there are in `more`, after `moves`. */
  ghost function TakesIn(moves: seq<Move>, more: seq<Move>): nat
  {
    if more == [] then 0
    else TakesIn(moves, more[..|more| - 1]) + if Takes(PcOf(Run(moves + more[..|more| - 1]), more[|more| - 1].t)) then 1 else 0
  }

  /** The turn of a listed queue comes: behind i others it stays listed, in front of those behind it, until
      the (i + 1)st take, which hands it to a thread. */
  lemma {:induction false} TurnComes(moves: seq<Move>, more: seq<Move>, i: nat)
    requires i < |Run(moves).global|
    ensures var s, k := Run(moves + more), TakesIn(moves, more);
            k <= i ==> i - k < |s.global| && s.global[i - k] == Run(moves).global[i]
    ensures var k := TakesIn(moves, more);
            k == i + 1 && more != [] && TakesIn(moves, more[..|more| - 1]) == i ==>
              HeldBy(Run(moves + more), more[|more| - 1].t, Run(moves).global[i])
    decreases |more|
  {
    hide Run, Step, Takes;
    if more == [] {
      assert moves + more == moves;
    } else {
      var less, m := more[..|more| - 1], more[|more| - 1];
      TurnComes(moves, less, i);
      RunOn(moves, less, m);
      assert less + [m] == more;
      var k := TakesIn(moves, less);
      if k <= i {
        Advances(moves + less, m.t, m.a, i - k);
      }
    }
  }

  lemma RunOn(moves: seq<Move>, less: seq<Move>, m: Move)
    ensures Run(moves + (less + [m])) == Step(Run(moves + less), m.t, m.a)
  {
    assert moves + (less + [m]) == (moves + less) + [m];
    assert ((moves + less) + [m])[..|moves + less|] == moves + less;
  }
}
