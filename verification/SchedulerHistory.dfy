/** What the past of a run decides: which services are launched, how many messages a turn takes, what becomes of
    a message and of a queue. */
module SchedulerHistory {
  import opened Mq
  import opened Scheduler
  import opened SchedulerProof
  import opened SchedulerTheorems
  import opened Remainders

  // ---- Launching ----

  /** The results of the module's init for service h; skynet_context_new goes on by them. */
  ghost function Inits(moves: seq<Move>, h: nat): seq<bool>
  {
    if moves == [] then []
    else
      var init, m := moves[..|moves| - 1], moves[|moves| - 1];
      Inits(init, h) + if PcOf(Run(init), m.t) == Init(h) then [m.a == InitResult(true)] else []
  }

  /** Somebody has retired the handle of service h. */
  ghost predicate RetiredBy(moves: seq<Move>, h: nat)
  {
    exists i :: 0 <= i < |moves| && PcOf(Run(moves[..i]), moves[i].t) == Idle && moves[i].a == RetireHandle(h)
  }

  /** Launching service h. */
  predicate Starting(pc: Pc, h: nat)
  {
    match pc
    case Unref(_, k) => k == Launched(h)
    case Delete(_, k) => k == Launched(h)
    case SetInit(q) => q == h
    case Launch(q, _) => q == h
    case Announce(q) => q == h
    case _ => false
  }

  /** Giving service h up. */
  predicate Failing(pc: Pc, h: nat)
  {
    match pc
    case Unref(_, k) => k == Failed(h) || k == Retired(h)
    case Delete(_, k) => k == Failed(h) || k == Retired(h)
    case Retire(q) => q == h
    case Give(q, worker) => q == h && !worker
    case Drop(q, worker) => q == h && !worker
    case Free(q, worker) => q == h && !worker
    case _ => false
  }

  /** What the result of init decides: rs are the results so far. */
  ghost predicate Decided(s: State, rs: seq<bool>, h: nat)
  {
    && |rs| <= 1
    && (h >= |s.services| ==> rs == [])
    && (h < |s.services| && s.services[h].init ==> rs == [true])
    && (forall t: Tid :: PathOK(PcOf(s, t), rs, h))
  }

  predicate PathOK(pc: Pc, rs: seq<bool>, h: nat)
  {
    (pc == Init(h) ==> rs == []) && (Starting(pc, h) ==> rs == [true]) && (Failing(pc, h) ==> rs == [false])
  }

  /** A thread changes the place of no other. */
  lemma OtherPc(s: State, t: Tid, a: Act, u: Tid)
    requires u != t
    ensures PcOf(Step(s, t, a), u) == PcOf(s, u)
  {
    hide StepOn, Take, Begin;
    var pc := PcOf(s, t);
    if pc.Idle? {
      BeginOther(s, t, a, u);
    } else if pc.Pop? || pc.Swap? {
      TakeOther(s, t, if pc.Pop? then None else Some(pc.q), u);
    } else if Concern(pc).value < |s.services| {
      StepOnOther(s, t, pc, Concern(pc).value, a, u);
    }
  }

  lemma BeginOther(s: State, t: Tid, a: Act, u: Tid)
    requires u != t
    ensures PcOf(Begin(s, t, a), u) == PcOf(s, u)
  {
  }

  lemma TakeOther(s: State, t: Tid, from: Option<nat>, u: Tid)
    requires u != t
    ensures PcOf(Take(s, t, from), u) == PcOf(s, u)
  {
  }

  lemma StepOnOther(s: State, t: Tid, pc: Pc, h: nat, a: Act, u: Tid)
    requires h < |s.services| && Concern(pc) == Some(h) && u != t
    ensures PcOf(StepOn(s, t, pc, h, a), u) == PcOf(s, u)
  {
    hide PushQueue, PopQueue, MarkQueue, BatchSize;
  }

  /** What a step on a service does to it, and to no other. */
  lemma StepOnService(s: State, t: Tid, pc: Pc, h: nat, a: Act)
    requires h < |s.services| && Concern(pc) == Some(h)
    ensures var s', v, v' := StepOn(s, t, pc, h, a), s.services[h], StepOn(s, t, pc, h, a).services[h];
            && |s'.services| == |s.services|
            && (forall k :: 0 <= k < |s.services| && k != h ==> s'.services[k] == s.services[k])
            && (v'.init ==> v.init || pc.SetInit?)
            && (v'.registered <==> v.registered && !pc.Retire?)
  {
    hide PushQueue, PopQueue, MarkQueue, BatchSize;
  }

  /** Only who takes messages shortens a queue. */
  lemma StepOnQueue(s: State, t: Tid, pc: Pc, h: nat, a: Act)
    requires h < |s.services| && Concern(pc) == Some(h) && !pc.Loop? && !pc.Drop?
    ensures |StepOn(s, t, pc, h, a).services[h].queue.msgs| >= |s.services[h].queue.msgs|
  {
    hide BatchSize;
  }

  /** Where a step on a service leads the thread: on the way of a launch only from the way of that launch. */
  lemma StepOnPath(s: State, t: Tid, pc: Pc, h: nat, a: Act, k: nat)
    requires h < |s.services| && Concern(pc) == Some(h) && (pc.Unref? || pc.Delete? ==> Continues(pc.h, pc.after))
    ensures var pc' := PcOf(StepOn(s, t, pc, h, a), t);
            && pc' != Init(k)
            && (Starting(pc', k) ==> Starting(pc, k) || (pc == Init(k) && a == InitResult(true)))
            && (Failing(pc', k) ==> Failing(pc, k) || (pc == Init(k) && a != InitResult(true)))
  {
    hide PushQueue, PopQueue, MarkQueue, BatchSize;
  }

  lemma PathStep(s: State, t: Tid, a: Act, h: nat)
    requires ThreadOK(s, t)
    ensures var s', pc, pc' := Step(s, t, a), PcOf(s, t), PcOf(Step(s, t, a), t);
            && (pc' == Init(h) ==> pc.Idle? && h == |s.services|)
            && (Starting(pc', h) ==> Starting(pc, h) || (pc == Init(h) && a == InitResult(true)))
            && (Failing(pc', h) ==> Failing(pc, h) || (pc == Init(h) && a != InitResult(true)))
            && |s.services| <= |s'.services| <= |s.services| + 1
            && (|s'.services| > |s.services| ==> pc.Idle? && !s'.services[|s.services|].init && s'.services[|s.services|].registered)
  {
    hide StepOn, Starting, Failing;
    var pc := PcOf(s, t);
    if Concern(pc).Some? {
      AgreesWith(s, t);
      StepOnPath(s, t, pc, Concern(pc).value, a, h);
      StepOnService(s, t, pc, Concern(pc).value, a);
    } else {
      NoPath(s, t, a, h);
    }
  }

  lemma AgreesWith(s: State, t: Tid)
    requires ThreadOK(s, t) && Concern(PcOf(s, t)).Some?
    ensures var pc := PcOf(s, t);
            Concern(pc).value < |s.services| && (pc.Unref? || pc.Delete? ==> Continues(pc.h, pc.after))
  {
    var h := Concern(PcOf(s, t)).value;
    assert Agree(PcOf(s, t), t, h, s.services[h]);
  }

  lemma NoPath(s: State, t: Tid, a: Act, h: nat)
    requires Concern(PcOf(s, t)).None?
    ensures !Starting(PcOf(Step(s, t, a), t), h) && !Failing(PcOf(Step(s, t, a), t), h)
    ensures PcOf(Step(s, t, a), t) == Init(h) ==> PcOf(s, t).Idle? && h == |s.services|
  {
  }

  lemma InitStep(s: State, t: Tid, a: Act, h: nat)
    requires ThreadOK(s, t) && h < |s.services|
    ensures var s' := Step(s, t, a);
            h < |s'.services| && (s'.services[h].init ==> s.services[h].init || PcOf(s, t) == SetInit(h))
            && (s.services[h].registered && !s'.services[h].registered ==>
                  Failing(PcOf(s, t), h) || (PcOf(s, t).Idle? && a == RetireHandle(h)))
            && (s'.services[h].registered ==> s.services[h].registered)
  {
    hide StepOn;
    var pc := PcOf(s, t);
    if Concern(pc).Some? {
      AgreesWith(s, t);
      StepOnService(s, t, pc, Concern(pc).value, a);
    }
  }

  /** Only one thread runs the init of a service. */
  lemma OneInit(s: State, t: Tid, u: Tid, h: nat)
    requires Inv(s) && PcOf(s, t) == Init(h) && PcOf(s, u) == Init(h)
    ensures t == u && h < |s.services|
  {
    assert ThreadOK(s, t) && ThreadOK(s, u);
    assert Holds(PcOf(s, t), h);
    ThreadFacts(s, t, h);
    ThreadFacts(s, u, h);
  }

  lemma DecidedStep(s: State, t: Tid, a: Act, rs: seq<bool>, h: nat)
    requires Inv(s) && Decided(s, rs, h)
    ensures Decided(Step(s, t, a), rs + if PcOf(s, t) == Init(h) then [a == InitResult(true)] else [], h)
  {
    hide Inv, ThreadOK, Step;
    var s', pc := Step(s, t, a), PcOf(s, t);
    var rs' := rs + if pc == Init(h) then [a == InitResult(true)] else [];
    assert ThreadOK(s, t) by { EveryThread(s, t); }
    assert PathOK(pc, rs, h);
    PathStep(s, t, a, h);
    if h < |s.services| { InitStep(s, t, a, h); }
    if pc == Init(h) { OneInit(s, t, t, h); }
    forall u: Tid ensures PathOK(PcOf(s', u), rs', h) {
      assert PathOK(PcOf(s, u), rs, h);
      if u != t {
        OtherPc(s, t, a, u);
        if pc == Init(h) && PcOf(s, u) == Init(h) { OneInit(s, t, u, h); }
      }
    }
  }

  lemma EveryThread(s: State, t: Tid)
    requires Inv(s)
    ensures ThreadOK(s, t)
  {
  }

  /** Init is run at most once; a service is started if and only if it has succeeded, and given up if and only
      if it has failed. */
  lemma {:induction false} InitDecides(moves: seq<Move>, h: nat)
    ensures Decided(Run(moves), Inits(moves, h), h)
    decreases |moves|
  {
    hide Decided, Step, Inv;
    if moves == [] {
      NothingDecided(h);
    } else {
      var init, m := moves[..|moves| - 1], moves[|moves| - 1];
      InitDecides(init, h);
      RunKeeps(init);
      DecidedStep(Run(init), m.t, m.a, Inits(init, h), h);
    }
  }

  lemma NothingDecided(h: nat)
    ensures Decided(START, [], h)
  {
  }

  /** Messages are handed only to services whose init has succeeded. */
  lemma HandedWhenStarted(moves: seq<Move>, t: Tid)
    requires PcOf(Run(moves), t).Call?
    ensures Inits(moves, PcOf(Run(moves), t).q) == [true]
  {
    hide Run, Inits;
    var h := PcOf(Run(moves), t).q;
    AliveWhenReferred(moves, t);
    InitDecides(moves, h);
  }

  /** A service whose init has succeeded stays registered until somebody retires it; one whose init has failed
      is retired by its launcher. */
  lemma {:induction false} RetiredBecause(moves: seq<Move>, h: nat)
    requires h < |Run(moves).services| && !Run(moves).services[h].registered
    ensures RetiredBy(moves, h) || Inits(moves, h) == [false]
    decreases |moves|
  {
    hide Step, Inv, RetiredBy;
    if moves != [] {
      var init, m := moves[..|moves| - 1], moves[|moves| - 1];
      var s := Run(init);
      RunKeeps(init);
      EveryThread(s, m.t);
      NewRegistered(s, m.t, m.a);
      InitDecides(init, h);
      if h < |s.services| {
        InitStep(s, m.t, m.a, h);
        if !s.services[h].registered {
          RetiredBecause(init, h);
          if RetiredBy(init, h) { RetiredStays(init, m, h); }
          InitDecides(moves, h);
          DecidedLength(Run(moves), Inits(moves, h), h);
        } else if Failing(PcOf(s, m.t), h) {
          assert PathOK(PcOf(s, m.t), Inits(init, h), h);
        } else {
          RetiredNow(init, m, h);
        }
        assert init + [m] == moves;
      }
    }
  }

  lemma DecidedLength(s: State, rs: seq<bool>, h: nat)
    requires Decided(s, rs, h)
    ensures |rs| <= 1
  {
  }

  lemma NewRegistered(s: State, t: Tid, a: Act)
    requires ThreadOK(s, t)
    ensures var s' := Step(s, t, a); |s'.services| > |s.services| ==> s'.services[|s.services|].registered
    ensures |Step(s, t, a).services| <= |s.services| + 1
  {
    hide Step;
    PathStep(s, t, a, 0);
  }

  lemma RetiredStays(init: seq<Move>, m: Move, h: nat)
    requires RetiredBy(init, h)
    ensures RetiredBy(init + [m], h)
  {
    var i :| 0 <= i < |init| && PcOf(Run(init[..i]), init[i].t) == Idle && init[i].a == RetireHandle(h);
    assert (init + [m])[..i] == init[..i] && (init + [m])[i] == init[i];
  }

  lemma RetiredNow(init: seq<Move>, m: Move, h: nat)
    requires PcOf(Run(init), m.t) == Idle && m.a == RetireHandle(h)
    ensures RetiredBy(init + [m], h)
  {
    assert (init + [m])[..|init|] == init;
  }

  /** While a service whose init has failed is still registered, its launcher is about to retire it. */
  lemma FailedIsRetired(moves: seq<Move>, h: nat) returns (t: Tid)
    requires h < |Run(moves).services| && Run(moves).services[h].registered && Inits(moves, h) == [false]
    ensures Failing(PcOf(Run(moves), t), h)
  {
    hide Run, Inits;
    RunKeeps(moves);
    InitDecides(moves, h);
    var s := Run(moves);
    ServiceFacts(s, h);
    assert s.services[h].owner.Held?;
    t := s.services[h].owner.t;
    assert PathOK(PcOf(s, t), [false], h);
  }

  // ---- Turns ----

  /** How many messages thread t has handed over since it last grabbed the context of its queue. */
  ghost function Handed(moves: seq<Move>, t: Tid): nat
  {
    if moves == [] then 0
    else
      var init, m := moves[..|moves| - 1], moves[|moves| - 1];
      var pc := PcOf(Run(init), t);
      if m.t != t then Handed(init, t) else if pc.Have? then 0 else if pc.Call? then Handed(init, t) + 1 else Handed(init, t)
  }

  /** How many messages the queue held, after the first, when thread t last looked, shifted right by the weight
      of the thread; one without a weight. */
  ghost function Planned(moves: seq<Move>, t: Tid): nat
  {
    if moves == [] then 0
    else
      var init, m := moves[..|moves| - 1], moves[|moves| - 1];
      var pc := PcOf(Run(init), t);
      if m.t == t && pc.Weigh? then Shifted(Run(init), pc.q, m.a) else Planned(init, t)
  }

  /** The length of queue h, shifted right by the weight, if there is one. */
  function Shifted(s: State, h: nat, a: Act): nat
  {
    if a.Weight? && a.w >= 0 && h < |s.services| then Quotient(|s.services[h].queue.msgs|, Power2(a.w)) else 1
  }

  function Quotient(x: nat, m: nat): nat
    requires m > 0
  {
    x / m
  }

  lemma {:induction false} BatchSizeMeans(length: nat, w: int)
    ensures BatchSize(length, w) == if w < 0 then 1 else length / Power2(w)
    ensures w >= 0 ==> BatchSize(length, w) <= length
    decreases w
  {
    if w > 0 {
      BatchSizeMeans(length / 2, w - 1);
      HalfAgain(length, Power2(w - 1));
    }
  }

  lemma HalfAgain(x: nat, m: nat)
    requires m > 0
    ensures x / 2 / m == x / (2 * m)
  {
    var q, r := x / 2 / m, (x / 2) % m;
    DivMod(x / 2, m);
    assert x == 2 * (m * q + r) + x % 2;
    assert 2 * (m * q) == (2 * m) * q;
    DivUnique(x, 2 * m, q, 2 * r + x % 2);
  }

  /** Where thread t is in its batch. */
  predicate InBatch(pc: Pc, handed: nat, planned: nat)
  {
    match pc
    case Loop(_, i, n) => handed == i && if i == 0 then n == 1 else n == planned && i < n
    case Weigh(_, _) => handed == 0
    case Call(_, i, n, _) => handed == i && n == planned && (i > 0 ==> i < n)
    case Swap(_) => handed == Max(1, planned)
    case _ => true
  }

  function Max(a: nat, b: nat): nat { if a < b then b else a }

  lemma BatchStep(s: State, t: Tid, a: Act, handed: nat, planned: nat)
    requires ThreadOK(s, t) && InBatch(PcOf(s, t), handed, planned)
    requires PcOf(s, t).Loop? && PcOf(s, t).i > 0 ==> s.services[PcOf(s, t).q].queue.msgs != []
    ensures var pc := PcOf(s, t);
            InBatch(PcOf(Step(s, t, a), t), if pc.Have? then 0 else if pc.Call? then handed + 1 else handed,
                    if pc.Weigh? then WeighedSize(s, pc.q, a) else planned)
  {
    hide StepOn, BatchSize;
    var pc := PcOf(s, t);
    if Concern(pc).Some? {
      AgreesWith(s, t);
      BatchStepOn(s, t, pc, Concern(pc).value, a, handed, planned);
    }
  }

  /** The size of the batch, when queue h is weighed. */
  function WeighedSize(s: State, h: nat, a: Act): nat
  {
    if a.Weight? && h < |s.services| then BatchSize(|s.services[h].queue.msgs|, a.w) else 1
  }

  lemma BatchStepOn(s: State, t: Tid, pc: Pc, h: nat, a: Act, handed: nat, planned: nat)
    requires h < |s.services| && Concern(pc) == Some(h) && InBatch(pc, handed, planned)
    requires pc.Loop? && pc.i > 0 ==> s.services[h].queue.msgs != []
    ensures InBatch(PcOf(StepOn(s, t, pc, h, a), t), if pc.Have? then 0 else if pc.Call? then handed + 1 else handed,
                    if pc.Weigh? then WeighedSize(s, h, a) else planned)
  {
    hide PushQueue, MarkQueue, BatchSize;
  }

  /** The queue holds what the batch still needs. */
  ghost predicate Supplied(s: State, t: Tid)
  {
    match PcOf(s, t)
    case Loop(q, i, n) => i > 0 && q < |s.services| ==> |s.services[q].queue.msgs| > n - i
    case Call(q, i, n, _) => q < |s.services| ==> n <= 1 || |s.services[q].queue.msgs| >= n - i
    case _ => true
  }

  lemma SuppliedStep(s: State, t: Tid, a: Act)
    requires ThreadOK(s, t) && Supplied(s, t)
    requires PcOf(s, t).Loop? ==> PcOf(s, t).i > 0 || PcOf(s, t).n == 1
    requires PcOf(s, t).Call? && PcOf(s, t).i > 0 ==> PcOf(s, t).i < PcOf(s, t).n
    ensures Supplied(Step(s, t, a), t)
  {
    hide StepOn;
    var pc := PcOf(s, t);
    if Concern(pc).Some? {
      AgreesWith(s, t);
      SuppliedStepOn(s, t, pc, Concern(pc).value, a);
    }
  }

  lemma SuppliedStepOn(s: State, t: Tid, pc: Pc, h: nat, a: Act)
    requires h < |s.services| && Concern(pc) == Some(h) && PcOf(s, t) == pc && Supplied(s, t)
    requires pc.Loop? ==> pc.i > 0 || pc.n == 1
    requires pc.Call? && pc.i > 0 ==> pc.i < pc.n
    ensures Supplied(StepOn(s, t, pc, h, a), t)
  {
    hide PushQueue, MarkQueue, BatchSize;
    if pc.Weigh? && a.Weight? { BatchSizeMeans(|s.services[h].queue.msgs|, a.w); }
  }

  lemma SuppliedOther(s: State, t: Tid, a: Act, u: Tid)
    requires Inv(s) && t != u && Supplied(s, u)
    ensures Supplied(Step(s, t, a), u)
  {
    hide Step, Inv;
    OtherPc(s, t, a, u);
    var pc := PcOf(s, u);
    EveryThread(s, t);
    EveryThread(s, u);
    if pc.Loop? || pc.Call? {
      assert Holds(pc, pc.q);
      ThreadFacts(s, u, pc.q);
      ThreadFacts(s, t, pc.q);
      OnlyHolderPops(s, t, a, pc.q);
    }
  }

  lemma OnlyHolderPops(s: State, t: Tid, a: Act, h: nat)
    requires ThreadOK(s, t) && h < |s.services| && !Holds(PcOf(s, t), h)
    ensures h < |Step(s, t, a).services| && |Step(s, t, a).services[h].queue.msgs| >= |s.services[h].queue.msgs|
  {
    hide StepOn;
    var pc := PcOf(s, t);
    if Concern(pc).Some? {
      AgreesWith(s, t);
      StepOnService(s, t, pc, Concern(pc).value, a);
      if Concern(pc).value == h { StepOnQueue(s, t, pc, h, a); }
    }
  }

  /** In every run a turn takes as many messages as planned, but at least one, and the queue never runs out of
      them before. */
  lemma {:induction false} TurnExactly(moves: seq<Move>, t: Tid)
    ensures InBatch(PcOf(Run(moves), t), Handed(moves, t), Planned(moves, t)) && Supplied(Run(moves), t)
    decreases |moves|
  {
    hide Step, Inv, InBatch, Supplied, BatchSize, Power2;
    if moves == [] {
      NoTurn(t);
    } else {
      var init, m := moves[..|moves| - 1], moves[|moves| - 1];
      var s := Run(init);
      TurnExactly(init, t);
      RunKeeps(init);
      EveryThread(s, m.t);
      if m.t == t {
        WhereInTurn(s, t, Handed(init, t), Planned(init, t));
        BatchStep(s, t, m.a, Handed(init, t), Planned(init, t));
        SuppliedStep(s, t, m.a);
        if PcOf(s, t).Weigh? && m.a.Weight? { BatchSizeMeans(|s.services[PcOf(s, t).q].queue.msgs|, m.a.w); }
      } else {
        OtherPc(s, m.t, m.a, t);
        SuppliedOther(s, m.t, m.a, t);
      }
    }
  }

  lemma NoTurn(t: Tid)
    ensures InBatch(PcOf(START, t), 0, 0) && Supplied(START, t)
  {
  }

  lemma WhereInTurn(s: State, t: Tid, handed: nat, planned: nat)
    requires ThreadOK(s, t) && Supplied(s, t) && InBatch(PcOf(s, t), handed, planned)
    ensures PcOf(s, t).Loop? && PcOf(s, t).i > 0 ==> s.services[PcOf(s, t).q].queue.msgs != []
    ensures PcOf(s, t).Loop? ==> PcOf(s, t).i > 0 || PcOf(s, t).n == 1
    ensures PcOf(s, t).Call? && PcOf(s, t).i > 0 ==> PcOf(s, t).i < PcOf(s, t).n
    ensures PcOf(s, t).Weigh? ==> PcOf(s, t).q < |s.services|
  {
  }

  /** The end of a turn. */
  lemma TurnEnds(moves: seq<Move>, t: Tid)
    requires PcOf(Run(moves), t).Swap?
    ensures Handed(moves, t) == Max(1, Planned(moves, t))
  {
    hide Run, Handed, Planned;
    TurnExactly(moves, t);
  }

  // ---- Messages and queues ----

  /** skynet_context_push: a message to a registered handle is queued last, and its queue is listed or held; one
      to another handle changes nothing. */
  lemma SendArrives(moves: seq<Move>, t: Tid, h: nat, m: Message)
    requires PcOf(Run(moves), t) == Idle
    ensures var s, s' := Run(moves), Run(moves + [Move(t, Grab(h)), Move(t, Send(m))]);
            if h < |s.services| && s.services[h].registered then
              h < |s'.services| && s'.services[h].pushed == s.services[h].pushed + [m]
              && s'.services[h].queue.msgs == s.services[h].queue.msgs + [m] && !s'.services[h].owner.Nobody?
            else s' == s
  {
    hide Run;
    var s := Run(moves);
    var one := moves + [Move(t, Grab(h))];
    assert moves + [Move(t, Grab(h)), Move(t, Send(m))] == one + [Move(t, Send(m))];
    RunOn(moves, [], Move(t, Grab(h)));
    assert moves + [] == moves && [] + [Move(t, Grab(h))] == [Move(t, Grab(h))];
    RunOn(one, [], Move(t, Send(m)));
    assert one + [] == one && [] + [Move(t, Send(m))] == [Move(t, Send(m))];
    RunKeeps(moves);
    if h < |s.services| { ServiceFacts(s, h); }
  }

  /** Nothing is leaked: a context without references is deleted, or about to be, and the queue of a deleted
      context is freed, or on its way: listed, or held by a thread. */
  lemma Reclaimed(moves: seq<Move>, h: nat) returns (t: Tid)
    requires h < |Run(moves).services|
    ensures var s, v := Run(moves), Run(moves).services[h];
            && (!v.registered && Referrers(s, h) == {} ==> v.deleted || (PcOf(s, t).Delete? && PcOf(s, t).h == h))
            && (v.deleted ==> v.frees == 1 || h in s.global || HeldBy(s, t, h))
  {
    hide Run;
    RunKeeps(moves);
    var s := Run(moves);
    var v := s.services[h];
    ServiceFacts(s, h);
    ReferencesExact(moves, h, 0);
    t := if v.deleting.Some? then v.deleting.value else if v.owner.Held? then v.owner.t else 0;
    ThreadFacts(s, t, h);
  }
}
