/** What every run of the scheduler keeps. */
module SchedulerProof {
  import opened Mq
  import opened Scheduler

  /** The context a thread has a reference to. */
  function RefOf(pc: Pc): Option<nat>
  {
    match pc
    case Loop(q, _, _) => Some(q)
    case Weigh(q, _) => Some(q)
    case Call(q, _, _, _) => Some(q)
    case Swap(q) => Some(q)
    case PushBack(q, _) => Some(q)
    case Unref(h, _) => Some(h)
    case Holder(h) => Some(h)
    case Init(h) => Some(h)
    case _ => None
  }

  function QueueAfter(k: After): Option<nat>
  {
    match k
    case Carry(q) => Some(q)
    case Launched(h) => Some(h)
    case Failed(h) => Some(h)
    case Retired(h) => Some(h)
    case _ => None
  }

  /** A thread holds queue h. */
  predicate Holds(pc: Pc, h: nat)
  {
    match pc
    case Idle => false
    case Pop => false
    case Have(q) => q == h
    case Loop(q, _, _) => q == h
    case Weigh(q, _) => q == h
    case Call(q, _, _, _) => q == h
    case Swap(q) => q == h
    case PushBack(q, nq) => q == h || nq == h
    case Give(q, _) => q == h
    case Drop(q, _) => q == h
    case Free(q, _) => q == h
    case Unref(_, k) => QueueAfter(k) == Some(h)
    case Delete(_, k) => QueueAfter(k) == Some(h)
    case Holder(_) => false
    case Init(q) => q == h
    case SetInit(q) => q == h
    case Launch(q, _) => q == h
    case Announce(_) => false
    case Retire(q) => q == h
  }

  /** The thread is launching service h and has not put its queue on the global list yet. */
  predicate Launching(pc: Pc, h: nat)
  {
    match pc
    case Init(q) => q == h
    case SetInit(q) => q == h
    case Launch(q, _) => q == h
    case Retire(q) => q == h
    case Give(q, worker) => q == h && !worker
    case Drop(q, worker) => q == h && !worker
    case Free(q, worker) => q == h && !worker
    case Unref(_, k) => k == Launched(h) || k == Failed(h) || k == Retired(h)
    case Delete(_, k) => k == Launched(h) || k == Failed(h) || k == Retired(h)
    case _ => false
  }

  /** The message a thread has taken from queue h and not handed over yet. */
  function InHand(pc: Pc, h: nat): seq<Message>
  {
    match pc
    case Weigh(q, m) => if q == h then [m] else []
    case Call(q, _, _, m) => if q == h then [m] else []
    case _ => []
  }

  /** What holds of a service by itself. */
  ghost predicate ServiceOK(v: Service)
  {
    && v.ref == |v.holders| + (if v.registered then 1 else 0)
    && (v.deleted ==> v.ref == 0)
    && (v.deleting.Some? ==> v.ref == 0 && !v.deleted)
    && (v.ref == 0 ==> v.deleted || v.deleting.Some?)
    && (v.deleted <==> v.queue.release)
    && v.frees <= 1
    && (v.frees == 1 ==> v.deleted && v.owner.Nobody? && v.queue.msgs == [])
    && (v.owner.Nobody? && v.frees == 0 ==> !v.queue.inGlobal && !v.queue.release)
    && (!v.owner.Nobody? ==> v.frees == 0 && (v.queue.inGlobal || v.queue.release))
    && (!v.queue.inGlobal ==> v.queue.msgs == [])
    && (v.dropped != [] ==> v.queue.release)
  }

  /** What holds of a service that a thread works on at this point. */
  ghost predicate PointOK(pc: Pc, v: Service)
  {
    match pc
    case Loop(_, _, _) => v.init
    case Weigh(_, _) => v.init
    case Call(_, _, _, _) => v.init
    case Swap(_) => v.init
    case PushBack(_, _) => v.init
    case Give(_, _) => !v.registered
    case Drop(_, _) => !v.registered && v.queue.release
    case Free(_, _) => !v.registered && v.queue.release && v.queue.msgs == []
    case Launch(_, _) => v.init || !v.registered
    case Unref(_, Retired(_)) => !v.registered
    case Delete(_, Retired(_)) => !v.registered
    case _ => true
  }

  /** The references, queues and deletions of thread t are exactly those recorded for it. */
  ghost predicate Agree(pc: Pc, t: Tid, h: nat, v: Service)
  {
    && (t in v.holders <==> RefOf(pc) == Some(h))
    && (v.owner == Held(t) <==> Holds(pc, h))
    && (v.deleting == Some(t) <==> pc.Delete? && pc.h == h)
    && (pc.Unref? || pc.Delete? ==> Continues(pc.h, pc.after))
    && (pc.PushBack? ==> pc.q != pc.nq)
  }

  /** A launch only ever releases the context that it launches. */
  predicate Continues(h: nat, k: After)
  {
    match k
    case Launched(q) => q == h
    case Failed(q) => q == h
    case Retired(q) => q == h
    case _ => true
  }

  ghost predicate ThreadOK(s: State, t: Tid)
  {
    var pc := PcOf(s, t);
    && (forall h :: 0 <= h < |s.services| ==> Agree(pc, t, h, s.services[h]))
    && (Concern(pc).Some? ==> Concern(pc).value < |s.services| && PointOK(pc, s.services[Concern(pc).value]))
    && (pc.Swap? ==> pc.q < |s.services| && PointOK(pc, s.services[pc.q]))
    && (forall h: nat :: Holds(pc, h) ==> h < |s.services|)
  }

  /** Every message pushed was dispatched, is about to be, was dropped, or is still queued, in order. */
  ghost predicate MessagesOK(s: State, h: nat)
    requires h < |s.services|
  {
    var v := s.services[h];
    var hand := if v.owner.Held? then InHand(PcOf(s, v.owner.t), h) else [];
    && v.pushed == v.dispatched + hand + v.dropped + v.queue.msgs
  }

  /** A registered service can be dispatched to, unless it is being launched. */
  ghost predicate InitOK(s: State, h: nat)
    requires h < |s.services|
  {
    var v := s.services[h];
    v.registered && !(v.owner.Held? && Launching(PcOf(s, v.owner.t), h)) ==> v.init
  }

  ghost predicate GlobalOK(s: State)
  {
    && (forall i :: 0 <= i < |s.global| ==> s.global[i] < |s.services| && s.services[s.global[i]].owner.Listed?)
    && (forall i, j :: 0 <= i < j < |s.global| ==> s.global[i] != s.global[j])
    && (forall h :: 0 <= h < |s.services| && s.services[h].owner.Listed? ==> h in s.global)
  }

  ghost predicate EachOK(s: State, h: nat)
    requires h < |s.services|
  {
    ServiceOK(s.services[h]) && MessagesOK(s, h) && InitOK(s, h)
  }

  ghost predicate Inv(s: State)
  {
    && (forall h :: 0 <= h < |s.services| ==> EachOK(s, h))
    && (forall t: Tid :: ThreadOK(s, t))
    && GlobalOK(s)
  }

  /** What other threads rely on, when service v becomes v' by a step of thread t. */
  ghost predicate Guarantee(t: Tid, v: Service, v': Service)
  {
    && v'.holders - {t} == v.holders - {t}
    && (v.owner.Held? && v.owner.t != t ==> v'.owner == v.owner)
    && (v'.owner.Held? && v'.owner.t != t ==> v'.owner == v.owner)
    && (v.deleting.Some? && v.deleting.value != t ==> v'.deleting == v.deleting)
    && (v'.deleting.Some? && v'.deleting.value != t ==> v'.deleting == v.deleting)
    && (v.init ==> v'.init)
    && (v'.registered ==> v.registered)
    && (v.queue.release ==> v'.queue.release)
    && (v.queue.release && v.queue.msgs == [] ==> v'.queue.msgs == [])
  }

  /** One step of thread t, which changes at most service h. */
  ghost predicate Local(s: State, s': State, t: Tid, h: nat)
  {
    && |s'.services| == |s.services| && h < |s.services|
    && (forall k :: 0 <= k < |s.services| && k != h ==> s'.services[k] == s.services[k])
    && (forall u: Tid :: u != t ==> PcOf(s', u) == PcOf(s, u))
  }

  /** Other threads are not disturbed. */
  lemma OthersOK(s: State, s': State, t: Tid, h: nat, u: Tid)
    requires ThreadOK(s, u) && u != t && Local(s, s', t, h) && Guarantee(t, s.services[h], s'.services[h])
    ensures ThreadOK(s', u)
  {
    var pc := PcOf(s, u);
    forall k | 0 <= k < |s'.services| ensures Agree(pc, u, k, s'.services[k]) {
      assert Agree(pc, u, k, s.services[k]);
      if k == h { assert u in s'.services[h].holders - {t} <==> u in s.services[h].holders - {t}; }
    }
  }

  /** What the thread has to do with the other services does not change. */
  ghost predicate Elsewhere(pc: Pc, pc': Pc, h: nat)
  {
    forall k: nat :: k != h ==> SameRole(pc, pc', k)
  }

  ghost predicate SameRole(pc: Pc, pc': Pc, k: nat)
  {
    && (RefOf(pc) == Some(k) <==> RefOf(pc') == Some(k))
    && (Holds(pc, k) <==> Holds(pc', k))
    && ((pc.Delete? && pc.h == k) <==> (pc'.Delete? && pc'.h == k))
    && (Holds(pc, k) ==> InHand(pc', k) == InHand(pc, k) && (Launching(pc, k) ==> Launching(pc', k)))
  }

  /** The thread is in order at its new point. */
  ghost predicate Arrives(s: State, t: Tid, pc: Pc, h: nat)
    requires h < |s.services|
  {
    && PcOf(s, t) == pc
    && Agree(pc, t, h, s.services[h])
    && (Concern(pc).Some? ==> Concern(pc).value < |s.services| && PointOK(pc, s.services[Concern(pc).value]))
    && (pc.Swap? ==> pc.q < |s.services| && PointOK(pc, s.services[pc.q]))
  }

  /** A step of one thread on one service keeps the invariant. */
  lemma Frame(s: State, s': State, t: Tid, h: nat)
    requires Inv(s) && Local(s, s', t, h) && Guarantee(t, s.services[h], s'.services[h])
    requires Elsewhere(PcOf(s, t), PcOf(s', t), h) && Arrives(s', t, PcOf(s', t), h)
    requires EachOK(s', h) && GlobalOK(s')
    ensures Inv(s')
  {
    hide ServiceOK, GlobalOK, Holds, Launching, InHand, RefOf, PointOK;
    var pc, pc' := PcOf(s, t), PcOf(s', t);
    assert ThreadOK(s, t);
    forall u: Tid ensures ThreadOK(s', u) {
      if u != t {
        assert ThreadOK(s, u);
        OthersOK(s, s', t, h, u);
      } else {
        forall k | 0 <= k < |s'.services| ensures Agree(pc', t, k, s'.services[k]) {
          if k != h {
            assert Agree(pc, t, k, s.services[k]) && SameRole(pc, pc', k);
          }
        }
        forall k: nat | Holds(pc', k) ensures k < |s'.services| {
          if k != h { assert SameRole(pc, pc', k); }
        }
      }
    }
    forall k | 0 <= k < |s'.services| ensures EachOK(s', k) {
      if k != h {
        assert EachOK(s, k);
        var v := s.services[k];
        if v.owner == Held(t) {
          assert Agree(pc, t, k, v) && SameRole(pc, pc', k);
        }
      }
    }
  }

  /** The global list is not touched. */
  lemma GlobalSame(s: State, s': State, t: Tid, h: nat)
    requires GlobalOK(s) && Local(s, s', t, h) && s'.global == s.global
    requires s.services[h].owner.Listed? <==> s'.services[h].owner.Listed?
    ensures GlobalOK(s')
  {
  }

  /** A queue that was not listed is put on the global list. */
  lemma GlobalPush(s: State, s': State, t: Tid, h: nat)
    requires GlobalOK(s) && Local(s, s', t, h) && s'.global == s.global + [h]
    requires !s.services[h].owner.Listed? && s'.services[h].owner.Listed?
    ensures h !in s.global && GlobalOK(s')
  {
    assert s'.global[|s.global|] == h;
    forall k | 0 <= k < |s'.services| && s'.services[k].owner.Listed? ensures k in s'.global {
      if k != h {
        var i :| 0 <= i < |s.global| && s.global[i] == k;
        assert s'.global[i] == k;
      }
    }
  }

  /** The first queue is taken off the global list. */
  lemma GlobalPop(s: State, s': State, t: Tid, h: nat)
    requires GlobalOK(s) && Local(s, s', t, h) && s.global != [] && s.global[0] == h && s'.global == s.global[1..]
    requires !s'.services[h].owner.Listed?
    ensures GlobalOK(s')
  {
    forall k | 0 <= k < |s'.services| && s'.services[k].owner.Listed? ensures k in s'.global {
      var i :| 0 <= i < |s.global| && s.global[i] == k;
      assert s'.global[i - 1] == k;
    }
  }

  /** What the invariant says about the thread and the service that it works on. */
  lemma Facts(s: State, t: Tid, h: nat)
    requires Inv(s) && h < |s.services|
    ensures EachOK(s, h) && ThreadOK(s, t) && Agree(PcOf(s, t), t, h, s.services[h]) && GlobalOK(s)
  {
    assert ThreadOK(s, t);
  }

  lemma AddHolder(hs: set<Tid>, t: Tid)
    requires t !in hs
    ensures |hs + {t}| == |hs| + 1 && (hs + {t}) - {t} == hs - {t}
  {
  }

  lemma RemoveHolder(hs: set<Tid>, t: Tid)
    requires t in hs
    ensures |hs - {t}| == |hs| - 1 && (hs - {t}) - {t} == hs - {t}
  {
  }

  lemma GrabService(v: Service, t: Tid)
    requires ServiceOK(v) && t !in v.holders
    ensures var v' := v.(ref := v.ref + 1, holders := v.holders + {t});
            (v.registered ==> ServiceOK(v')) && Guarantee(t, v, v') && Guarantee(t, v, v)
  {
    AddHolder(v.holders, t);
  }

  lemma GrabKeeps(s: State, t: Tid, q: nat)
    requires Inv(s) && PcOf(s, t) == Have(q) && q < |s.services|
    ensures Inv(GrabContext(s, t, q))
  {
    hide ServiceOK, Guarantee;
    var s', v := GrabContext(s, t, q), s.services[q];
    Facts(s, t, q);
    GrabService(v, t);
    GlobalSame(s, s', t, q);
    Frame(s, s', t, q);
  }

  lemma PopKeeps(s: State, t: Tid, q: nat, i: nat, n: nat)
    requires Inv(s) && PcOf(s, t) == Loop(q, i, n) && q < |s.services|
    ensures Inv(PopMessage(s, t, q, i, n))
  {
    var s', v := PopMessage(s, t, q, i, n), s.services[q];
    Facts(s, t, q);
    assert v.queue.msgs != [] ==> v.queue.msgs == [v.queue.msgs[0]] + v.queue.msgs[1..];
    GlobalSame(s, s', t, q);
    Frame(s, s', t, q);
  }

  lemma WeighKeeps(s: State, t: Tid, q: nat, m: Message, a: Act)
    requires Inv(s) && PcOf(s, t) == Weigh(q, m) && q < |s.services|
    ensures Inv(WeighBatch(s, t, q, m, a))
  {
    var s' := WeighBatch(s, t, q, m, a);
    Facts(s, t, q);
    GlobalSame(s, s', t, q);
    Frame(s, s', t, q);
  }

  lemma HandOverKeeps(s: State, t: Tid, q: nat, i: nat, n: nat, m: Message)
    requires Inv(s) && PcOf(s, t) == Call(q, i, n, m) && q < |s.services|
    ensures Inv(HandOver(s, t, q, i, n, m))
  {
    var s' := HandOver(s, t, q, i, n, m);
    Facts(s, t, q);
    GlobalSame(s, s', t, q);
    Frame(s, s', t, q);
  }

  lemma PutBackKeeps(s: State, t: Tid, q: nat, nq: nat)
    requires Inv(s) && PcOf(s, t) == PushBack(q, nq) && q < |s.services|
    ensures Inv(List(s, t, Unref(q, Carry(nq)), q, s.services[q]))
  {
    var s' := List(s, t, Unref(q, Carry(nq)), q, s.services[q]);
    Facts(s, t, q);
    GlobalPush(s, s', t, q);
    Frame(s, s', t, q);
  }

  lemma MqReleaseKeeps(s: State, t: Tid, q: nat, worker: bool)
    requires Inv(s) && PcOf(s, t) == Give(q, worker) && q < |s.services|
    ensures Inv(MqRelease(s, t, q, worker))
  {
    var s' := MqRelease(s, t, q, worker);
    Facts(s, t, q);
    if s.services[q].queue.release { GlobalSame(s, s', t, q); } else { GlobalPush(s, s', t, q); }
    Frame(s, s', t, q);
  }

  lemma DropKeeps(s: State, t: Tid, q: nat, worker: bool)
    requires Inv(s) && PcOf(s, t) == Drop(q, worker) && q < |s.services|
    ensures Inv(DropMessage(s, t, q, worker))
  {
    var s', v := DropMessage(s, t, q, worker), s.services[q];
    Facts(s, t, q);
    assert v.queue.msgs != [] ==> v.queue.msgs == [v.queue.msgs[0]] + v.queue.msgs[1..];
    GlobalSame(s, s', t, q);
    Frame(s, s', t, q);
  }

  lemma FreeKeeps(s: State, t: Tid, q: nat, worker: bool)
    requires Inv(s) && PcOf(s, t) == Free(q, worker) && q < |s.services|
    ensures Inv(FreeQueue(s, t, q, worker))
  {
    var s' := FreeQueue(s, t, q, worker);
    Facts(s, t, q);
    GlobalSame(s, s', t, q);
    Frame(s, s', t, q);
  }

  lemma ReleaseKeeps(s: State, t: Tid, h: nat, k: After)
    requires Inv(s) && PcOf(s, t) == Unref(h, k) && h < |s.services|
    ensures Inv(ContextRelease(s, t, h, k))
  {
    var v := s.services[h];
    var v' := v.(ref := v.ref - 1, holders := v.holders - {t});
    if v.ref == 1 {
      LastReleaseKeeps(s, t, h, k, With(s, t, Delete(h, k), h, v'.(deleting := Some(t))));
    } else {
      Facts(s, t, h);
      ResumeRange(s, t);
      ResumeRole(s, t, h, k, v', false);
      OtherReleaseKeeps(s, t, h, k, With(s, t, Resume(k, false), h, v'));
    }
  }

  lemma LastReleaseKeeps(s: State, t: Tid, h: nat, k: After, s': State)
    requires Inv(s) && PcOf(s, t) == Unref(h, k) && h < |s.services| && s.services[h].ref == 1
    requires var v := s.services[h];
             s' == With(s, t, Delete(h, k), h, v.(ref := 0, holders := v.holders - {t}, deleting := Some(t)))
    ensures Inv(s')
  {
    Facts(s, t, h);
    RemoveHolder(s.services[h].holders, t);
    GlobalSame(s, s', t, h);
    Frame(s, s', t, h);
  }

  /** A thread that has released a context goes on with the same queue as before. */
  lemma ResumeRole(s: State, t: Tid, h: nat, k: After, v: Service, gone: bool)
    requires ThreadOK(s, t) && h < |s.services|
    requires PcOf(s, t) == (if gone then Delete(h, k) else Unref(h, k))
    requires (s.services[h].owner == Held(t) <==> v.owner == Held(t)) && t !in v.holders && v.deleting != Some(t)
    ensures Elsewhere(PcOf(s, t), Resume(k, gone), h) && Agree(Resume(k, gone), t, h, v)
    ensures Launching(PcOf(s, t), h) <==> Launching(Resume(k, gone), h)
    ensures InHand(Resume(k, gone), h) == InHand(PcOf(s, t), h) == []
  {
    assert Agree(PcOf(s, t), t, h, s.services[h]);
  }

  lemma OtherReleaseService(v: Service, t: Tid)
    requires ServiceOK(v) && t in v.holders && v.ref != 1
    ensures var v' := v.(ref := v.ref - 1, holders := v.holders - {t}); ServiceOK(v') && Guarantee(t, v, v')
  {
    RemoveHolder(v.holders, t);
  }

  lemma OtherReleaseKeeps(s: State, t: Tid, h: nat, k: After, s': State)
    requires Inv(s) && PcOf(s, t) == Unref(h, k) && h < |s.services| && s.services[h].ref != 1
    requires var v := s.services[h];
             s' == With(s, t, Resume(k, false), h, v.(ref := v.ref - 1, holders := v.holders - {t}))
    requires Elsewhere(PcOf(s, t), Resume(k, false), h) && Agree(Resume(k, false), t, h, s'.services[h])
    requires Launching(PcOf(s, t), h) <==> Launching(Resume(k, false), h)
    requires InHand(Resume(k, false), h) == InHand(PcOf(s, t), h)
    ensures Inv(s')
  {
    hide Launching, InHand, Elsewhere, Holds, ServiceOK, Guarantee;
    Facts(s, t, h);
    OtherReleaseService(s.services[h], t);
    ResumeRange(s, t);
    ResumePoint(s, t, h, k);
    GlobalSame(s, s', t, h);
    Frame(s, s', t, h);
  }

  lemma ResumePoint(s: State, t: Tid, h: nat, k: After)
    requires ThreadOK(s, t) && PcOf(s, t) == Unref(h, k) && h < |s.services|
    ensures k == Retired(h) ==> !s.services[h].registered
    ensures Continues(h, k)
  {
    assert Agree(PcOf(s, t), t, h, s.services[h]);
  }

  /** The queue with which a thread goes on exists. */
  lemma ResumeRange(s: State, t: Tid)
    requires ThreadOK(s, t) && (PcOf(s, t).Unref? || PcOf(s, t).Delete?)
    ensures QueueAfter(PcOf(s, t).after).Some? ==> QueueAfter(PcOf(s, t).after).value < |s.services|
  {
    var k := QueueAfter(PcOf(s, t).after);
    if k.Some? { assert Holds(PcOf(s, t), k.value); }
  }

  lemma DeleteKeeps(s: State, t: Tid, h: nat, k: After)
    requires Inv(s) && PcOf(s, t) == Delete(h, k) && h < |s.services|
    ensures Inv(DeleteContext(s, t, h, k))
  {
    var s', v := DeleteContext(s, t, h, k), s.services[h];
    Facts(s, t, h);
    DeleteRole(s, t, h, k, s'.services[h]);
    DeleteFrame(s, t, h, k, s');
  }

  lemma DeleteRole(s: State, t: Tid, h: nat, k: After, v': Service)
    requires Inv(s) && PcOf(s, t) == Delete(h, k) && h < |s.services| && v' == DeleteContext(s, t, h, k).services[h]
    ensures Elsewhere(PcOf(s, t), Resume(k, true), h) && Agree(Resume(k, true), t, h, v')
    ensures Launching(PcOf(s, t), h) <==> Launching(Resume(k, true), h)
    ensures InHand(Resume(k, true), h) == InHand(PcOf(s, t), h) == []
  {
    hide Launching, InHand, Elsewhere;
    Facts(s, t, h);
    ResumeRole(s, t, h, k, v', true);
  }

  lemma DeleteService(v: Service, t: Tid)
    requires ServiceOK(v) && v.deleting == Some(t)
    ensures var (queue, put) := MarkQueue(v.queue);
            var v' := v.(queue := queue, deleted := true, deleting := None, owner := if put then Listed else v.owner);
            ServiceOK(v') && Guarantee(t, v, v') && (put ==> v.owner.Nobody?)
  {
  }

  lemma DeleteFrame(s: State, t: Tid, h: nat, k: After, s': State)
    requires Inv(s) && PcOf(s, t) == Delete(h, k) && h < |s.services| && s' == DeleteContext(s, t, h, k)
    requires Elsewhere(PcOf(s, t), Resume(k, true), h) && Agree(Resume(k, true), t, h, s'.services[h])
    requires Launching(PcOf(s, t), h) <==> Launching(Resume(k, true), h)
    requires InHand(Resume(k, true), h) == InHand(PcOf(s, t), h)
    ensures Inv(s')
  {
    hide Launching, InHand, Elsewhere, Holds, ServiceOK, Guarantee;
    Facts(s, t, h);
    ResumeRange(s, t);
    DeleteService(s.services[h], t);
    if s.services[h].queue.inGlobal { GlobalSame(s, s', t, h); } else { GlobalPush(s, s', t, h); }
    Frame(s, s', t, h);
  }

  lemma PushKeeps(s: State, t: Tid, h: nat, m: Message)
    requires Inv(s) && PcOf(s, t) == Holder(h) && h < |s.services|
    ensures Inv(PushMessage(s, t, h, m))
  {
    var s', v := PushMessage(s, t, h, m), s.services[h];
    Facts(s, t, h);
    assert v.holders != {};
    if v.queue.inGlobal { GlobalSame(s, s', t, h); } else { GlobalPush(s, s', t, h); }
    Frame(s, s', t, h);
  }

  /** Steps that only move the thread on. */
  lemma MoveKeeps(s: State, t: Tid, h: nat, pc': Pc)
    requires Inv(s) && h < |s.services|
    requires var pc := PcOf(s, t);
             || (pc == Holder(h) && pc' == Unref(h, Finish))
             || (pc == Init(h) && (pc' == Unref(h, Launched(h)) || pc' == Unref(h, Failed(h))))
             || (pc == Retire(h) && !s.services[h].registered && pc' == Give(h, false))
             || (pc == Swap(h) && pc' == Unref(h, Carry(h)))
             || (pc == Announce(h) && pc' == Idle)
    ensures Inv(At(s, t, pc'))
  {
    var s' := At(s, t, pc');
    Facts(s, t, h);
    GlobalSame(s, s', t, h);
    Frame(s, s', t, h);
  }

  lemma SetInitKeeps(s: State, t: Tid, h: nat)
    requires Inv(s) && PcOf(s, t) == SetInit(h) && h < |s.services|
    ensures Inv(With(s, t, Launch(h, true), h, s.services[h].(init := true)))
  {
    var s' := With(s, t, Launch(h, true), h, s.services[h].(init := true));
    Facts(s, t, h);
    GlobalSame(s, s', t, h);
    Frame(s, s', t, h);
  }

  lemma LaunchKeeps(s: State, t: Tid, h: nat, ret: bool)
    requires Inv(s) && PcOf(s, t) == Launch(h, ret) && h < |s.services|
    ensures Inv(List(s, t, if ret then Announce(h) else Idle, h, s.services[h]))
  {
    var s' := List(s, t, if ret then Announce(h) else Idle, h, s.services[h]);
    Facts(s, t, h);
    GlobalPush(s, s', t, h);
    Frame(s, s', t, h);
  }

  lemma UnregisterKeeps(s: State, t: Tid, h: nat, k: After)
    requires Inv(s) && h < |s.services| && s.services[h].registered
    requires (PcOf(s, t) == Retire(h) && k == Retired(h)) || (PcOf(s, t).Idle? && k == Finish)
    ensures Inv(Unregister(s, t, h, k))
  {
    var s' := Unregister(s, t, h, k);
    Facts(s, t, h);
    AddHolder(s.services[h].holders, t);
    GlobalSame(s, s', t, h);
    Frame(s, s', t, h);
  }

  lemma GrabHolderKeeps(s: State, t: Tid, h: nat)
    requires Inv(s) && PcOf(s, t).Idle? && h < |s.services| && s.services[h].registered
    ensures Inv(Begin(s, t, Grab(h)))
  {
    var s' := Begin(s, t, Grab(h));
    Facts(s, t, h);
    AddHolder(s.services[h].holders, t);
    GlobalSame(s, s', t, h);
    Frame(s, s', t, h);
  }

  lemma TakeKeeps(s: State, t: Tid, from: Option<nat>)
    requires Inv(s) && PcOf(s, t) == (if from.Some? then Swap(from.value) else Pop)
    ensures Inv(Take(s, t, from))
  {
    assert ThreadOK(s, t);
    if s.global == [] {
      if from.Some? { MoveKeeps(s, t, from.value, Unref(from.value, Carry(from.value))); }
      else { StillKeeps(s, t, Pop); }
    } else {
      var h := s.global[0];
      assert h < |s.services| && s.services[h].owner.Listed?;
      var s' := Take(s, t, from);
      Facts(s, t, h);
      if from.Some? { Facts(s, t, from.value); }
      GlobalPop(s, s', t, h);
      Frame(s, s', t, h);
    }
  }

  /** A worker without a queue has nothing to do with any service. */
  lemma StillKeeps(s: State, t: Tid, pc': Pc)
    requires Inv(s) && (PcOf(s, t).Idle? || PcOf(s, t).Pop?) && pc'.Pop?
    ensures Inv(At(s, t, pc'))
  {
    hide ServiceOK, GlobalOK;
    var s' := At(s, t, pc');
    assert ThreadOK(s, t);
    forall u: Tid ensures ThreadOK(s', u) {
      assert ThreadOK(s, u);
      forall k | 0 <= k < |s'.services| ensures Agree(PcOf(s', u), u, k, s'.services[k]) {
        assert Agree(PcOf(s, u), u, k, s.services[k]);
      }
    }
    forall k | 0 <= k < |s'.services| ensures EachOK(s', k) {
      assert EachOK(s, k);
      assert Agree(PcOf(s, t), t, k, s.services[k]);
    }
    assert GlobalOK(s') by { GlobalOnly(s, s'); }
  }

  lemma GlobalOnly(s: State, s': State)
    requires GlobalOK(s) && s'.global == s.global && s'.services == s.services
    ensures GlobalOK(s')
  {
  }

  lemma CreateKeeps(s: State, t: Tid)
    requires Inv(s) && PcOf(s, t).Idle?
    ensures Inv(Begin(s, t, Create))
  {
    hide ServiceOK, GlobalOK;
    var s', n := Begin(s, t, Create), |s.services|;
    assert ThreadOK(s, t);
    forall u: Tid ensures ThreadOK(s', u) {
      assert ThreadOK(s, u);
      forall k | 0 <= k < |s'.services| ensures Agree(PcOf(s', u), u, k, s'.services[k]) {
        if k < n {
          assert Agree(PcOf(s, u), u, k, s.services[k]);
        } else {
          NewAgrees(s, t, u);
        }
      }
    }
    forall k | 0 <= k < |s'.services| ensures EachOK(s', k) {
      if k < n {
        assert EachOK(s, k);
        assert Agree(PcOf(s, t), t, k, s.services[k]);
      } else {
        NewOK(t);
      }
    }
    GlobalCreate(s, s', t);
  }

  lemma NewOK(t: Tid)
    ensures ServiceOK(NewService(t))
  {
  }

  lemma NewAgrees(s: State, t: Tid, u: Tid)
    requires ThreadOK(s, u) && ThreadOK(s, t) && PcOf(s, t).Idle?
    ensures Agree(if u == t then Init(|s.services|) else PcOf(s, u), u, |s.services|, NewService(t))
  {
    var pc := PcOf(s, u);
    if u != t && Holds(pc, |s.services|) { assert false; }
  }

  lemma GlobalCreate(s: State, s': State, t: Tid)
    requires GlobalOK(s) && s'.global == s.global && s'.services == s.services + [NewService(t)]
    ensures GlobalOK(s')
  {
  }

  lemma BeginKeeps(s: State, t: Tid, a: Act)
    requires Inv(s) && PcOf(s, t).Idle?
    ensures Inv(Begin(s, t, a))
  {
    hide Inv, PcOf;
    match a {
      case Work => StillKeeps(s, t, Pop);
      case Create => CreateKeeps(s, t);
      case Grab(h) => if h < |s.services| && s.services[h].registered { GrabHolderKeeps(s, t, h); }
      case RetireHandle(h) => if h < |s.services| && s.services[h].registered { UnregisterKeeps(s, t, h, Finish); }
      case _ =>
    }
  }

  /** Every step keeps the invariant. */
  lemma StepKeeps(s: State, t: Tid, a: Act)
    requires Inv(s)
    ensures Inv(Step(s, t, a))
  {
    hide Inv, PcOf, Begin, Take, GrabContext, PopMessage, WeighBatch, HandOver, MqRelease, DropMessage, FreeQueue, ContextRelease, DeleteContext, PushMessage, Unregister, List, With, At;
    var pc := PcOf(s, t);
    match pc {
      case Idle => BeginKeeps(s, t, a);
      case Pop => TakeKeeps(s, t, None);
      case Swap(q) => TakeKeeps(s, t, Some(q));
      case _ => if Concern(pc).value < |s.services| { StepOnKeeps(s, t, pc, Concern(pc).value, a); }
    }
  }

  lemma StepOnKeeps(s: State, t: Tid, pc: Pc, h: nat, a: Act)
    requires Inv(s) && PcOf(s, t) == pc && h < |s.services| && Concern(pc) == Some(h)
    ensures Inv(StepOn(s, t, pc, h, a))
  {
    hide Inv, PcOf, Begin, Take, GrabContext, PopMessage, WeighBatch, HandOver, MqRelease, DropMessage, FreeQueue, ContextRelease, DeleteContext, PushMessage, Unregister, List, With, At;
    match pc {
      case Have(_) => GrabKeeps(s, t, h);
      case Loop(_, i, n) => PopKeeps(s, t, h, i, n);
      case Weigh(_, m) => WeighKeeps(s, t, h, m, a);
      case Call(_, i, n, m) => HandOverKeeps(s, t, h, i, n, m);
      case PushBack(_, nq) => PutBackKeeps(s, t, h, nq);
      case Give(_, worker) => MqReleaseKeeps(s, t, h, worker);
      case Drop(_, worker) => DropKeeps(s, t, h, worker);
      case Free(_, worker) => FreeKeeps(s, t, h, worker);
      case Unref(_, k) => ReleaseKeeps(s, t, h, k);
      case Delete(_, k) => DeleteKeeps(s, t, h, k);
      case Holder(_) => if a.Send? { PushKeeps(s, t, h, a.m); } else { MoveKeeps(s, t, h, Unref(h, Finish)); }
      case Init(_) => MoveKeeps(s, t, h, Unref(h, if a == InitResult(true) then Launched(h) else Failed(h)));
      case SetInit(_) => SetInitKeeps(s, t, h);
      case Launch(_, ret) => LaunchKeeps(s, t, h, ret);
      case Announce(_) => MoveKeeps(s, t, h, Idle);
      case Retire(_) =>
        if s.services[h].registered { UnregisterKeeps(s, t, h, Retired(h)); } else { MoveKeeps(s, t, h, Give(h, false)); }
    }
  }

  lemma {:induction false} RunKeeps(moves: seq<Move>)
    ensures Inv(Run(moves))
    decreases |moves|
  {
    hide Inv, Step;
    if moves == [] {
      StartOK();
    } else {
      RunKeeps(moves[..|moves| - 1]);
      StepKeeps(Run(moves[..|moves| - 1]), moves[|moves| - 1].t, moves[|moves| - 1].a);
    }
  }

  lemma StartOK()
    ensures Inv(START)
  {
  }
}
