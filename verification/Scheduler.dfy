/** The two-level scheduler of skynet/skynet-src/skynet_server.c and skynet_mq.c as a state machine.

    Every step is one atomic operation or one lock region of the source, performed by one of any number
    of threads.  A thread is one activation of a procedure: a worker's skynet_context_message_dispatch,
    the launch of a service, the retirement of a handle, or any code that grabbed a context, may send to
    it and releases it.  What a service does while it handles a message, and what a failed delivery
    reports, are activations of their own, so that every interleaving of them is covered.  Handles are
    not reused. */
module Scheduler {
  import opened Mq

  type Tid = nat

  /** Where a service's queue is: in no list, in the global list, or held by a thread. */
  datatype Owner = Nobody | Listed | Held(t: Tid)

  /** A service: its context, its queue, what happened to its messages, and, for the proof only, who
      holds its references, who is deleting it and who has its queue. */
  datatype Service = Service(
    registered: bool, ref: int, deleted: bool, init: bool,
    queue: Queue, frees: nat,
    pushed: seq<Message>, dispatched: seq<Message>, dropped: seq<Message>,
    holders: set<Tid>, deleting: Option<Tid>, owner: Owner)

  /** What follows a skynet_context_release. */
  datatype After = Carry(q: nat) | ThenPop | Finish | Launched(h: nat) | Failed(h: nat) | Retired(h: nat)

  datatype Pc =
    | Idle
    | Pop                                               // a worker without a queue
    | Have(q: nat)                                      // about to grab the context
    | Loop(q: nat, i: nat, n: nat)                      // about to pop message i of at most n
    | Weigh(q: nat, msg: Message)                       // about to read the length
    | Call(q: nat, i: nat, n: nat, msg: Message)        // about to hand a message over
    | Swap(q: nat)                                      // the batch is over
    | PushBack(q: nat, nq: nat)                         // found another queue
    | Give(q: nat, worker: bool)                        // skynet_mq_release
    | Drop(q: nat, worker: bool)                        // _drop_queue
    | Free(q: nat, worker: bool)                        // _release
    | Unref(h: nat, after: After)                       // skynet_context_release
    | Delete(h: nat, after: After)                      // delete_context
    | Holder(h: nat)                                    // grabbed a context; may send to it
    | Init(h: nat)                                      // skynet_context_new, inside the module's init
    | SetInit(h: nat)                                   // about to write ctx->init, without a reference
    | Launch(h: nat, ret: bool)
    | Announce(h: nat)                                  // about to read the context for the log, likewise
    | Retire(h: nat)

  datatype State = State(services: seq<Service>, global: seq<nat>, threads: map<Tid, Pc>)

  /** What the step leaves open: what an idle thread starts, whether init succeeds, a worker's weight. */
  datatype Act = Go | Work | Create | Grab(h: nat) | RetireHandle(h: nat) | Send(m: Message) | InitResult(ok: bool) | Weight(w: int)

  const START := State([], [], map[])

  function PcOf(s: State, t: Tid): Pc { if t in s.threads then s.threads[t] else Idle }

  /** How many messages a worker of weight w takes from a queue of the given length: the length shifted
      right by w, or one. */
  function BatchSize(length: nat, w: int): nat
    decreases if w < 0 then 0 else w
  {
    if w < 0 then 1 else if w == 0 then length else BatchSize(length / 2, w - 1)
  }

  function At(s: State, t: Tid, pc: Pc): State { s.(threads := s.threads[t := pc]) }

  function With(s: State, t: Tid, pc: Pc, h: nat, v: Service): State
    requires h < |s.services|
  {
    s.(threads := s.threads[t := pc], services := s.services[h := v])
  }

  function Resume(k: After, gone: bool): Pc
  {
    match k
    case Carry(q) => Have(q)
    case ThenPop => Pop
    case Finish => Idle
    case Launched(h) => if gone then Launch(h, false) else SetInit(h)
    case Failed(h) => Retire(h)
    case Retired(h) => Give(h, false)
  }

  function NewService(t: Tid): Service
  {
    Service(true, 2, false, false, FRESH_QUEUE, 0, [], [], [], {t}, None, Held(t))
  }

  /** Put queue h, which v describes, on the global list. */
  function List(s: State, t: Tid, pc: Pc, h: nat, v: Service): State
    requires h < |s.services|
  {
    With(s, t, pc, h, v.(owner := Listed)).(global := s.global + [h])
  }

  /** skynet_context_message_dispatch: skynet_handle_grab. */
  function GrabContext(s: State, t: Tid, q: nat): State
    requires q < |s.services|
  {
    var v := s.services[q];
    if v.registered then With(s, t, Loop(q, 0, 1), q, v.(ref := v.ref + 1, holders := v.holders + {t}))
    else At(s, t, Give(q, true))
  }

  /** skynet_context_message_dispatch: skynet_mq_pop. */
  function PopMessage(s: State, t: Tid, q: nat, i: nat, n: nat): State
    requires q < |s.services|
  {
    var v := s.services[q];
    var (queue, m) := PopQueue(v.queue);
    if m.None? then With(s, t, Unref(q, ThenPop), q, v.(queue := queue, owner := Nobody))
    else With(s, t, if i == 0 then Weigh(q, m.value) else Call(q, i, n, m.value), q, v.(queue := queue))
  }

  /** skynet_context_message_dispatch: skynet_mq_length, for the size of the batch. */
  function WeighBatch(s: State, t: Tid, q: nat, m: Message, a: Act): State
    requires q < |s.services|
  {
    At(s, t, Call(q, 0, if a.Weight? then BatchSize(|s.services[q].queue.msgs|, a.w) else 1, m))
  }

  /** skynet_context_message_dispatch: the message is handed to the service, or freed if the service
      has no callback. */
  function HandOver(s: State, t: Tid, q: nat, i: nat, n: nat, m: Message): State
    requires q < |s.services|
  {
    var v := s.services[q];
    With(s, t, if i + 1 < n then Loop(q, i + 1, n) else Swap(q), q, v.(dispatched := v.dispatched + [m]))
  }

  /** skynet_mq_release. */
  function MqRelease(s: State, t: Tid, q: nat, worker: bool): State
    requires q < |s.services|
  {
    var v := s.services[q];
    if v.queue.release then At(s, t, Drop(q, worker)) else List(s, t, if worker then Pop else Idle, q, v)
  }

  /** _drop_queue. */
  function DropMessage(s: State, t: Tid, q: nat, worker: bool): State
    requires q < |s.services|
  {
    var v := s.services[q];
    var (queue, m) := PopQueue(v.queue);
    if m.None? then With(s, t, Free(q, worker), q, v.(queue := queue))
    else With(s, t, Drop(q, worker), q, v.(queue := queue, dropped := v.dropped + [m.value]))
  }

  /** _release. */
  function FreeQueue(s: State, t: Tid, q: nat, worker: bool): State
    requires q < |s.services|
  {
    var v := s.services[q];
    With(s, t, if worker then Pop else Idle, q, v.(frees := v.frees + 1, owner := Nobody))
  }

  /** skynet_context_release. */
  function ContextRelease(s: State, t: Tid, h: nat, k: After): State
    requires h < |s.services|
  {
    var v := s.services[h];
    var v' := v.(ref := v.ref - 1, holders := v.holders - {t});
    if v.ref == 1 then With(s, t, Delete(h, k), h, v'.(deleting := Some(t)))
    else With(s, t, Resume(k, false), h, v')
  }

  /** delete_context: skynet_mq_mark_release. */
  function DeleteContext(s: State, t: Tid, h: nat, k: After): State
    requires h < |s.services|
  {
    var v := s.services[h];
    var (queue, put) := MarkQueue(v.queue);
    var v' := v.(queue := queue, deleted := true, deleting := None);
    if put then List(s, t, Resume(k, true), h, v') else With(s, t, Resume(k, true), h, v')
  }

  /** skynet_context_push: skynet_mq_push. */
  function PushMessage(s: State, t: Tid, h: nat, m: Message): State
    requires h < |s.services|
  {
    var v := s.services[h];
    var (queue, put) := PushQueue(v.queue, m);
    var v' := v.(queue := queue, pushed := v.pushed + [m]);
    if put then List(s, t, Holder(h), h, v') else With(s, t, Holder(h), h, v')
  }

  /** skynet_handle_retire: the table's reference passes to the thread, which goes on as `then'`. */
  function Unregister(s: State, t: Tid, h: nat, then': After): State
    requires h < |s.services|
  {
    var v := s.services[h];
    With(s, t, Unref(h, then'), h, v.(registered := false, holders := v.holders + {t}))
  }

  /** What a thread does with the service it is concerned with. */
  function StepOn(s: State, t: Tid, pc: Pc, h: nat, a: Act): State
    requires h < |s.services| && Concern(pc) == Some(h)
  {
    match pc
    case Have(_) => GrabContext(s, t, h)
    case Loop(_, i, n) => PopMessage(s, t, h, i, n)
    case Weigh(_, m) => WeighBatch(s, t, h, m, a)
    case Call(_, i, n, m) => HandOver(s, t, h, i, n, m)
    case PushBack(_, nq) => List(s, t, Unref(h, Carry(nq)), h, s.services[h])
    case Give(_, worker) => MqRelease(s, t, h, worker)
    case Drop(_, worker) => DropMessage(s, t, h, worker)
    case Free(_, worker) => FreeQueue(s, t, h, worker)
    case Unref(_, k) => ContextRelease(s, t, h, k)
    case Delete(_, k) => DeleteContext(s, t, h, k)
    case Holder(_) => if a.Send? then PushMessage(s, t, h, a.m) else At(s, t, Unref(h, Finish))
    case Init(_) => At(s, t, Unref(h, if a == InitResult(true) then Launched(h) else Failed(h)))
    case SetInit(_) => With(s, t, Launch(h, true), h, s.services[h].(init := true))
    case Launch(_, ret) => List(s, t, if ret then Announce(h) else Idle, h, s.services[h])
    case Announce(_) => At(s, t, Idle)
    case Retire(_) => if s.services[h].registered then Unregister(s, t, h, Retired(h)) else At(s, t, Give(h, false))
  }

  /** The service whose context or queue the next step of a thread works on. */
  function Concern(pc: Pc): Option<nat>
  {
    match pc
    case Idle => None
    case Pop => None
    case Swap(_) => None
    case Have(q) => Some(q)
    case Loop(q, _, _) => Some(q)
    case Weigh(q, _) => Some(q)
    case Call(q, _, _, _) => Some(q)
    case PushBack(q, _) => Some(q)
    case Give(q, _) => Some(q)
    case Drop(q, _) => Some(q)
    case Free(q, _) => Some(q)
    case Unref(h, _) => Some(h)
    case Delete(h, _) => Some(h)
    case Holder(h) => Some(h)
    case Init(h) => Some(h)
    case SetInit(h) => Some(h)
    case Launch(h, _) => Some(h)
    case Announce(h) => Some(h)
    case Retire(h) => Some(h)
  }

  /** skynet_globalmq_pop, by a worker without a queue (None) or at the end of a batch (Some). */
  function Take(s: State, t: Tid, from: Option<nat>): State
  {
    if s.global == [] then At(s, t, if from.Some? then Unref(from.value, Carry(from.value)) else Pop)
    else if s.global[0] >= |s.services| then s
    else
      var h := s.global[0];
      With(s, t, if from.Some? then PushBack(from.value, h) else Have(h), h, s.services[h].(owner := Held(t)))
      .(global := s.global[1..])
  }

  /** An idle thread starts something. */
  function Begin(s: State, t: Tid, a: Act): State
  {
    match a
    case Work => At(s, t, Pop)
    case Create =>
      // skynet_context_new: the context is registered and its queue created
      State(s.services + [NewService(t)], s.global, s.threads[t := Init(|s.services|)])
    case Grab(h) =>
      if h < |s.services| && s.services[h].registered then
        var v := s.services[h];
        With(s, t, Holder(h), h, v.(ref := v.ref + 1, holders := v.holders + {t}))
      else s
    case RetireHandle(h) =>
      if h < |s.services| && s.services[h].registered then
        Unregister(s, t, h, Finish)
      else s
    case _ => s
  }

  function Step(s: State, t: Tid, a: Act): State
  {
    var pc := PcOf(s, t);
    if pc.Idle? then Begin(s, t, a)
    else if pc.Pop? then Take(s, t, None)
    else if pc.Swap? then Take(s, t, Some(pc.q))
    else if Concern(pc).value < |s.services| then StepOn(s, t, pc, Concern(pc).value, a)
    else s
  }

  datatype Move = Move(t: Tid, a: Act)

  /** Any run: any thread may take the next step. */
  ghost function Run(moves: seq<Move>): State
  {
    if moves == [] then START
    else
      var m := moves[|moves| - 1];
      Step(Run(moves[..|moves| - 1]), m.t, m.a)
  }
}
