/** skynet/skynet-src/skynet_mq.c: the message queue of a service, a ring buffer, and the global queue
    of queues, a linked list.  Each method is what the source does under one lock. */
module Mq {

  datatype Option<T> = None | Some(value: T)

  datatype Message = Message(source: nat, session: int, data: int)

  const DEFAULT_QUEUE_SIZE: nat := 64
  const MQ_OVERLOAD: nat := 1024

  /** What a queue is, apart from how it is stored. */
  datatype Queue = Queue(msgs: seq<Message>, inGlobal: bool, release: bool)

  /** skynet_mq_create. */
  const FRESH_QUEUE := Queue([], true, false)

  /** skynet_mq_push; the result also says whether the queue is put on the global list. */
  function PushQueue(q: Queue, m: Message): (Queue, bool)
  {
    (Queue(q.msgs + [m], true, q.release), !q.inGlobal)
  }

  /** skynet_mq_pop: the first message, or the queue is left to its next sender. */
  function PopQueue(q: Queue): (Queue, Option<Message>)
  {
    if q.msgs == [] then (q.(inGlobal := false), None)
    else (q.(msgs := q.msgs[1..]), Some(q.msgs[0]))
  }

  /** skynet_mq_mark_release. */
  function MarkQueue(q: Queue): (Queue, bool)
  {
    (q.(release := true), !q.inGlobal)
  }

  /** The global list, after `q` was put on it if it had to be. */
  ghost function Listed(items: seq<MessageQueue>, q: MessageQueue, put: bool): seq<MessageQueue>
  {
    if put then items + [q] else items
  }

  ghost function Follower(items: seq<MessageQueue>, i: nat): MessageQueue?
    requires i < |items|
  {
    if i + 1 < |items| then items[i + 1] else null
  }

  class GlobalQueue {
    var head: MessageQueue?
    var tail: MessageQueue?
    ghost var items: seq<MessageQueue>

    ghost predicate Valid()
      reads this, items
    {
      && (head == null <==> items == [])
      && (tail == null <==> items == [])
      && (items != [] ==> head == items[0] && tail == items[|items| - 1])
      && (forall i :: 0 <= i < |items| ==> items[i].next == Follower(items, i))
      && (forall i, j :: 0 <= i < j < |items| ==> items[i] != items[j])
    }

    constructor ()
      ensures Valid() && items == []
    {
      head, tail, items := null, null, [];
    }

    /** skynet_globalmq_push. */
    method Push(queue: MessageQueue)
      requires Valid() && queue !in items && queue.next == null
      modifies this, queue`next, items
      ensures Valid() && items == old(items) + [queue]
      ensures forall q :: q in items ==> unchanged(q`queue, q`cap, q`head, q`tail, q`release, q`inGlobal, q`overload, q`threshold)
    {
      assert queue.next == null;
      if tail != null {
        tail.next := queue;
        tail := queue;
      } else {
        head, tail := queue, queue;
      }
      items := items + [queue];
    }

    /** skynet_globalmq_pop. */
    method Pop() returns (mq: MessageQueue?)
      requires Valid()
      modifies this, items
      ensures Valid()
      ensures if old(items) == [] then mq == null && items == []
              else mq == old(items)[0] && items == old(items)[1..] && mq.next == null
      ensures forall q :: q in old(items) ==> unchanged(q`queue, q`cap, q`head, q`tail, q`release, q`inGlobal, q`overload, q`threshold)
    {
      mq := head;
      if mq != null {
        assert items[0].next == Follower(items, 0);
        assert forall i :: 0 <= i < |items[1..]| ==> items[1..][i] == items[i + 1];
        head := mq.next;
        if head == null {
          assert mq == tail;
          tail := null;
        }
        mq.next := null;
        items := items[1..];
      }
    }
  }

  class MessageQueue {
    var queue: array<Message>
    var cap: nat
    var head: nat
    var tail: nat
    var release: bool
    var inGlobal: bool
    var overload: nat
    var threshold: nat
    var next: MessageQueue?

    ghost predicate Valid()
      reads this, queue
    {
      0 < cap == queue.Length && head < cap && tail < cap && 0 < threshold
    }

    ghost function Messages(): seq<Message>
      requires Valid()
      reads this, queue
    {
      if head <= tail then queue[head..tail] else queue[head..] + queue[..tail]
    }

    ghost function Value(): Queue
      requires Valid()
      reads this, queue
    {
      Queue(Messages(), inGlobal, release)
    }

    constructor ()
      ensures Valid() && fresh(queue) && Value() == FRESH_QUEUE && next == null
    {
      cap := DEFAULT_QUEUE_SIZE;
      queue := new Message[DEFAULT_QUEUE_SIZE](_ => Message(0, 0, 0));
      head, tail, release, inGlobal, overload, threshold, next := 0, 0, false, true, 0, MQ_OVERLOAD, null;
    }

    /** skynet_mq_length. */
    method Length() returns (n: nat)
      requires Valid()
      ensures n == |Messages()|
    {
      n := if head <= tail then tail - head else tail + cap - head;
    }

    /** skynet_mq_overload: report an overload once. */
    method Overload() returns (n: nat)
      modifies this`overload
      ensures n == old(overload) && overload == 0
    {
      n := overload;
      overload := 0;
    }

    /** skynet_mq_pop.  An overload is noted when the length passes a threshold, which then doubles. */
    method Pop() returns (m: Option<Message>)
      requires Valid()
      modifies this`head, this`inGlobal, this`overload, this`threshold
      ensures Valid() && (Value(), m) == PopQueue(old(Value()))
      ensures m.Some? ==> |Messages()| <= threshold
      ensures m.Some? ==> overload == if |Messages()| > old(threshold) then |Messages()| else old(overload)
      ensures m.None? ==> threshold == MQ_OVERLOAD
    {
      if head != tail {
        m := Some(queue[head]);
        head := head + 1;
        if head >= cap { head := 0; }
        assert Messages() == old(Messages())[1..];
        NoteOverload(if tail < head then tail - head + cap else tail - head);
      } else {
        m := None;
        threshold := MQ_OVERLOAD;
        inGlobal := false;
      }
    }

    method NoteOverload(length: nat)
      requires 0 < threshold
      modifies this`overload, this`threshold
      ensures length <= threshold && old(threshold) <= threshold
      ensures overload == if length > old(threshold) then length else old(overload)
      ensures length <= old(threshold) ==> threshold == old(threshold)
    {
      while length > threshold
        invariant 0 < threshold && old(threshold) <= threshold
        invariant if length > old(threshold) && threshold > old(threshold) then overload == length else threshold == old(threshold) && overload == old(overload)
        decreases length - threshold
      {
        overload := length;
        threshold := threshold * 2;
      }
    }

    /** expand_queue: a full ring is copied, in order, into one of twice the size. */
    method ExpandQueue()
      requires 0 < cap == queue.Length && head == tail < cap && 0 < threshold
      modifies this`queue, this`cap, this`head, this`tail
      ensures Valid() && fresh(queue) && cap == 2 * old(cap)
      ensures Messages() == old(queue[head..] + queue[..head])
    {
      var newQueue := new Message[cap * 2](_ => Message(0, 0, 0));
      ghost var full := queue[head..] + queue[..head];
      var i := 0;
      while i < cap
        invariant unchanged(this) && unchanged(queue)
        invariant i <= cap && newQueue[..i] == full[..i]
      {
        RingIndex(head, i, cap);
        assert full[i] == queue[(head + i) % cap];
        newQueue[i] := queue[(head + i) % cap];
        assert newQueue[..i + 1] == newQueue[..i] + [full[i]];
        assert full[..i + 1] == full[..i] + [full[i]];
        i := i + 1;
      }
      assert full[..cap] == full;
      head, tail, cap := 0, cap, cap * 2;
      queue := newQueue;
    }

    /** skynet_mq_push. */
    method Push(m: Message, global: GlobalQueue)
      requires Valid() && global.Valid() && (!inGlobal ==> next == null && this !in global.items)
      requires forall q :: q in global.items && q != this ==> q.queue != queue
      modifies this, queue, global, global.items
      ensures Valid() && global.Valid()
      ensures (Value(), global.items) ==
              (PushQueue(old(Value()), m).0, Listed(old(global.items), this, PushQueue(old(Value()), m).1))
    {
      Store(m);
      Wake(global);
    }

    /** The rest of skynet_mq_push: put the queue on the global list, unless it is there or held. */
    method Wake(global: GlobalQueue)
      requires Valid() && global.Valid() && (!inGlobal ==> next == null && this !in global.items)
      modifies this`inGlobal, this`next, global, global.items
      ensures Valid() && global.Valid() && inGlobal
      ensures Messages() == old(Messages()) && release == old(release)
      ensures global.items == Listed(old(global.items), this, !old(inGlobal))
    {
      if !inGlobal {
        inGlobal := true;
        global.Push(this);
      }
    }

    /** The ring's part of skynet_mq_push. */
    method Store(m: Message)
      requires Valid()
      modifies this`queue, this`cap, this`head, this`tail, queue
      ensures Valid() && Messages() == old(Messages()) + [m] && (queue == old(queue) || fresh(queue))
    {
      queue[tail] := m;
      tail := tail + 1;
      if tail >= cap { tail := 0; }
      if head == tail { ExpandQueue(); }
    }

    /** skynet_mq_mark_release. */
    method MarkRelease(global: GlobalQueue)
      requires Valid() && global.Valid() && !release && (!inGlobal ==> next == null && this !in global.items)
      modifies this`release, this`next, global, global.items
      ensures Valid() && global.Valid()
      ensures (Value(), global.items) ==
              (MarkQueue(old(Value())).0, Listed(old(global.items), this, MarkQueue(old(Value())).1))
    {
      release := true;
      if !inGlobal { global.Push(this); }
    }
  }

  lemma RingIndex(head: nat, i: nat, cap: nat)
    requires head < cap && i < cap
    ensures (head + i) % cap == if head + i < cap then head + i else head + i - cap
  {
    if head + i >= cap { assert (head + i - cap) % cap == (head + i) % cap; }
  }
}
