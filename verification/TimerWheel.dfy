/** skynet/skynet-src/skynet_timer.c: the timing wheel, against a plain list of timeouts. */
module TimerWheel {
  import opened TimerPlace

  /** A timeout as its caller sees it: the tick, counted without wrap-around, at which it is due, the
      number of timeouts requested before it, and its event. */
  datatype Timeout = Timeout(deadline: nat, id: nat, event: Event)

  /** The specification: a clock that does not wrap, and a list of timeouts in the order of their
      requests. */
  datatype Plain = Plain(now: nat, pending: seq<Timeout>, added: nat)

  function NodeOf(x: Timeout): Node { Node(x.deadline % WRAP, x.event) }

  function Nodes(xs: seq<Timeout>): (r: seq<Node>)
    ensures |r| == |xs|
  {
    if xs == [] then [] else Nodes(xs[..|xs| - 1]) + [NodeOf(xs[|xs| - 1])]
  }

  /** The timeouts that are due at `now`, and the others, both in order. */
  function Due(xs: seq<Timeout>, now: nat): seq<Timeout>
  {
    if xs == [] then []
    else
      var x := xs[|xs| - 1];
      if x.deadline == now then Due(xs[..|xs| - 1], now) + [x] else Due(xs[..|xs| - 1], now)
  }

  function NotDue(xs: seq<Timeout>, now: nat): seq<Timeout>
  {
    if xs == [] then []
    else
      var x := xs[|xs| - 1];
      if x.deadline == now then NotDue(xs[..|xs| - 1], now) else NotDue(xs[..|xs| - 1], now) + [x]
  }

  /** Every pending timeout is due now or within the next 2^31 - 1 ticks. */
  ghost predicate InRange(xs: seq<Timeout>, now: nat)
  {
    forall k :: 0 <= k < |xs| ==> now <= xs[k].deadline <= now + MAX_DELAY
  }

  ghost predicate NoneDue(xs: seq<Timeout>, now: nat)
  {
    forall k :: 0 <= k < |xs| ==> xs[k].deadline != now
  }

  /** add_node's effect on the list p. */
  ghost function AddIf(list: seq<Node>, n: Node, t: nat, p: Place): seq<Node>
  {
    if PlaceOf(n.expire, t) == p then list + [n] else list
  }

  /** The nodes that belong in list p when the clock is t, in order. */
  ghost function Select(ns: seq<Node>, t: nat, p: Place): seq<Node>
  {
    if ns == [] then []
    else
      var n := ns[|ns| - 1];
      AddIf(Select(ns[..|ns| - 1], t, p), n, t, p)
  }

  /** List p after the nodes of ns have been added. */
  ghost function Plus(list: seq<Node>, ns: seq<Node>, t: nat, p: Place): seq<Node> { list + Select(ns, t, p) }

  lemma PlusNone(list: seq<Node>, ns: seq<Node>, t: nat, p: Place)
    ensures Plus(list, ns[..0], t, p) == list
  {
    assert ns[..0] == [];
  }

  lemma PlusSnoc(list: seq<Node>, ns: seq<Node>, n: Node, t: nat, p: Place)
    ensures Plus(list, ns + [n], t, p) == AddIf(Plus(list, ns, t, p), n, t, p)
  {
    hide Select;
    SelectSnoc(ns, n, t, p);
  }

  lemma SelectSnoc(ns: seq<Node>, n: Node, t: nat, p: Place)
    ensures Select(ns + [n], t, p) == AddIf(Select(ns, t, p), n, t, p)
  {
    assert (ns + [n])[..|ns|] == ns;
  }

  lemma NodesSnoc(xs: seq<Timeout>, x: Timeout)
    ensures Nodes(xs + [x]) == Nodes(xs) + [NodeOf(x)]
  {
    assert (xs + [x])[..|xs|] == xs;
  }

  lemma AheadOfDeadline(d: nat, now: nat)
    requires now <= d <= now + MAX_DELAY
    ensures Ahead(d % WRAP, now % WRAP) == d - now
    ensures d % WRAP == now % WRAP <==> d == now
  {
    assert d == d / WRAP * WRAP + d % WRAP;
    assert now == now / WRAP * WRAP + now % WRAP;
  }

  lemma TickOfNow(now: nat)
    ensures Tick(now % WRAP) == (now + 1) % WRAP
  {
    assert now == now / WRAP * WRAP + now % WRAP;
  }

  /** When the clock moves on without a cascade, every list is right as it is. */
  lemma {:induction false} StaySelects(xs: seq<Timeout>, now: nat, p: Place)
    requires InRange(xs, now) && NoneDue(xs, now) && MoveAt(Tick(now % WRAP)).Stay?
    ensures Select(Nodes(xs), Tick(now % WRAP), p) == Select(Nodes(xs), now % WRAP, p)
    decreases |xs|
  {
    hide PlaceOf, MoveAt, Tick, Ahead, Lower;
    if xs != [] {
      StaySelects(xs[..|xs| - 1], now, p);
      StayKeeps(xs[|xs| - 1].deadline % WRAP, now % WRAP);
    }
  }

  lemma SelectLast(xs: seq<Timeout>, t: nat, p: Place)
    requires xs != []
    ensures Select(Nodes(xs), t, p) == AddIf(Select(Nodes(xs[..|xs| - 1]), t, p), NodeOf(xs[|xs| - 1]), t, p)
  {
  }

  ghost predicate Cascading(xs: seq<Timeout>, now: nat)
  {
    InRange(xs, now) && NoneDue(xs, now) && MoveAt(Tick(now % WRAP)).Cascade?
  }

  /** The list that is redistributed when the clock moves on from `now`. */
  ghost function Moved(now: nat): Place
    requires MoveAt(Tick(now % WRAP)).Cascade?
  {
    var m := MoveAt(Tick(now % WRAP));
    Level(m.level, m.idx)
  }

  /** What the last node of the list contributes to a cascade. */
  lemma CascadeLast(xs: seq<Timeout>, now: nat)
    requires Cascading(xs, now) && xs != []
    ensures Cascading(xs[..|xs| - 1], now)
    ensures var e, t, m := NodeOf(xs[|xs| - 1]).expire, now % WRAP, Moved(now);
            if PlaceOf(e, t) == m then Lower(PlaceOf(e, Tick(t)), m.level)
            else !Lower(PlaceOf(e, t), m.level) && PlaceOf(e, Tick(t)) == PlaceOf(e, t)
  {
    hide PlaceOf, MoveAt, Tick, Lower;
    var x := xs[|xs| - 1];
    AheadOfDeadline(x.deadline, now);
    CascadeExact(x.deadline % WRAP, now % WRAP);
  }

  /** The lists that a cascade refills were empty. */
  lemma {:induction false} RefilledWereEmpty(xs: seq<Timeout>, now: nat, p: Place)
    requires Cascading(xs, now) && Lower(p, Moved(now).level)
    ensures Select(Nodes(xs), now % WRAP, p) == []
    decreases |xs|
  {
    hide PlaceOf, MoveAt, Tick, InRange, NoneDue;
    if xs != [] {
      CascadeLast(xs, now);
      SelectLast(xs, now % WRAP, p);
      RefilledWereEmpty(xs[..|xs| - 1], now, p);
    }
  }

  /** When a list is redistributed, the lists below get exactly what belongs there, in order, and the
      others get nothing. */
  lemma {:induction false} CascadeRefills(xs: seq<Timeout>, now: nat, p: Place)
    requires Cascading(xs, now)
    ensures Select(Select(Nodes(xs), now % WRAP, Moved(now)), Tick(now % WRAP), p)
            == if Lower(p, Moved(now).level) then Select(Nodes(xs), Tick(now % WRAP), p) else []
    decreases |xs|
  {
    hide PlaceOf, MoveAt, Tick, InRange, NoneDue, Nodes, Lower;
    if xs != [] {
      var n, t, rest := NodeOf(xs[|xs| - 1]), now % WRAP, Nodes(xs[..|xs| - 1]);
      CascadeLast(xs, now);
      SelectLast(xs, t, Moved(now));
      SelectLast(xs, Tick(t), p);
      SelectSnoc(Select(rest, t, Moved(now)), n, Tick(t), p);
      CascadeRefills(xs[..|xs| - 1], now, p);
    } else {
      assert Nodes(xs) == [];
    }
  }

  /** Every other list keeps what it had. */
  lemma {:induction false} CascadeKeeps(xs: seq<Timeout>, now: nat, p: Place)
    requires Cascading(xs, now) && !Lower(p, Moved(now).level)
    ensures (if p == Moved(now) then [] else Select(Nodes(xs), now % WRAP, p)) == Select(Nodes(xs), Tick(now % WRAP), p)
    decreases |xs|
  {
    hide PlaceOf, MoveAt, Tick, InRange, NoneDue, Lower;
    if xs != [] {
      CascadeLast(xs, now);
      SelectLast(xs, now % WRAP, p);
      SelectLast(xs, Tick(now % WRAP), p);
      CascadeKeeps(xs[..|xs| - 1], now, p);
    }
  }

  /** A cascade leaves every list with exactly what belongs there, in order. */
  lemma CascadeSelects(xs: seq<Timeout>, now: nat, p: Place)
    requires Cascading(xs, now)
    ensures (if p == Moved(now) then [] else Select(Nodes(xs), now % WRAP, p))
            + Select(Select(Nodes(xs), now % WRAP, Moved(now)), Tick(now % WRAP), p)
            == Select(Nodes(xs), Tick(now % WRAP), p)
  {
    hide PlaceOf, MoveAt, Tick, Select, Nodes, InRange, NoneDue;
    CascadeRefills(xs, now, p);
    if Lower(p, Moved(now).level) { RefilledWereEmpty(xs, now, p); } else { CascadeKeeps(xs, now, p); }
  }

  /** The list at the current slot is exactly what a plain list would fire. */
  lemma {:induction false} SlotIsDue(xs: seq<Timeout>, now: nat)
    requires InRange(xs, now)
    ensures Select(Nodes(xs), now % WRAP, Near(now % WRAP % TIME_NEAR)) == Nodes(Due(xs, now))
    decreases |xs|
  {
    hide PlaceOf, MoveAt, Tick, Ahead, Lower;
    if xs != [] {
      var x := xs[|xs| - 1];
      SlotIsDue(xs[..|xs| - 1], now);
      DueIsCurrentSlot(x.deadline % WRAP, now % WRAP);
      AheadOfDeadline(x.deadline, now);
      NodesSnoc(Due(xs[..|xs| - 1], now), x);
    }
  }

  /** Firing empties the current slot and nothing else. */
  lemma {:induction false} FiredSelects(xs: seq<Timeout>, now: nat, p: Place)
    requires InRange(xs, now)
    ensures Select(Nodes(NotDue(xs, now)), now % WRAP, p)
            == if p == Near(now % WRAP % TIME_NEAR) then [] else Select(Nodes(xs), now % WRAP, p)
    decreases |xs|
  {
    hide PlaceOf, MoveAt, Tick, Ahead, Lower;
    if xs != [] {
      var x, rest := xs[|xs| - 1], NotDue(xs[..|xs| - 1], now);
      FiredSelects(xs[..|xs| - 1], now, p);
      DueIsCurrentSlot(x.deadline % WRAP, now % WRAP);
      AheadOfDeadline(x.deadline, now);
      NodesSnoc(rest, x);
      SelectSnoc(Nodes(rest), NodeOf(x), now % WRAP, p);
    }
  }

  lemma NoneDueSnoc(xs: seq<Timeout>, x: Timeout, now: nat)
    ensures NoneDue(xs + [x], now) <==> NoneDue(xs, now) && x.deadline != now
  {
    if NoneDue(xs + [x], now) {
      forall k | 0 <= k < |xs| ensures xs[k].deadline != now { assert (xs + [x])[k] == xs[k]; }
      assert (xs + [x])[|xs|] == x;
    }
  }

  lemma {:induction false} NotDueMeans(xs: seq<Timeout>, now: nat)
    requires InRange(xs, now)
    ensures InRange(NotDue(xs, now), now) && NoneDue(NotDue(xs, now), now)
    ensures NoneDue(xs, now) <==> Due(xs, now) == []
    ensures NoneDue(xs, now) ==> NotDue(xs, now) == xs
    decreases |xs|
  {
    if xs != [] {
      NotDueMeans(xs[..|xs| - 1], now);
      var rest, x := xs[..|xs| - 1], xs[|xs| - 1];
      assert xs == rest + [x];
      NoneDueSnoc(rest, x, now);
      NoneDueSnoc(NotDue(rest, now), x, now);
    }
  }

  class Timer {
    var near: array<seq<Node>>
    var t: array2<seq<Node>>
    var time: nat

    /** The timeouts the wheel holds, as the specification sees them. */
    ghost var plain: Plain

    ghost predicate Valid()
      reads this, near, t
    {
      && near.Length == TIME_NEAR && t.Length0 == 4 && t.Length1 == TIME_LEVEL
      && time == plain.now % WRAP
      && InRange(plain.pending, plain.now)
      && Placed(Nodes(plain.pending))
    }

    /** Every list holds exactly the nodes that belong there now, in the order of their requests. */
    ghost predicate Placed(ns: seq<Node>)
      requires near.Length == TIME_NEAR && t.Length0 == 4 && t.Length1 == TIME_LEVEL
      reads this, near, t
    {
      && (forall k :: 0 <= k < TIME_NEAR ==> near[k] == Select(ns, time, Near(k)))
      && (forall i, k :: 0 <= i < 4 && 0 <= k < TIME_LEVEL ==> t[i, k] == Select(ns, time, Level(i, k)))
    }

    ghost function ListAt(p: Place): seq<Node>
      requires near.Length == TIME_NEAR && t.Length0 == 4 && t.Length1 == TIME_LEVEL
      requires if p.Near? then p.slot < TIME_NEAR else p.level < 4 && p.idx < TIME_LEVEL
      reads this, near, t
    {
      if p.Near? then near[p.slot] else t[p.level, p.idx]
    }

    constructor ()
      ensures Valid() && fresh(near) && fresh(t)
      ensures plain == Plain(0, [], 0)
    {
      near := new seq<Node>[TIME_NEAR](_ => []);
      t := new seq<Node>[4, TIME_LEVEL]((_, _) => []);
      time := 0;
      plain := Plain(0, [], 0);
    }

    /** add_node: append the node to the list it belongs in. */
    method AddNode(node: Node)
      requires near.Length == TIME_NEAR && t.Length0 == 4 && t.Length1 == TIME_LEVEL
      modifies near, t
      ensures forall k :: 0 <= k < TIME_NEAR ==>
                near[k] == AddIf(old(near[k]), node, time, Near(k))
      ensures forall i, k :: 0 <= i < 4 && 0 <= k < TIME_LEVEL ==>
                t[i, k] == AddIf(old(t[i, k]), node, time, Level(i, k))
    {
      hide PlaceOf;
      NearPlace(node.expire, time);
      if node.expire / TIME_NEAR == time / TIME_NEAR {
        var slot := node.expire % TIME_NEAR;
        near[slot] := near[slot] + [node];
      } else {
        var i, mask := 0, TIME_NEAR * TIME_LEVEL;
        while i < 3 && node.expire / mask != time / mask
          invariant i <= 3 && (i < 3 ==> mask == Span(i + 1))
          invariant i > 0 ==> node.expire / 0x4000 != time / 0x4000
          invariant i > 1 ==> node.expire / 0x10_0000 != time / 0x10_0000
          invariant i > 2 ==> node.expire / 0x400_0000 != time / 0x400_0000
        {
          mask := mask * TIME_LEVEL;
          i := i + 1;
        }
        FoundLevel(node.expire, time, i);
        var idx := node.expire / Span(i) % TIME_LEVEL;
        t[i, idx] := t[i, idx] + [node];
      }
    }

    /** timer_add, under the lock.  The delay is what skynet_timeout passes on: a positive `int`. */
    method TimerAdd(event: Event, delay: nat)
      requires Valid() && 1 <= delay <= MAX_DELAY
      modifies this`plain, near, t
      ensures Valid()
      ensures plain == old(Plain(plain.now, plain.pending + [Timeout(plain.now + delay, plain.added, event)], plain.added + 1))
    {
      hide PlaceOf;
      var node := Node((delay + time) % WRAP, event);
      ghost var x := Timeout(plain.now + delay, plain.added, event);
      assert node == NodeOf(x);
      NodesSnoc(plain.pending, x);
      forall p ensures Select(Nodes(plain.pending + [x]), time, p) == AddIf(Select(Nodes(plain.pending), time, p), node, time, p) {
        SelectSnoc(Nodes(plain.pending), node, time, p);
      }
      AddNode(node);
      plain := Plain(plain.now, plain.pending + [x], plain.added + 1);
    }

    /** move_list: take a list apart and add its nodes again, at the current clock. */
    method MoveList(level: nat, idx: nat)
      requires near.Length == TIME_NEAR && t.Length0 == 4 && t.Length1 == TIME_LEVEL && level < 4 && idx < TIME_LEVEL
      modifies near, t
      ensures var ns := old(t[level, idx]);
              && (forall k :: 0 <= k < TIME_NEAR ==> near[k] == Plus(old(near[k]), ns, time, Near(k)))
              && (forall i, k :: 0 <= i < 4 && 0 <= k < TIME_LEVEL ==>
                    t[i, k] == Plus(if i == level && k == idx then [] else old(t[i, k]), ns, time, Level(i, k)))
    {
      hide PlaceOf, Plus, Select, AddIf;
      var current := t[level, idx];
      t[level, idx] := [];
      var n := 0;
      forall a, p ensures Plus(a, current[..0], time, p) == a { PlusNone(a, current, time, p); }
      while n < |current|
        invariant n <= |current|
        invariant forall k :: 0 <= k < TIME_NEAR ==> near[k] == Plus(old(near[k]), current[..n], time, Near(k))
        invariant forall i, k :: 0 <= i < 4 && 0 <= k < TIME_LEVEL ==>
                    t[i, k] == Plus(if i == level && k == idx then [] else old(t[i, k]), current[..n], time, Level(i, k))
      {
        assert current[..n + 1] == current[..n] + [current[n]];
        forall a, p ensures Plus(a, current[..n + 1], time, p) == AddIf(Plus(a, current[..n], time, p), current[n], time, p) {
          PlusSnoc(a, current[..n], current[n], time, p);
        }
        AddNode(current[n]);
        n := n + 1;
      }
      assert current[..n] == current;
    }

    /** timer_shift: advance the clock and redistribute what has come nearer. */
    method TimerShift()
      requires Valid() && NoneDue(plain.pending, plain.now)
      modifies this`time, this`plain, near, t
      ensures Valid()
      ensures plain == old(Plain(plain.now + 1, plain.pending, plain.added))
    {
      hide PlaceOf, MoveAt, Nodes, Select, Rolled;
      ghost var xs, now, t0 := plain.pending, plain.now, time;
      TickOfNow(now);
      forall p ensures MoveAt(Tick(t0)).Stay? ==> Select(Nodes(xs), Tick(t0), p) == Select(Nodes(xs), t0, p) {
        if MoveAt(Tick(t0)).Stay? { StaySelects(xs, now, p); }
      }
      forall p ensures MoveAt(Tick(t0)).Cascade? ==>
          (if p == Moved(now) then [] else Select(Nodes(xs), t0, p)) + Select(Select(Nodes(xs), t0, Moved(now)), Tick(t0), p)
          == Select(Nodes(xs), Tick(t0), p) {
        if MoveAt(Tick(t0)).Cascade? { CascadeSelects(xs, now, p); }
      }
      time := (time + 1) % WRAP;
      if time == 0 {
        MoveAtWrap();
        MoveList(3, 0);
      } else {
        var i, mask, quotient := 0, TIME_NEAR, time / TIME_NEAR;
        MoveNone(time);
        while time % mask == 0
          invariant i <= 3 && mask == Span(i) && quotient == time / Span(i)
          invariant i > 0 || time % mask == 0 ==> Rolled(time, i)
          invariant i > 0 ==> time % mask == 0
          invariant time == Tick(t0) && unchanged(near) && unchanged(t) && unchanged(`near) && unchanged(`t) && unchanged(`plain)
          decreases 3 - i
        {
          var idx := quotient % TIME_LEVEL;
          ShiftLoop(time, i);
          if idx != 0 {
            MoveList(i, idx);
            break;
          }
          mask := mask * TIME_LEVEL;
          quotient := quotient / TIME_LEVEL;
          i := i + 1;
          RolledMeans(time, i);
        }
      }
      plain := Plain(now + 1, xs, plain.added);
    }

    /** One turn of timer_execute's loop, under the lock: take the list of the current slot. */
    method TakeDue() returns (events: seq<Event>)
      requires Valid()
      modifies this`plain, near
      ensures Valid()
      ensures plain == old(Plain(plain.now, NotDue(plain.pending, plain.now), plain.added))
      ensures events == Events(old(Due(plain.pending, plain.now)))
    {
      hide PlaceOf, Select, Nodes, Due, NotDue, EventsOf, Events, InRange, NoneDue;
      ghost var xs, now := plain.pending, plain.now;
      SlotIsDue(xs, now);
      NotDueMeans(xs, now);
      forall p ensures Select(Nodes(NotDue(xs, now)), time, p)
                       == if p == Near(time % TIME_NEAR) then [] else Select(Nodes(xs), time, p) {
        FiredSelects(xs, now, p);
      }
      var idx := time % TIME_NEAR;
      var current := near[idx];
      near[idx] := [];
      plain := Plain(now, NotDue(xs, now), plain.added);
      events := DispatchList(current);
      EventsAgree(Due(xs, now));
    }

    /** What timer_update does between taking the lock and giving it up: look for something to dispatch,
        and move the clock on once, when nothing is left to dispatch for the old one.  Other threads may
        call timer_add between two regions. */
    method UpdateRegion(phase: Phase) returns (events: seq<Event>, phase': Phase)
      requires Valid() && phase != Done
      modifies this`time, this`plain, near, t
      ensures Valid()
      ensures var (p, taken, next) := RegionStep(old(plain), phase);
              plain == p && events == Events(taken) && phase' == next
    {
      hide PlaceOf, Select, Nodes, Due, NotDue, InRange, NoneDue;
      NotDueMeans(plain.pending, plain.now);
      DueInSlot(plain.pending, plain.now);
      events, phase' := [], Done;
      if near[time % TIME_NEAR] != [] {
        events := TakeDue();
        phase' := phase;
        return;
      }
      if phase == Before {
        TimerShift();
        NotDueMeans(plain.pending, plain.now);
        DueInSlot(plain.pending, plain.now);
        if near[time % TIME_NEAR] != [] {
          events := TakeDue();
          phase' := After;
        }
      }
    }

    /** timer_update.  If something is due it gives up the lock once, to dispatch it; meanwhile other threads ask
        for `others`. */
    method TimerUpdate(others: seq<(Event, nat)>) returns (events: seq<Event>)
      requires Valid() && NoneDue(plain.pending, plain.now)
      requires forall i :: 0 <= i < |others| ==> 1 <= others[i].1 <= MAX_DELAY
      modifies this`time, this`plain, near, t
      ensures Valid() && NoneDue(plain.pending, plain.now)
      ensures plain == Updated(old(plain), others)
      ensures events == old(Events(Due(plain.pending, plain.now + 1)))
    {
      hide Valid, Due, NotDue, Events;
      ghost var p0 := plain;
      ghost var p1 := Plain(p0.now + 1, NotDue(p0.pending, p0.now + 1), p0.added);
      ValidRange();
      NotDueMeans(p0.pending, p0.now);
      NotDueMeans(p0.pending, p0.now + 1);
      events := [];
      var phase := Before;
      while phase != Done
        invariant Valid() && NoneDue(plain.pending, plain.now)
        invariant phase == Before ==> plain == p0 && events == []
        invariant phase != Before ==> events == Events(Due(p0.pending, p0.now + 1)) && plain == Updated(p0, others)
        decreases if phase == Before then 2 else if phase == After then 1 else 0
      {
        ValidRange();
        NotDueMeans(plain.pending, plain.now);
        NoEvents();
        var more, next := UpdateRegion(phase);
        events := events + more;
        if next == After {
          var i := 0;
          while i < |others|
            invariant i <= |others| && Valid() && NoneDue(plain.pending, plain.now) && plain == AddAll(p1, others[..i])
          {
            TimerAdd(others[i].0, others[i].1);
            assert others[..i + 1][..i] == others[..i];
            i := i + 1;
          }
          assert others[..i] == others;
        }
        phase := next;
      }
    }

    lemma ValidRange()
      requires Valid()
      ensures InRange(plain.pending, plain.now)
    {
    }
  }

  lemma NoEvents()
    ensures Events([]) == []
  {
  }

  /** The timeouts are requested one after the other. */
  function AddAll(p: Plain, others: seq<(Event, nat)>): Plain
  {
    if others == [] then p
    else
      var q, x := AddAll(p, others[..|others| - 1]), others[|others| - 1];
      Plain(q.now, q.pending + [Timeout(q.now + x.1, q.added, x.0)], q.added + 1)
  }

  /** One tick later, without what is due then; requests are made in between if something is. */
  function Updated(p: Plain, others: seq<(Event, nat)>): Plain
  {
    AddAll(Plain(p.now + 1, NotDue(p.pending, p.now + 1), p.added), if Due(p.pending, p.now + 1) == [] then [] else others)
  }

  /** Where a call of timer_update is: before or after the clock moves on, or over. */
  datatype Phase = Before | After | Done

  /** The same, on the specification: the new state, the timeouts that are taken, and where the call is then. */
  ghost function RegionStep(p: Plain, phase: Phase): (Plain, seq<Timeout>, Phase)
  {
    var due, next := Due(p.pending, p.now), Due(p.pending, p.now + 1);
    if due != [] then (p.(pending := NotDue(p.pending, p.now)), due, phase)
    else if phase != Before then (p, [], Done)
    else if next != [] then (Plain(p.now + 1, NotDue(p.pending, p.now + 1), p.added), next, After)
    else (p.(now := p.now + 1), [], Done)
  }

  lemma DueInSlot(xs: seq<Timeout>, now: nat)
    requires InRange(xs, now)
    ensures Select(Nodes(xs), now % WRAP, Near(now % WRAP % TIME_NEAR)) == [] <==> Due(xs, now) == []
  {
    hide Select;
    SlotIsDue(xs, now);
  }

  /** dispatch_list: push an event for every node of the list, which is no longer part of the wheel. */
  method DispatchList(current: seq<Node>) returns (events: seq<Event>)
    ensures events == EventsOf(current)
  {
    events := [];
    var k := 0;
    while k < |current|
      invariant k <= |current| && events == EventsOf(current[..k])
    {
      assert current[..k + 1][..k] == current[..k];
      events := events + [current[k].event];
      k := k + 1;
    }
    assert current[..k] == current;
  }

  function EventsOf(ns: seq<Node>): seq<Event>
  {
    if ns == [] then [] else EventsOf(ns[..|ns| - 1]) + [ns[|ns| - 1].event]
  }

  function Events(xs: seq<Timeout>): seq<Event>
  {
    if xs == [] then [] else Events(xs[..|xs| - 1]) + [xs[|xs| - 1].event]
  }

  lemma {:induction false} EventsAgree(xs: seq<Timeout>)
    ensures EventsOf(Nodes(xs)) == Events(xs)
    decreases |xs|
  {
    if xs != [] { EventsAgree(xs[..|xs| - 1]); }
  }
}
