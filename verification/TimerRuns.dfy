/** Whole runs of skynet/skynet-src/skynet_timer.c: any number of threads ask for timeouts while one
    thread keeps the clock going. */
module TimerRuns {
  import opened TimerPlace
  import opened TimerWheel

  /** A request, the call of timer_update, or one lock region of that call. */
  datatype Op = Request(event: Event, delay: nat) | Update | Region

  /** `at` is the clock when the timeout was dispatched. */
  datatype Firing = Firing(at: nat, timeout: Timeout)

  /** `calls` counts the calls of timer_update, which one thread makes, one after the other. */
  datatype State = State(plain: Plain, phase: Phase, calls: nat, requests: seq<Timeout>, log: seq<Firing>)

  ghost const START := State(Plain(0, [], 0), Done, 0, [], [])

  ghost predicate Allowed(op: Op) { op.Request? ==> 1 <= op.delay <= MAX_DELAY }

  ghost function Firings(xs: seq<Timeout>, now: nat): (r: seq<Firing>)
    ensures |r| == |xs| && forall k :: 0 <= k < |xs| ==> r[k] == Firing(now, xs[k])
  {
    seq(|xs|, k requires 0 <= k < |xs| => Firing(now, xs[k]))
  }

  /** What one region does; the wheel does the same (TimerAdd and UpdateRegion). */
  ghost function Step(st: State, op: Op): State
  {
    match op
    case Request(event, delay) =>
      var x := Timeout(st.plain.now + delay, st.plain.added, event);
      st.(plain := Plain(st.plain.now, st.plain.pending + [x], st.plain.added + 1), requests := st.requests + [x])
    case Update => if st.phase == Done then st.(phase := Phase.Before, calls := st.calls + 1) else st
    case Region =>
      if st.phase == Done then st
      else
        var (p, taken, phase) := RegionStep(st.plain, st.phase);
        st.(plain := p, phase := phase, log := st.log + Firings(taken, p.now))
  }

  ghost function Run(ops: seq<Op>): State
  {
    if ops == [] then START else Step(Run(ops[..|ops| - 1]), ops[|ops| - 1])
  }

  predicate Earlier(x: Timeout, y: Timeout)
  {
    x.deadline < y.deadline || (x.deadline == y.deadline && x.id < y.id)
  }

  ghost predicate Increasing(xs: seq<Timeout>)
  {
    forall i, j :: 0 <= i < j < |xs| ==> xs[i].id < xs[j].id
  }

  ghost predicate Requested(st: State, x: Timeout) { x.id < |st.requests| && st.requests[x.id] == x }

  ghost predicate Logged(st: State, id: nat) { exists k :: 0 <= k < |st.log| && st.log[k].timeout.id == id }

  ghost predicate Waiting(st: State, id: nat)
  {
    exists k :: 0 <= k < |st.plain.pending| && st.plain.pending[k].id == id
  }

  ghost predicate Inv(st: State)
  {
    var p := st.plain;
    && p.added == |st.requests|
    && (forall k :: 0 <= k < |st.requests| ==> st.requests[k].id == k)
    && Increasing(p.pending)
    && (forall k :: 0 <= k < |p.pending| ==> Requested(st, p.pending[k]) && p.now < p.pending[k].deadline <= p.now + MAX_DELAY)
    && (forall k :: 0 <= k < |st.log| ==> Exact(st, st.log[k]))
    && (forall i, j :: 0 <= i < j < |st.log| ==> Earlier(st.log[i].timeout, st.log[j].timeout))
    && (forall id: nat :: id < |st.requests| ==> Logged(st, id) || Waiting(st, id))
  }

  /** A firing is of a timeout that was requested, and happened when it was due. */
  ghost predicate Exact(st: State, f: Firing)
  {
    Requested(st, f.timeout) && f.at == f.timeout.deadline <= st.plain.now
  }

  lemma {:induction false} DueMember(xs: seq<Timeout>, now: nat, x: Timeout)
    ensures x in Due(xs, now) <==> x in xs && x.deadline == now
    ensures x in NotDue(xs, now) <==> x in xs && x.deadline != now
    decreases |xs|
  {
    if xs != [] {
      assert xs == xs[..|xs| - 1] + [xs[|xs| - 1]];
      DueMember(xs[..|xs| - 1], now, x);
    }
  }

  lemma {:induction false} DueIncreasing(xs: seq<Timeout>, now: nat)
    requires Increasing(xs)
    ensures Increasing(Due(xs, now)) && Increasing(NotDue(xs, now))
    decreases |xs|
  {
    if xs != [] {
      var init, x := xs[..|xs| - 1], xs[|xs| - 1];
      DueIncreasing(init, now);
      forall y: Timeout | y in Due(init, now) || y in NotDue(init, now) ensures y.id < x.id { DueMember(init, now, y); }
    }
  }

  lemma RequestKeeps(st: State, event: Event, delay: nat)
    requires Inv(st) && 1 <= delay <= MAX_DELAY
    ensures Inv(Step(st, Request(event, delay)))
  {
    var st' := Step(st, Request(event, delay));
    var n := |st.requests|;
    assert st'.plain.pending[|st.plain.pending|].id == n;
    forall id: nat | id < |st'.requests| ensures Logged(st', id) || Waiting(st', id) {
      if id < n && Waiting(st, id) {
        var k :| 0 <= k < |st.plain.pending| && st.plain.pending[k].id == id;
        assert st'.plain.pending[k].id == id;
      }
    }
  }

  /** Moving the clock on and firing what has become due. */
  lemma FireKeeps(st: State, now: nat, st': State)
    requires Inv(st) && st.plain.now <= now <= st.plain.now + 1
    requires st'.plain == Plain(now, NotDue(st.plain.pending, now), st.plain.added)
    requires st'.requests == st.requests && st'.log == st.log + Firings(Due(st.plain.pending, now), now)
    ensures Inv(st')
  {
    hide Due, NotDue;
    var xs := st.plain.pending;
    var due, rest := Due(xs, now), NotDue(xs, now);
    DueIncreasing(xs, now);
    forall k | 0 <= k < |rest| ensures Requested(st', rest[k]) && now < rest[k].deadline <= now + MAX_DELAY {
      DueMember(xs, now, rest[k]);
      assert rest[k] in xs;
    }
    forall k | 0 <= k < |due| ensures Requested(st', due[k]) && due[k].deadline == now {
      DueMember(xs, now, due[k]);
      assert due[k] in xs;
    }
    forall i, j | 0 <= i < j < |st'.log| ensures Earlier(st'.log[i].timeout, st'.log[j].timeout) {
      if i < |st.log| <= j {
        assert Exact(st, st.log[i]);
        assert st'.log[j].timeout in xs by { DueMember(xs, now, due[j - |st.log|]); }
      }
    }
    forall id: nat | id < |st'.requests| ensures Logged(st', id) || Waiting(st', id) {
      if Logged(st, id) {
        var k :| 0 <= k < |st.log| && st.log[k].timeout.id == id;
        assert st'.log[k].timeout.id == id;
      } else {
        var k :| 0 <= k < |xs| && xs[k].id == id;
        DueMember(xs, now, xs[k]);
        if xs[k].deadline == now {
          var m :| 0 <= m < |due| && due[m] == xs[k];
          assert st'.log[|st.log| + m].timeout.id == id;
        }
      }
    }
  }

  lemma RegionKeeps(st: State)
    requires Inv(st)
    ensures Inv(Step(st, Region))
  {
    hide Due, NotDue, Inv;
    var st', now := Step(st, Region), st.plain.now;
    if st.phase != Done {
      NothingDue(st, now);
      NotDueMeans(st.plain.pending, now);
      RangeOf(st);
      NoFirings(st.log, now);
      NoFirings(st.log, now + 1);
      if st'.plain.now == now {
        FireKeeps(st, now, st');
      } else {
        NotDueMeans(st.plain.pending, now + 1);
        FireKeeps(st, now + 1, st');
      }
    }
  }

  lemma NoFirings(log: seq<Firing>, now: nat)
    ensures log + Firings([], now) == log
  {
  }

  lemma CallKeeps(st: State)
    requires Inv(st)
    ensures Inv(Step(st, Update))
  {
    var st' := Step(st, Update);
    forall id: nat | id < |st.requests| ensures Logged(st', id) || Waiting(st', id) { assert Logged(st, id) || Waiting(st, id); }
    forall k | 0 <= k < |st.log| ensures Exact(st', st.log[k]) { assert Exact(st, st.log[k]); }
  }

  lemma NothingDue(st: State, now: nat)
    requires Inv(st) && now == st.plain.now
    ensures InRange(st.plain.pending, now) && NoneDue(st.plain.pending, now)
  {
  }

  lemma RangeOf(st: State)
    requires Inv(st)
    ensures InRange(st.plain.pending, st.plain.now + 1)
  {
  }

  lemma {:induction false} RunKeeps(ops: seq<Op>)
    requires forall k :: 0 <= k < |ops| ==> Allowed(ops[k])
    ensures Inv(Run(ops))
    decreases |ops|
  {
    hide Inv, Step;
    if ops == [] {
      StartInv();
    } else {
      RunKeeps(ops[..|ops| - 1]);
      assert Allowed(ops[|ops| - 1]);
      match ops[|ops| - 1] {
        case Request(event, delay) => RequestKeeps(Run(ops[..|ops| - 1]), event, delay);
        case Update => CallKeeps(Run(ops[..|ops| - 1]));
        case Region => RegionKeeps(Run(ops[..|ops| - 1]));
      }
    }
  }

  lemma StartInv()
    ensures Inv(START)
  {
  }

  /** The refinement theorem.  In every run, whatever the interleaving: the firings are exactly the
      requests whose deadline has been reached, each fired once and at its deadline, and two timeouts
      with the same deadline fire in the order in which they were requested. */
  lemma FiresExactly(ops: seq<Op>)
    requires forall k :: 0 <= k < |ops| ==> Allowed(ops[k])
    ensures var st := Run(ops);
            && (forall k :: 0 <= k < |st.log| ==> Exact(st, st.log[k]))
            && (forall i, j :: 0 <= i < j < |st.log| ==> Earlier(st.log[i].timeout, st.log[j].timeout))
            && (forall id: nat :: id < |st.requests| ==>
                  (Logged(st, id) <==> st.requests[id].deadline <= st.plain.now))
  {
    hide Run;
    RunKeeps(ops);
    var st := Run(ops);
    forall id: nat | id < |st.requests| ensures Logged(st, id) <==> st.requests[id].deadline <= st.plain.now {
      if Logged(st, id) {
        var k :| 0 <= k < |st.log| && st.log[k].timeout.id == id;
        assert Exact(st, st.log[k]);
      } else {
        var k :| 0 <= k < |st.plain.pending| && st.plain.pending[k].id == id;
        assert Requested(st, st.plain.pending[k]);
      }
    }
  }

  // ---- The clock ----

  /** The calls of timer_update that have returned. */
  function Completed(st: State): int { if st.phase == Done then st.calls else st.calls - 1 }

  /** The clock counts the calls of timer_update: every call moves it on by one, whatever is requested between
      its regions. */
  lemma {:induction false} ClockExact(ops: seq<Op>)
    requires forall k :: 0 <= k < |ops| ==> Allowed(ops[k])
    ensures var st := Run(ops); st.plain.now == Completed(st) + if st.phase == After then 1 else 0
    decreases |ops|
  {
    hide Due, NotDue, Inv;
    if ops != [] {
      var st := Run(ops[..|ops| - 1]);
      ClockExact(ops[..|ops| - 1]);
      RunKeeps(ops[..|ops| - 1]);
      NothingDue(st, st.plain.now);
      NotDueMeans(st.plain.pending, st.plain.now);
    }
  }

  /** A call takes at most two regions: the first moves the clock on. */
  lemma CallEnds(ops: seq<Op>)
    requires forall k :: 0 <= k < |ops| ==> Allowed(ops[k])
    ensures var st, st' := Run(ops), Step(Run(ops), Region);
            && (st.phase == Phase.Before ==> st'.phase != Phase.Before && st'.plain.now == st.plain.now + 1)
            && (st.phase == After ==> st'.phase == Done && st'.plain == st.plain)
  {
    hide Run, Due, NotDue, Inv;
    RunKeeps(ops);
    var st := Run(ops);
    NothingDue(st, st.plain.now);
    NotDueMeans(st.plain.pending, st.plain.now);
  }

  /** A timeout of delay d is dispatched exactly when d calls that had not moved the clock on before it was
      requested have done so; when as many calls have returned, it has been. */
  lemma FiresAfter(ops: seq<Op>, more: seq<Op>, event: Event, delay: nat)
    requires forall k :: 0 <= k < |ops| ==> Allowed(ops[k])
    requires forall k :: 0 <= k < |more| ==> Allowed(more[k])
    requires 1 <= delay <= MAX_DELAY
    ensures var st, st' := Run(ops), Run(ops + [Request(event, delay)] + more);
            var id, shifts := |st.requests|, Completed(st) + if st.phase == After then 1 else 0;
            && id < |st'.requests| && st'.requests[id].event == event
            && (Logged(st', id) <==> st'.plain.now >= shifts + delay)
            && (Completed(st') >= shifts + delay ==> Logged(st', id))
  {
    hide Run, Inv;
    var all := ops + [Request(event, delay)] + more;
    forall k | 0 <= k < |all| ensures Allowed(all[k]) {}
    ClockExact(ops);
    ClockExact(all);
    RunKeeps(ops);
    RequestStays(ops, more, event, delay);
    FiresExactly(all);
  }

  lemma {:induction false} RequestStays(ops: seq<Op>, more: seq<Op>, event: Event, delay: nat)
    requires Inv(Run(ops))
    ensures var st, st' := Run(ops), Run(ops + [Request(event, delay)] + more);
            |st.requests| < |st'.requests|
            && st'.requests[|st.requests|] == Timeout(st.plain.now + delay, st.plain.added, event)
    decreases |more|
  {
    hide Inv, RegionStep;
    var all := ops + [Request(event, delay)] + more;
    if more == [] {
      assert all[..|all| - 1] == ops;
    } else {
      RequestStays(ops, more[..|more| - 1], event, delay);
      assert all[..|all| - 1] == ops + [Request(event, delay)] + more[..|more| - 1];
    }
  }
}
