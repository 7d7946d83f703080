/** skynet/3rd/lpeg/lpcode.c, finaltarget and peephole: chains of jumps, what the optimizer may do to
    each slot, and why the machine cannot tell the difference. */
module LpegPeephole {
  import opened LpegTree
  import opened LpegCode
  import opened LpegVm
  import opened LpegLayout

  /** From i, at most n jumps lead to an instruction that is not a jump. */
  ghost predicate EndsIn(code: Code, i: int, n: nat)
    decreases n
  {
    0 <= i < |code| && (!code[i].IJmp? || (n > 0 && EndsIn(code, i + code[i].off, n - 1)))
  }

  ghost predicate Ends(code: Code, i: int) { exists n: nat :: EndsIn(code, i, n) }

  /** Where the jumps from i finally lead. */
  ghost function Final(code: Code, i: int): int { FinalTarget(code, i, |code|) }

  ghost function HopsIn(code: Code, i: int, n: nat): nat
    decreases n
  {
    if n > 0 && 0 <= i < |code| && code[i].IJmp? then 1 + HopsIn(code, i + code[i].off, n - 1) else 0
  }

  /** How many jumps there are from i. */
  ghost function Hops(code: Code, i: int): nat { HopsIn(code, i, |code|) }

  ghost function Within(code: Code, n: nat): set<int>
  {
    set i | 0 <= i < |code| && EndsIn(code, i, n)
  }

  lemma {:induction false} EndsMore(code: Code, i: int, n: nat, m: nat)
    requires EndsIn(code, i, n) && n <= m
    ensures EndsIn(code, i, m)
    ensures FinalTarget(code, i, n) == FinalTarget(code, i, m)
    ensures HopsIn(code, i, n) == HopsIn(code, i, m)
    ensures 0 <= FinalTarget(code, i, n) < |code| && !code[FinalTarget(code, i, n)].IJmp?
    decreases n
  {
    if code[i].IJmp? { EndsMore(code, i + code[i].off, n - 1, m - 1); }
  }

  /** Once a further jump reaches nothing new, no further jump does. */
  lemma {:induction false} WithinStable(code: Code, n: nat, k: nat, i: int)
    requires Within(code, n + 1) <= Within(code, n)
    requires EndsIn(code, i, n + k)
    ensures EndsIn(code, i, n)
    decreases k
  {
    if k > 0 && code[i].IJmp? {
      WithinStable(code, n, k - 1, i + code[i].off);
      assert i in Within(code, n + 1);
    } else if !code[i].IJmp? {
      assert EndsIn(code, i, n);
    }
  }

  lemma {:induction false} WithinGrows(code: Code, n: nat)
    requires forall m: nat :: m < n ==> !(Within(code, m + 1) <= Within(code, m))
    ensures |Within(code, n)| >= n
    decreases n
  {
    if n > 0 {
      WithinGrows(code, n - 1);
      var a, b := Within(code, n - 1), Within(code, n);
      assert !(Within(code, (n - 1) + 1) <= Within(code, n - 1));
      var x :| x in b && x !in a;
      forall y | y in a ensures y in b { EndsMore(code, y, n - 1, n); }
      assert a + {x} <= b;
      SmallerSet(a + {x}, b);
    }
  }

  lemma SmallerSet(a: set<int>, b: set<int>)
    requires a <= b
    ensures |a| <= |b|
  {
    assert b == a + (b - a);
  }

  lemma {:induction false} SmallRange(a: set<int>, n: nat)
    requires forall x :: x in a ==> 0 <= x < n
    ensures |a| <= n
    decreases n
  {
    if n > 0 {
      SmallRange(a - {n - 1}, n - 1);
      SmallerSet(a, (a - {n - 1}) + {n - 1});
    } else {
      assert forall x :: x !in a;
      assert a == {};
    }
  }

  /** A chain of jumps that comes to an end does so in no more jumps than there are slots, so that
      `Final` is the result of finaltarget's unbounded loop. */
  lemma HopsBounded(code: Code, i: int)
    requires Ends(code, i)
    ensures EndsIn(code, i, |code|)
  {
    var n: nat :| EndsIn(code, i, n);
    if n <= |code| {
      EndsMore(code, i, n, |code|);
    } else if exists m: nat :: m <= |code| && Within(code, m + 1) <= Within(code, m) {
      var m: nat :| m <= |code| && Within(code, m + 1) <= Within(code, m);
      WithinStable(code, m, n - m, i);
      EndsMore(code, i, m, |code|);
    } else {
      WithinGrows(code, |code| + 1);
      SmallRange(Within(code, |code| + 1), |code|);
      assert false;
    }
  }

  lemma FinalEnds(code: Code, i: int)
    requires Ends(code, i)
    ensures 0 <= i < |code| && 0 <= Final(code, i) < |code| && !code[Final(code, i)].IJmp?
  {
    HopsBounded(code, i);
    EndsMore(code, i, |code|, |code|);
  }

  lemma FinalStep(code: Code, i: int)
    requires Ends(code, i) && code[i].IJmp?
    ensures Ends(code, i + code[i].off)
    ensures Final(code, i) == Final(code, i + code[i].off)
    ensures Hops(code, i) == 1 + Hops(code, i + code[i].off)
  {
    HopsBounded(code, i);
    EndsMore(code, i + code[i].off, |code| - 1, |code|);
  }

  lemma EndsStep(code: Code, i: int)
    requires 0 <= i < |code| && (code[i].IJmp? ==> Ends(code, i + code[i].off))
    ensures Ends(code, i)
  {
    if code[i].IJmp? {
      var n: nat :| EndsIn(code, i + code[i].off, n);
      assert EndsIn(code, i, n + 1);
    } else {
      assert EndsIn(code, i, 0);
    }
  }

  // ---- What peephole may do ----

  /** Code that peephole works on: every chain ends, labels stay inside, and jumps have their pad. */
  ghost predicate Tidy(code: Code)
  {
    && (forall i :: 0 <= i < |code| ==> Ends(code, i))
    && (forall i :: 0 <= i < |code| && HasOffset(code[i]) ==> 0 <= i + code[i].off < |code|)
    && (forall i :: 0 <= i < |code| && code[i].IJmp? ==> i + 1 < |code| && code[i + 1].Pad?)
  }

  /** Instructions that never go on to the next slot, other than jumps. */
  predicate Leaps(i: Instr)
  {
    i.IRet? || i.IFail? || i.IFailTwice? || i.IEnd? || Commits(i)
  }

  predicate Commits(i: Instr) { i.ICommit? || i.IPartialCommit? || i.IBackCommit? }

  /** Instruction x at a and y at b do the same; their labels finally lead to the same place. */
  ghost predicate Twin(orig: Code, x: Instr, a: int, y: Instr, b: int)
  {
    if HasOffset(x) then
      HasOffset(y) && y == WithOffset(x, y.off) && Final(orig, a + x.off) == Final(orig, b + y.off)
    else y == x
  }

  ghost predicate SlotRel(orig: Code, i: int, ins: Instr)
    requires 0 <= i < |orig|
  {
    if orig[i].Pad? then ins.Pad? || ins.IAny?
    else if orig[i].IJmp? then
      || (&& ins.IJmp?
          && 0 <= i + ins.off < |orig|
          && Final(orig, i + ins.off) == Final(orig, i)
          && Hops(orig, i + ins.off) < Hops(orig, i))
      || Takes(orig, Final(orig, i), i, ins)
    else Twin(orig, orig[i], i, ins, i)
  }

  /** The slot has taken over the instruction that its jump finally leads to. */
  ghost predicate Takes(orig: Code, t: int, i: int, ins: Instr)
  {
    0 <= t < |orig| && Leaps(orig[t]) && Twin(orig, orig[t], t, ins, i)
  }

  ghost predicate PeepRel(orig: Code, code: Code)
  {
    |code| == |orig| && forall i :: 0 <= i < |orig| ==> SlotRel(orig, i, code[i])
  }

  lemma PeepRefl(orig: Code)
    requires Tidy(orig)
    ensures PeepRel(orig, orig)
  {
    forall i | 0 <= i < |orig| ensures SlotRel(orig, i, orig[i]) {
      if orig[i].IJmp? {
        assert Ends(orig, i);
        FinalStep(orig, i);
      }
    }
  }

  /** Chains in the code being optimized end where the original ones do, and get no longer. */
  lemma {:induction false} PeepEnds(orig: Code, code: Code, i: int)
    requires Tidy(orig) && PeepRel(orig, code) && 0 <= i < |orig|
    ensures Ends(code, i)
    ensures Final(orig, Final(code, i)) == Final(orig, i)
    ensures Hops(orig, Final(code, i)) <= Hops(orig, i)
    ensures code[i].IJmp? ==> Hops(orig, Final(code, i)) < Hops(orig, i)
    decreases Hops(orig, i)
  {
    assert SlotRel(orig, i, code[i]);
    assert Ends(orig, i);
    if code[i].IJmp? {
      FinalEnds(orig, i);
      assert orig[i].IJmp?;
      PeepEnds(orig, code, i + code[i].off);
      EndsStep(code, i);
      FinalStep(code, i);
    } else {
      EndsStep(code, i);
    }
  }

  /** Labels of the code being optimized stay inside, and chains from them end. */
  lemma LabelInside(orig: Code, code: Code, i: int)
    requires Tidy(orig) && PeepRel(orig, code) && 0 <= i < |code| && HasOffset(code[i])
    ensures 0 <= i + code[i].off < |code| && Ends(code, i + code[i].off)
    ensures Final(orig, Final(code, i + code[i].off)) == Final(orig, i + code[i].off)
  {
    hide HopsIn;
    var ins := code[i];
    assert SlotRel(orig, i, ins);
    if !ins.IJmp? {
      var t := if orig[i].IJmp? then Final(orig, i) else i;
      assert Ends(orig, t + orig[t].off);
      FinalEnds(orig, t + orig[t].off);
    }
    PeepEnds(orig, code, i + ins.off);
  }

  /** A label may be moved to any place that finally leads where it led. */
  lemma Relabel(orig: Code, i: int, ins: Instr, x: int)
    requires 0 <= i < |orig| && SlotRel(orig, i, ins) && HasOffset(ins) && !ins.IJmp?
    requires Final(orig, x) == Final(orig, i + ins.off)
    ensures SlotRel(orig, i, WithOffset(ins, x - i))
  {
    hide FinalTarget, HopsIn;
  }

  /** A jump may be replaced by the instruction it finally leads to, if that one leaps. */
  lemma TakeOver(orig: Code, code: Code, i: int, x: int)
    requires Tidy(orig) && PeepRel(orig, code) && 0 <= i < |code| && code[i].IJmp?
    ensures Ends(code, i) && 0 <= Final(code, i) < |code|
    ensures var ft := Final(code, i);
            && (Leaps(code[ft]) && !Commits(code[ft]) ==> SlotRel(orig, i, code[ft]))
            && (Commits(code[ft]) && Final(orig, x) == Final(orig, ft + code[ft].off) ==>
                  SlotRel(orig, i, WithOffset(code[ft], x - i)))
  {
    hide FinalTarget, HopsIn;
    PeepEnds(orig, code, i);
    FinalEnds(code, i);
    var ft := Final(code, i);
    assert SlotRel(orig, i, code[i]) && SlotRel(orig, ft, code[ft]);
    assert Ends(orig, ft);
    if !orig[ft].IJmp? { assert Final(orig, ft) == ft by { FinalHere(orig, ft); } }
  }

  lemma FinalHere(code: Code, i: int)
    requires 0 <= i < |code| && !code[i].IJmp?
    ensures Final(code, i) == i
  {
  }

  /** A jump may be shortened. */
  lemma Shorten(orig: Code, code: Code, i: int)
    requires Tidy(orig) && PeepRel(orig, code) && 0 <= i < |code| && code[i].IJmp?
    ensures SlotRel(orig, i, IJmp(Final(code, i) - i))
  {
    hide FinalTarget, HopsIn;
    PeepEnds(orig, code, i);
    FinalEnds(code, i);
    assert SlotRel(orig, i, code[i]);
  }

  /** A slot may be changed within its relation to the original one. */
  lemma SlotChanged(orig: Code, code: Code, i: int, ins: Instr)
    requires PeepRel(orig, code) && 0 <= i < |code| && SlotRel(orig, i, ins)
    ensures PeepRel(orig, code[i := ins])
  {
    hide SlotRel;
  }

  // ---- The machine cannot tell the difference ----

  ghost predicate SamePlace(orig: Code, a: int, b: int) { Final(orig, a) == Final(orig, b) }

  ghost predicate EntryRel(orig: Code, x: Entry, y: Entry)
  {
    SamePlace(orig, x.pc, y.pc) && (x.Saved? <==> y.Saved?) && (x.Saved? ==> x.pos == y.pos)
  }

  ghost predicate StackRel(orig: Code, x: Stack, y: Stack)
    decreases x
  {
    match x
    case Bottom => y.Bottom?
    case Push(e, k) => y.Push? && EntryRel(orig, e, y.top) && StackRel(orig, k, y.rest)
  }

  /** Two machines, one running the original code and one the optimized code, in the same state. */
  ghost predicate ConfigRel(orig: Code, x: Config, y: Config)
  {
    if x.Run? then y.Run? && SamePlace(orig, x.pc, y.pc) && x.pos == y.pos && StackRel(orig, x.stack, y.stack)
    else y == x
  }

  lemma {:induction false} BacktrackRel(orig: Code, x: Stack, y: Stack)
    requires StackRel(orig, x, y)
    ensures ConfigRel(orig, Backtrack(x), Backtrack(y))
    decreases x
  {
    if x.Push? && x.top.Return? { BacktrackRel(orig, x.rest, y.rest); }
  }

  lemma ExecLabelled(orig: Code, s: Subject, x: Instr, a: int, k: Stack, y: Instr, b: int, l: Stack, i: nat)
    requires Twin(orig, x, a, y, b) && StackRel(orig, k, l) && i <= |s| && HasOffset(x)
    requires Leaps(x) || a == b
    ensures ConfigRel(orig, Exec(x, s, a, i, k), Exec(y, s, b, i, l))
  {
    hide FinalTarget, SpanEnd, Backtrack;
  }

  lemma ExecSame(orig: Code, s: Subject, x: Instr, a: int, k: Stack, b: int, l: Stack, i: nat)
    requires StackRel(orig, k, l) && i <= |s| && !HasOffset(x)
    requires Leaps(x) || a == b
    ensures ConfigRel(orig, Exec(x, s, a, i, k), Exec(x, s, b, i, l))
  {
    hide FinalTarget, SpanEnd, Backtrack;
    BacktrackRel(orig, k, l);
    if k.Push? { BacktrackRel(orig, k.rest, l.rest); }
  }

  /** Executing twin instructions in the same state gives the same state. */
  lemma ExecRel(orig: Code, s: Subject, x: Instr, a: int, k: Stack, y: Instr, b: int, l: Stack, i: nat)
    requires Twin(orig, x, a, y, b) && StackRel(orig, k, l) && i <= |s|
    requires Leaps(x) || a == b
    ensures ConfigRel(orig, Exec(x, s, a, i, k), Exec(y, s, b, i, l))
  {
    hide Exec, StackRel, ConfigRel;
    if HasOffset(x) {
      ExecLabelled(orig, s, x, a, k, y, b, l, i);
    } else {
      ExecSame(orig, s, x, a, k, b, l, i);
    }
  }

  /** The result of the original code is the result of the optimized code. */
  lemma {:induction false} PeepRuns(orig: Code, code: Code, s: Subject, x: Config, y: Config, n: nat)
    requires Tidy(orig) && PeepRel(orig, code) && ConfigRel(orig, x, y)
    requires Steps(orig, s, x, n).Ended? || Steps(orig, s, x, n).GaveUp?
    ensures Halts(code, s, y, Steps(orig, s, x, n))
    decreases n, if y.Run? then Hops(orig, y.pc) else 0
  {
    hide FinalTarget, HopsIn, Tidy, SlotRel, Takes, Twin, StackRel;
    var r := Steps(orig, s, x, n);
    if !x.Run? {
      StepsHalted(orig, s, x, n);
      assert Steps(code, s, y, 0) == r;
    } else if n == 0 {
      assert false;
    } else if !(0 <= x.pc < |orig|) || x.pos > |s| {
      PeepOutside(orig, code, s, x, y, n);
    } else if orig[x.pc].Pad? {
      StepsHalted(orig, s, Step(orig, s, x), n - 1);
      assert false;
    } else if orig[x.pc].IJmp? {
      JumpRuns(orig, x.pc);
      PeepRuns(orig, code, s, Step(orig, s, x), y, n - 1);
    } else {
      PeepInside(orig, code, x.pc, y.pc);
      if code[y.pc].IJmp? {
        PeepRuns(orig, code, s, x, Step(code, s, y), n);
        StepHalts(code, s, y, r);
      } else {
        ExecRel(orig, s, orig[x.pc], x.pc, x.stack, code[y.pc], y.pc, y.stack, x.pos);
        PeepRuns(orig, code, s, Step(orig, s, x), Step(code, s, y), n - 1);
        StepHalts(code, s, y, r);
      }
    }
  }

  lemma PeepOutside(orig: Code, code: Code, s: Subject, x: Config, y: Config, n: nat)
    requires Tidy(orig) && |code| == |orig| && ConfigRel(orig, x, y)
    requires x.Run? && (!(0 <= x.pc < |orig|) || x.pos > |s|) && n > 0
    requires Steps(orig, s, x, n).Ended? || Steps(orig, s, x, n).GaveUp?
    ensures Halts(code, s, y, Steps(orig, s, x, n))
  {
    StepsHalted(orig, s, Step(orig, s, x), n - 1);
    if 0 <= y.pc < |orig| {
      assert Ends(orig, y.pc);
      FinalEnds(orig, y.pc);
    }
    assert Steps(code, s, y, 1) == Step(code, s, y) by { assert Steps(code, s, Step(code, s, y), 0) == Step(code, s, y); }
  }

  /** Where the original code is at an instruction, the optimized code is at a shorter chain of
      jumps to it, or at a twin of it. */
  lemma PeepInside(orig: Code, code: Code, a: int, b: int)
    requires Tidy(orig) && PeepRel(orig, code)
    requires 0 <= a < |orig| && !orig[a].IJmp? && SamePlace(orig, a, b)
    ensures 0 <= b < |orig|
    ensures code[b].IJmp? ==> SamePlace(orig, a, b + code[b].off) && Hops(orig, b + code[b].off) < Hops(orig, b)
    ensures !code[b].IJmp? ==> orig[a].Pad? || (Twin(orig, orig[a], a, code[b], b) && (Leaps(orig[a]) || a == b))
  {
    assert Ends(orig, a);
    FinalEnds(orig, a);
    assert 0 <= b < |orig|;
    assert Ends(orig, b);
    FinalEnds(orig, b);
    assert SlotRel(orig, b, code[b]);
  }

  lemma StepHalts(code: Code, s: Subject, c: Config, r: Config)
    requires Halts(code, s, Step(code, s, c), r)
    ensures Halts(code, s, c, r)
  {
    JoinStep(code, s, c);
    JoinHalts(code, s, c, Step(code, s, c), r);
  }

  lemma JumpRuns(orig: Code, a: int)
    requires Tidy(orig) && 0 <= a < |orig| && orig[a].IJmp?
    ensures Final(orig, a) == Final(orig, a + orig[a].off)
  {
    assert Ends(orig, a);
    FinalStep(orig, a);
  }
}
