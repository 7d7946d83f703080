/** skynet/3rd/lpeg/lpvm.c, match, as it is written: one loop over the current instruction, the
    subject position and an explicit stack. */
module LpegMatch {
  import opened LpegTree
  import opened LpegAnalysis
  import opened LpegCode
  import opened LpegVm
  import opened LpegProgram
  import LpegCompile
  import LpegVerify

  /** The stack array, whose top is its last entry, as the machine's stack. */
  ghost function StackOf(stack: seq<Entry>): Stack
  {
    if stack == [] then Bottom else Push(stack[|stack| - 1], StackOf(stack[..|stack| - 1]))
  }

  lemma StackPush(stack: seq<Entry>, e: Entry)
    ensures StackOf(stack + [e]) == Push(e, StackOf(stack))
  {
    assert (stack + [e])[..|stack|] == stack;
  }

  /** A machine that will stop without violating an assertion violates none now. */
  lemma NextStep(code: Code, s: Subject, c: Config, n: nat, r: Config)
    requires c.Run? && !r.Run? && !r.Stuck? && Steps(code, s, c, n) == r
    ensures n > 0 && Step(code, s, c) != Stuck && Steps(code, s, Step(code, s, c), n - 1) == r
    ensures c.pc == GIVEUP ==> c.stack.Bottom?
    ensures c.pc != GIVEUP ==> 0 <= c.pc < |code| && c.pos <= |s|
  {
    if Step(code, s, c) == Stuck { StepsHalted(code, s, Stuck, n - 1); }
  }

  /** The code at label `fail`: pop pending calls, then the saved state to resume at. */
  method PopFailed(stack: seq<Entry>) returns (p: int, i: nat, rest: seq<Entry>)
    requires Backtrack(StackOf(stack)) != Stuck
    ensures Backtrack(StackOf(stack)) == Run(p, i, StackOf(rest))
  {
    p, i, rest := GIVEUP, 0, stack;
    var pending := true;
    while pending
      invariant pending ==> Backtrack(StackOf(rest)) == Backtrack(StackOf(stack))
      invariant !pending ==> Backtrack(StackOf(stack)) == Run(p, i, StackOf(rest))
      decreases pending, |rest|
    {
      var top := rest[|rest| - 1];
      rest := rest[..|rest| - 1];
      match top {
        case Saved(pc, pos) => p, i, pending := pc, pos, false;
        case Return(_) =>
      }
    }
  }

  /** ISpan's loop. */
  method Span(cs: Charset, s: Subject, start: nat) returns (i: nat)
    requires start <= |s|
    ensures i == SpanEnd(cs, s, start)
  {
    i := start;
    while i < |s| && s[i] in cs
      invariant start <= i <= |s| && SpanEnd(cs, s, i) == SpanEnd(cs, s, start)
    {
      i := i + 1;
    }
  }

  /** The body of the interpreter's loop, for an instruction that does not end the match. */
  method Execute(ins: Instr, s: Subject, p0: int, i0: nat, stack0: seq<Entry>)
    returns (p: int, i: nat, stack: seq<Entry>)
    requires i0 <= |s| && !ins.IEnd? && !Exec(ins, s, p0, i0, StackOf(stack0)).Stuck?
    ensures Run(p, i, StackOf(stack)) == Exec(ins, s, p0, i0, StackOf(stack0))
  {
    hide SpanEnd, Backtrack;
    p, i, stack := p0, i0, stack0;
    var failed := false;
    match ins {
      case IRet => p, stack := stack[|stack| - 1].pc, stack[..|stack| - 1];
      case IAny => if i < |s| { p, i := p + 1, i + 1; } else { failed := true; }
      case IChar(ch) => if i < |s| && s[i] == ch { p, i := p + 1, i + 1; } else { failed := true; }
      case ISet(cs) => if i < |s| && s[i] in cs { p, i := p + CHARSETINSTSIZE, i + 1; } else { failed := true; }
      case ITestAny(off) => if i < |s| { p := p + 2; } else { p := p + off; }
      case ITestChar(ch, off) => if i < |s| && s[i] == ch { p := p + 2; } else { p := p + off; }
      case ITestSet(cs, off) => if i < |s| && s[i] in cs { p := p + 1 + CHARSETINSTSIZE; } else { p := p + off; }
      case IBehind(m) => if m > i { failed := true; } else { p, i := p + 1, i - m; }
      case ISpan(cs) =>
        i := Span(cs, s, i);
        p := p + CHARSETINSTSIZE;
      case IJmp(off) => p := p + off;
      case IChoice(off) =>
        StackPush(stack, Saved(p + off, i));
        p, stack := p + 2, stack + [Saved(p + off, i)];
      case ICall(off) =>
        StackPush(stack, Return(p + 2));
        p, stack := p + off, stack + [Return(p + 2)];
      case ICommit(off) => p, stack := p + off, stack[..|stack| - 1];
      case IPartialCommit(off) =>
        StackPush(stack[..|stack| - 1], Saved(stack[|stack| - 1].pc, i));
        p, stack := p + off, stack[..|stack| - 1] + [Saved(stack[|stack| - 1].pc, i)];
      case IBackCommit(off) => p, i, stack := p + off, stack[|stack| - 1].pos, stack[..|stack| - 1];
      case IFailTwice => stack, failed := stack[..|stack| - 1], true;
      case IFail => failed := true;
    }
    if failed { p, i, stack := PopFailed(stack); }
  }

  /** The interpreter's loop computes the machine's result, when there is one. */
  method Match(code: Code, s: Subject, start: nat, ghost r: Config) returns (end: Option<nat>)
    requires start <= |s| && !r.Stuck? && Halts(code, s, Start(start), r)
    ensures r == if end.Some? then Ended(end.value) else GaveUp
  {
    hide Exec, Steps;
    var p, i, stack := 0, start, [Saved(GIVEUP, start)];
    ghost var n: nat :| Steps(code, s, Start(start), n) == r;
    while true
      invariant Steps(code, s, Run(p, i, StackOf(stack)), n) == r
      decreases n
    {
      NextStep(code, s, Run(p, i, StackOf(stack)), n, r);
      n := n - 1;
      if p == GIVEUP {
        StepsHalted(code, s, GaveUp, n);
        return None;
      }
      if code[p].IEnd? {
        EndStep(s, p, i, StackOf(stack));
        StepsHalted(code, s, Ended(i), n);
        return Some(i);
      }
      p, i, stack := Execute(code[p], s, p, i, stack);
    }
  }

  lemma EndStep(s: Subject, p: int, i: nat, k: Stack)
    requires i <= |s| && !Exec(IEnd, s, p, i, k).Stuck?
    ensures Exec(IEnd, s, p, i, k) == Ended(i)
  {
  }

  /** Compiling a sound pattern and matching it on a subject gives what the pattern means. */
  method MatchPattern(t: Tree, s: Subject, i: nat) returns (end: Option<nat>)
    requires WellFormed(t, []) && i <= |s|
    ensures Yields(t, [], s, i, if end.Some? then Outcome.Match(end.value) else Fail)
  {
    hide Halts, Yields, CheckLoops, Closed, Start;
    var code := LpegCompile.Compile(t);
    ghost var r := LpegVerify.Total(t, [], s, i);
    end := Match(code, s, i, Result(r));
    assert r.Match? || r.Fail? by { MeaningOf(t, s, i, r); }
  }
}
