/** skynet/3rd/lpeg/lpvm.c, match: the opcode interpreter as a machine that takes one step at a
    time.  The source's assertions are kept: a machine that violates one is `Stuck`.  The stack is
    unbounded. */
module LpegVm {
  import opened LpegTree
  import opened LpegCode

  /** `Saved` is a backtrack entry; `Return` is a pending call (its subject position is NULL). */
  datatype Entry = Saved(pc: int, pos: nat) | Return(pc: int)
  datatype Stack = Bottom | Push(top: Entry, rest: Stack)

  datatype Config =
    | Run(pc: int, pos: nat, stack: Stack)
    | Ended(end: nat)
    | GaveUp
    | Stuck

  /** Where the instruction `giveup` stands. */
  const GIVEUP: int := -1

  function Start(i: nat): Config { Run(0, i, Push(Saved(GIVEUP, i), Bottom)) }

  /** The code at label `fail`: remove pending calls and resume at the last saved state. */
  function Backtrack(k: Stack): Config
  {
    match k
    case Bottom => Stuck
    case Push(Saved(pc, pos), rest) => Run(pc, pos, rest)
    case Push(Return(_), rest) => Backtrack(rest)
  }

  function SpanEnd(cs: Charset, s: Subject, i: nat): (j: nat)
    requires i <= |s|
    ensures i <= j <= |s|
    decreases |s| - i
  {
    if i < |s| && s[i] in cs then SpanEnd(cs, s, i + 1) else i
  }

  function Step(code: Code, s: Subject, c: Config): Config
  {
    if !c.Run? then c
    else if c.pc == GIVEUP then (if c.stack.Bottom? then GaveUp else Stuck)
    else if !(0 <= c.pc < |code|) || c.pos > |s| then Stuck
    else Exec(code[c.pc], s, c.pc, c.pos, c.stack)
  }

  /** One instruction, fetched at pc. */
  function Exec(ins: Instr, s: Subject, pc: int, i: nat, k: Stack): Config
    requires i <= |s|
  {
    match ins
    case IEnd => if k.Push? && k.rest.Bottom? then Ended(i) else Stuck
    case IRet => if k.Push? && k.top.Return? then Run(k.top.pc, i, k.rest) else Stuck
    case IAny => if i < |s| then Run(pc + 1, i + 1, k) else Backtrack(k)
    case IChar(c) => if i < |s| && s[i] == c then Run(pc + 1, i + 1, k) else Backtrack(k)
    case ISet(cs) => if i < |s| && s[i] in cs then Run(pc + CHARSETINSTSIZE, i + 1, k) else Backtrack(k)
    case ITestAny(off) => if i < |s| then Run(pc + 2, i, k) else Run(pc + off, i, k)
    case ITestChar(c, off) => if i < |s| && s[i] == c then Run(pc + 2, i, k) else Run(pc + off, i, k)
    case ITestSet(cs, off) =>
      if i < |s| && s[i] in cs then Run(pc + 1 + CHARSETINSTSIZE, i, k) else Run(pc + off, i, k)
    case ISpan(cs) => Run(pc + CHARSETINSTSIZE, SpanEnd(cs, s, i), k)
    case IBehind(n) => if n > i then Backtrack(k) else Run(pc + 1, i - n, k)
    case IJmp(off) => Run(pc + off, i, k)
    case IChoice(off) => Run(pc + 2, i, Push(Saved(pc + off, i), k))
    case ICall(off) => Run(pc + off, i, Push(Return(pc + 2), k))
    case ICommit(off) => if k.Push? && k.top.Saved? then Run(pc + off, i, k.rest) else Stuck
    case IPartialCommit(off) =>
      if k.Push? && k.top.Saved? then Run(pc + off, i, Push(Saved(k.top.pc, i), k.rest)) else Stuck
    case IBackCommit(off) => if k.Push? && k.top.Saved? then Run(pc + off, k.top.pos, k.rest) else Stuck
    case IFailTwice => if k.Push? then Backtrack(k.rest) else Stuck
    case IFail => Backtrack(k)
    case IOpenCall(_) => Stuck
    case Pad => Stuck
  }

  ghost function Steps(code: Code, s: Subject, c: Config, n: nat): Config
    decreases n
  {
    if n == 0 then c else Steps(code, s, Step(code, s, c), n - 1)
  }

  /** The machine started in c stops with result r. */
  ghost predicate Halts(code: Code, s: Subject, c: Config, r: Config)
  {
    !r.Run? && exists n: nat :: Steps(code, s, c, n) == r
  }

  /** Two configurations that come together: since the machine is deterministic, they have the same
      result. */
  ghost predicate Join(code: Code, s: Subject, a: Config, b: Config)
  {
    exists m: nat, n: nat :: Steps(code, s, a, m) == Steps(code, s, b, n)
  }

  lemma {:induction false} StepsAdd(code: Code, s: Subject, c: Config, m: nat, n: nat)
    ensures Steps(code, s, c, m + n) == Steps(code, s, Steps(code, s, c, m), n)
    decreases m
  {
    if m > 0 { StepsAdd(code, s, Step(code, s, c), m - 1, n); }
  }

  lemma {:induction false} StepsHalted(code: Code, s: Subject, c: Config, n: nat)
    requires !c.Run?
    ensures Steps(code, s, c, n) == c
  {
    if n > 0 { StepsHalted(code, s, c, n - 1); }
  }

  lemma JoinRefl(code: Code, s: Subject, a: Config)
    ensures Join(code, s, a, a)
  {
    assert Steps(code, s, a, 0) == Steps(code, s, a, 0);
  }

  lemma JoinSym(code: Code, s: Subject, a: Config, b: Config)
    requires Join(code, s, a, b)
    ensures Join(code, s, b, a)
  {
    var m: nat, n: nat :| Steps(code, s, a, m) == Steps(code, s, b, n);
    assert Steps(code, s, b, n) == Steps(code, s, a, m);
  }

  lemma JoinTrans(code: Code, s: Subject, a: Config, b: Config, c: Config)
    requires Join(code, s, a, b) && Join(code, s, b, c)
    ensures Join(code, s, a, c)
  {
    var m: nat, n: nat :| Steps(code, s, a, m) == Steps(code, s, b, n);
    var n': nat, k: nat :| Steps(code, s, b, n') == Steps(code, s, c, k);
    if n <= n' {
      StepsAdd(code, s, a, m, n' - n);
      StepsAdd(code, s, b, n, n' - n);
      assert Steps(code, s, a, m + (n' - n)) == Steps(code, s, c, k);
    } else {
      StepsAdd(code, s, c, k, n - n');
      StepsAdd(code, s, b, n', n - n');
      assert Steps(code, s, a, m) == Steps(code, s, c, k + (n - n'));
    }
  }

  /** A configuration joins the one a step later. */
  lemma JoinStep(code: Code, s: Subject, a: Config)
    ensures Join(code, s, a, Step(code, s, a))
  {
    var b := Step(code, s, a);
    assert Steps(code, s, a, 1) == Steps(code, s, b, 0) by {
      assert Steps(code, s, a, 1) == Steps(code, s, b, 0);
    }
  }

  /** Joining configurations have the same result. */
  lemma JoinHalts(code: Code, s: Subject, a: Config, b: Config, r: Config)
    requires Join(code, s, a, b) && Halts(code, s, b, r)
    ensures Halts(code, s, a, r)
  {
    var m: nat, n: nat :| Steps(code, s, a, m) == Steps(code, s, b, n);
    var k: nat :| Steps(code, s, b, k) == r;
    StepsAdd(code, s, b, k, n);
    StepsAdd(code, s, b, n, k);
    StepsHalted(code, s, r, n);
    StepsAdd(code, s, a, m, k);
    assert Steps(code, s, a, m + k) == r;
  }

  /** The result of a run is unique. */
  lemma HaltsUnique(code: Code, s: Subject, c: Config, r: Config, r': Config)
    requires Halts(code, s, c, r) && Halts(code, s, c, r')
    ensures r == r'
  {
    var m: nat :| Steps(code, s, c, m) == r;
    var n: nat :| Steps(code, s, c, n) == r';
    StepsAdd(code, s, c, m, n);
    StepsAdd(code, s, c, n, m);
    StepsHalted(code, s, r, n);
    StepsHalted(code, s, r', m);
  }
}
