/** The instructions of skynet/3rd/lpeg/lpvm.h, and the code that lpcode.c generates for a tree,
    as a function.  Code is a sequence of slots, laid out as in the source: an instruction with an
    offset takes two slots, a set takes nine and a tested set ten.  The operand of an instruction is
    kept in its first slot and the others are `Pad`.  Offsets are relative to the instruction. */
module LpegCode {
  import opened LpegTree
  import opened LpegAnalysis

  datatype Instr =
    | IAny
    | IChar(c: Byte)
    | ISet(cs: Charset)
    | ITestAny(off: int)
    | ITestChar(c: Byte, off: int)
    | ITestSet(cs: Charset, off: int)
    | ISpan(cs: Charset)
    | IBehind(n: nat)
    | IRet
    | IEnd
    | IChoice(off: int)
    | IJmp(off: int)
    | ICall(off: int)
    | IOpenCall(key: nat)
    | ICommit(off: int)
    | IPartialCommit(off: int)
    | IBackCommit(off: int)
    | IFailTwice
    | IFail
    | Pad

  type Code = seq<Instr>

  const CHARSETINSTSIZE: nat := 9

  /** lpcode.c, sizei. */
  function Size(i: Instr): (n: nat)
    ensures n >= 1
  {
    match i
    case ISet(_) => CHARSETINSTSIZE
    case ISpan(_) => CHARSETINSTSIZE
    case ITestSet(_, _) => CHARSETINSTSIZE + 1
    case ITestChar(_, _) => 2
    case ITestAny(_) => 2
    case IChoice(_) => 2
    case IJmp(_) => 2
    case ICall(_) => 2
    case IOpenCall(_) => 2
    case ICommit(_) => 2
    case IPartialCommit(_) => 2
    case IBackCommit(_) => 2
    case _ => 1
  }

  predicate HasOffset(i: Instr)
  {
    i.ITestAny? || i.ITestChar? || i.ITestSet? || i.IChoice? || i.IJmp? || i.ICall? || i.ICommit?
    || i.IPartialCommit? || i.IBackCommit?
  }

  /** lpcode.c, setoffset: the same instruction with another offset. */
  function WithOffset(i: Instr, off: int): (r: Instr)
    requires HasOffset(i)
    ensures HasOffset(r) && r.off == off && Size(r) == Size(i)
  {
    match i
    case ITestAny(_) => ITestAny(off)
    case ITestChar(c, _) => ITestChar(c, off)
    case ITestSet(cs, _) => ITestSet(cs, off)
    case IChoice(_) => IChoice(off)
    case IJmp(_) => IJmp(off)
    case ICall(_) => ICall(off)
    case ICommit(_) => ICommit(off)
    case IPartialCommit(_) => IPartialCommit(off)
    case IBackCommit(_) => IBackCommit(off)
  }

  function Pads(n: nat): (r: Code)
    ensures |r| == n && forall x :: 0 <= x < n ==> r[x] == Pad
  {
    seq(n, _ => Pad)
  }

  /** An instruction with the slots it occupies. */
  function Ins(i: Instr): (r: Code)
    ensures |r| == Size(i) && r[0] == i && forall x :: 1 <= x < |r| ==> r[x] == Pad
  {
    [i] + Pads(Size(i) - 1)
  }

  /** lpcode.c, charsettype. */
  datatype CharsetClass = Empty | Single(c: Byte) | Full | Generic

  function Classify(cs: Charset): CharsetClass
  {
    if cs == {} then Empty
    else if cs == FullSet then Full
    else if exists c :: c in cs && cs == {c} then
      var c :| c in cs && cs == {c};
      Single(c)
    else Generic
  }

  /** A previous test that protects the code being generated: the instruction at `tt`. */
  type Guard = Option<Instr>

  /** lpcode.c, codechar. */
  function CodeChar(c: Byte, tt: Guard): Code
  {
    if tt.Some? && tt.value.ITestChar? && tt.value.c == c then [IAny] else [IChar(c)]
  }

  /** lpcode.c, codecharset. */
  function CodeSet(cs: Charset, tt: Guard): Code
  {
    match Classify(cs)
    case Single(c) => CodeChar(c, tt)
    case Generic =>
      if tt.Some? && tt.value.ITestSet? && tt.value.cs == cs then [IAny] else Ins(ISet(cs))
    case Empty => [IFail]
    case Full => [IAny]
  }

  /** The instruction that codetestset chooses, its offset still open. */
  function TestIns(cs: Charset): (r: Instr)
    ensures HasOffset(r)
  {
    match Classify(cs)
    case Empty => IJmp(0)
    case Full => ITestAny(0)
    case Single(c) => ITestChar(c, 0)
    case Generic => ITestSet(cs, 0)
  }

  /** lpcode.c, codetestset, with its offset set to `off`; no test when `e`. */
  function TestCode(f: Firsts, off: int): Code
  {
    if f.e then [] else Ins(WithOffset(TestIns(f.cs), off))
  }

  function TestLen(f: Firsts): nat
  {
    if f.e then 0 else Size(TestIns(f.cs))
  }

  function TestGuard(f: Firsts): Guard
  {
    if f.e then None else Some(TestIns(f.cs))
  }

  /** The condition under which codechoice uses a test alone. */
  predicate TestedChoice(p1: Tree, p2: Tree, g: Grammar, fl: Charset)
  {
    HeadFail(p1, g)
    || (!GetFirst(p1, g, FullSet).e && GetFirst(p1, g, FullSet).cs !! GetFirst(p2, g, fl).cs)
  }

  /** The condition under which coderep uses a test alone. */
  predicate TestedRep(p: Tree, g: Grammar, fl: Charset)
  {
    HeadFail(p, g) || (!GetFirst(p, g, FullSet).e && GetFirst(p, g, FullSet).cs !! fl)
  }

  /** lpcode.c, codegen and its helpers. */
  ghost function Gen(t: Tree, g: Grammar, opt: bool, tt: Guard, fl: Charset): Code
    decreases t, 1
  {
    match t
    case TChar(c) => CodeChar(c, tt)
    case TAny => [IAny]
    case TSet(cs) => CodeSet(cs, tt)
    case TTrue => []
    case TFalse => [IFail]
    case TChoice(p1, p2) => GenChoice(p1, p2, g, opt, fl)
    case TRep(p) => GenRep(p, g, opt, fl)
    case TBehind(n, p) => (if n > 0 then [IBehind(n)] else []) + Gen(p, [], false, None, FullSet)
    case TNot(p) => GenNot(p, g)
    case TAnd(p) => GenAnd(p, g, tt)
    case TCall(k, _) => Ins(IOpenCall(k))
    case TGrammar(rs) => CorrectCalls(RawGrammar(rs), Positions(rs, rs, 4), 4)
    case TSeq(p1, p2) =>
      Gen(p1, g, false, tt, SeqFollow(p1, p2, g, fl)) + Gen(p2, g, opt, SeqGuard(p1, g, tt), fl)
  }

  /** lpcode.c, codeseq1: what follows the first pattern, and what protects the second. */
  function SeqFollow(p1: Tree, p2: Tree, g: Grammar, fl: Charset): Charset
  {
    if NeedFollow(p1) then GetFirst(p2, g, fl).cs else FullSet
  }

  function SeqGuard(p1: Tree, g: Grammar, tt: Guard): Guard
  {
    if Len(p1, g) != 0 then None else tt
  }

  ghost function GenChoice(p1: Tree, p2: Tree, g: Grammar, opt: bool, fl: Charset): Code
    decreases TChoice(p1, p2), 0
  {
    var f1 := GetFirst(p1, g, FullSet);
    if TestedChoice(p1, p2, g, fl) then
      // The test alone decides between the alternatives: no state needs to be saved.
      var f := Firsts(f1.cs, false);
      var c1 := Gen(p1, g, false, TestGuard(f), fl);
      var c2 := Gen(p2, g, opt, None, fl);
      var jmp := if p2.TTrue? then [] else Ins(IJmp(2 + |c2|));
      TestCode(f, TestLen(f) + |c1| + |jmp|) + c1 + jmp + c2
    else if opt && p2.TTrue? then
      // The option around it has saved a state; it is brought up to date.
      Ins(IPartialCommit(2)) + Gen(p1, g, true, None, FullSet)
    else
      // A state is saved for the second alternative, unless the test goes there at once.
      var c1 := Gen(p1, g, p2.TTrue?, TestGuard(f1), FullSet);
      var c2 := Gen(p2, g, opt, None, fl);
      TestCode(f1, TestLen(f1) + 2 + |c1| + 2) + Ins(IChoice(2 + |c1| + 2)) + c1
      + Ins(ICommit(2 + |c2|)) + c2
  }

  ghost function GenRep(p: Tree, g: Grammar, opt: bool, fl: Charset): Code
    decreases p, 2
  {
    match ToCharset(p)
    case Some(cs) => Ins(ISpan(cs))
    case None =>
      var f1 := GetFirst(p, g, FullSet);
      if TestedRep(p, g, fl) then
        // Every round starts with the test, which leaves the loop.
        var f := Firsts(f1.cs, false);
        var c := Gen(p, g, false, TestGuard(f), FullSet);
        TestCode(f, TestLen(f) + |c| + 2) + c + Ins(IJmp(-(TestLen(f) + |c|)))
      else
        // A saved state, the option's if there is one, leaves the loop; every round brings it up to date.
        var c := Gen(p, g, false, None, FullSet);
        TestCode(f1, TestLen(f1) + 2 + |c| + 2)
        + Ins(if opt then IPartialCommit(2) else IChoice(2 + |c| + 2)) + c
        + Ins(IPartialCommit(-|c|))
  }

  ghost function GenNot(p: Tree, g: Grammar): Code
    decreases p, 2
  {
    var f := GetFirst(p, g, FullSet);
    if HeadFail(p, g) then
      // Passing the test is enough to fail.
      TestCode(f, TestLen(f) + 1) + [IFail]
    else
      // When the body matches, the saved state is dropped before failing.
      var c := Gen(p, g, false, None, FullSet);
      TestCode(f, TestLen(f) + 2 + |c| + 1) + Ins(IChoice(2 + |c| + 1)) + c + [IFailTwice]
  }

  ghost function GenAnd(p: Tree, g: Grammar, tt: Guard): Code
    decreases p, 2
  {
    var n := Len(p, g);
    var c := Gen(p, g, false, tt, FullSet);
    if 0 <= n <= MAXBEHIND then
      c + (if n > 0 then [IBehind(n)] else [])
    else
      // Either way the subject position is taken from the saved state.
      Ins(IChoice(2 + |c| + 2)) + c + Ins(IBackCommit(3)) + [IFail]
  }

  /** The code of one rule. */
  ghost function GenRule(r: Rule, g: Grammar): Code
    decreases r, 2
  {
    Gen(r.body, g, false, None, FullSet)
  }

  ghost function RulesCode(rs: Grammar, g: Grammar): Code
    decreases rs, 3
  {
    if rs == [] then [] else GenRule(rs[0], g) + [IRet] + RulesCode(rs[1..], g)
  }

  /** Where each rule starts, when the first starts at `at`. */
  ghost function Positions(rs: Grammar, g: Grammar, at: nat): (r: seq<nat>)
    ensures |r| == |rs|
    decreases rs, 3
  {
    if rs == [] then [] else [at] + Positions(rs[1..], g, at + |GenRule(rs[0], g)| + 1)
  }

  /** lpcode.c, codegrammar before its calls are corrected: a call of the first rule and a jump over the
      rules, each of which ends in a return. */
  ghost function RawGrammar(rs: Grammar): Code
    decreases rs, 4
  {
    var r := RulesCode(rs, rs);
    Ins(ICall(4)) + Ins(IJmp(2 + |r|)) + r
  }

  /** lpcode.c, finaltarget: where a chain of at most n jumps leads. */
  function FinalTarget(code: Code, i: int, n: nat): int
    decreases n
  {
    if n > 0 && 0 <= i < |code| && code[i].IJmp? then FinalTarget(code, i + code[i].off, n - 1) else i
  }

  predicate RetAt(code: Code, i: int)
  {
    0 <= i < |code| && code[i].IRet?
  }

  /** lpcode.c, correctcalls, from position i on: open calls become calls, or jumps when a return
      follows. */
  function CorrectCalls(code: Code, positions: seq<nat>, i: nat): (r: Code)
    ensures |r| == |code|
    decreases |code| - i
  {
    if i >= |code| then code
    else if code[i].IOpenCall? && code[i].key < |positions| then
      var off := positions[code[i].key] - i;
      var tail := RetAt(code, FinalTarget(code, i + 2, |code|));
      CorrectCalls(code[i := if tail then IJmp(off) else ICall(off)], positions, i + 2)
    else CorrectCalls(code, positions, i + Size(code[i]))
  }
}
