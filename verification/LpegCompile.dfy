/** skynet/3rd/lpeg/lpcode.c's compiler as it is written: it appends instructions to a growing program
    and patches their offsets in place.  Every method is proved against the function of LpegCode that
    it implements; `Compile` is proved against the meaning of the pattern. */
module LpegCompile {
  import opened LpegTree
  import opened LpegAnalysis
  import opened LpegCode
  import opened LpegLayout
  import opened LpegCorrect
  import opened LpegPeephole
  import opened LpegProgram
  import opened LpegTailCalls

  const NOINST: int := -1

  /** `tt` is the position of the test `guard`, up to its offset, or NOINST. */
  ghost predicate GuardAt(code: Code, tt: int, guard: Guard)
  {
    match guard
    case None => tt < 0
    case Some(x) =>
      0 <= tt < |code| && HasOffset(x) && HasOffset(code[tt]) && WithOffset(code[tt], x.off) == x
  }

  /** Concatenation, kept apart from `+` so that proofs about a growing program need not look inside
      its pieces. */
  ghost function Append(a: Code, b: Code): (r: Code)
    ensures |r| == |a| + |b|
  {
    a + b
  }

  ghost function Append2(a: Code, b: Code, c: Code): Code { Append(Append(a, b), c) }

  ghost function Append3(a: Code, b: Code, c: Code, d: Code): Code { Append(Append2(a, b, c), d) }

  ghost function Append4(a: Code, b: Code, c: Code, d: Code, e: Code): Code { Append(Append3(a, b, c, d), e) }

  /** The program after one label is set. */
  function Labelled(code: Code, i: int, target: int): (r: Code)
    requires i < 0 || (i < |code| && HasOffset(code[i]))
    ensures |r| == |code|
  {
    if i < 0 then code else code[i := WithOffset(code[i], target - i)]
  }

  lemma {:induction false} PositionsShift(rs: Grammar, g: Grammar, at: nat, by': nat)
    ensures forall k :: 0 <= k < |rs| ==> Positions(rs, g, at + by')[k] == Positions(rs, g, at)[k] + by'
    decreases |rs|
  {
    if rs != [] { PositionsShift(rs[1..], g, at + |GenRule(rs[0], g)| + 1, by'); }
  }

  /** No label leads to a jump any more, and no jump to an instruction it could have become. */
  ghost predicate Tight(code: Code, i: int)
    requires 0 <= i < |code|
  {
    HasOffset(code[i]) ==>
      var t := i + code[i].off;
      0 <= t < |code| && !code[t].IJmp? && (code[i].IJmp? ==> !Leaps(code[t]))
  }

  /** What optimizing another slot may do to this one. */
  ghost predicate Kept(x: Instr, y: Instr)
  {
    y == x || (HasOffset(x) && HasOffset(y) && y == WithOffset(x, y.off)) || (x.Pad? && y.IAny?)
  }

  class CompileState {
    var code: Code

    constructor ()
      ensures code == []
    {
      code := [];
    }

    method AddInstruction(ins: Instr) returns (i: nat)
      modifies this
      ensures i == |old(code)| && code == Append(old(code), [ins])
    {
      i := |code|;
      code := code + [ins];
    }

    method AddOffsetInst(ins: Instr) returns (i: nat)
      modifies this
      ensures i == |old(code)| && code == Append(old(code), [ins, Pad])
      ensures Size(ins) == 2 ==> code == Append(old(code), Ins(ins))
    {
      i := AddInstruction(ins);
      var _ := AddInstruction(Pad);
    }

    /** Room for a charset; the set itself is kept in the instruction. */
    method AddCharset()
      modifies this
      ensures code == Append(old(code), Pads(CHARSETINSTSIZE - 1))
    {
      var i := 0;
      while i < CHARSETINSTSIZE - 1
        invariant i <= CHARSETINSTSIZE - 1 && code == old(code) + Pads(i)
      {
        var _ := AddInstruction(Pad);
        i := i + 1;
      }
    }

    method JumpToThere(instruction: int, target: int)
      requires instruction < 0 || (instruction < |code| && HasOffset(code[instruction]))
      modifies this
      ensures code == Labelled(old(code), instruction, target)
    {
      if instruction >= 0 {
        code := code[instruction := WithOffset(code[instruction], target - instruction)];
      }
    }

    method JumpToHere(instruction: int)
      requires instruction < 0 || (instruction < |code| && HasOffset(code[instruction]))
      modifies this
      ensures code == Labelled(old(code), instruction, |old(code)|)
    {
      JumpToThere(instruction, |code|);
    }

    method CodeChar(c: Byte, tt: int, ghost guard: Guard)
      requires GuardAt(code, tt, guard)
      modifies this
      ensures code == Append(old(code), LpegCode.CodeChar(c, guard))
    {
      if tt >= 0 && code[tt].ITestChar? && code[tt].c == c {
        var _ := AddInstruction(IAny);
      } else {
        var _ := AddInstruction(IChar(c));
      }
    }

    method CodeCharset(cs: Charset, tt: int, ghost guard: Guard)
      requires GuardAt(code, tt, guard)
      modifies this
      ensures code == Append(old(code), CodeSet(cs, guard))
    {
      match Classify(cs) {
        case Single(c) => CodeChar(c, tt, guard);
        case Generic =>
          if tt >= 0 && code[tt].ITestSet? && code[tt].cs == cs {
            var _ := AddInstruction(IAny);
          } else {
            var _ := AddInstruction(ISet(cs));
            AddCharset();
            assert code == old(code) + ([ISet(cs)] + Pads(CHARSETINSTSIZE - 1));
          }
        case Empty => var _ := AddInstruction(IFail);
        case Full => var _ := AddInstruction(IAny);
      }
    }

    method CodeTestSet(cs: Charset, e: bool) returns (test: int)
      modifies this
      ensures code == Append(old(code), TestCode(Firsts(cs, e), 0))
      ensures test == if e then NOINST else |old(code)|
      ensures GuardAt(code, test, TestGuard(Firsts(cs, e)))
    {
      test := NOINST;
      if !e {
        match Classify(cs) {
          case Empty => test := AddOffsetInst(IJmp(0));
          case Full => test := AddOffsetInst(ITestAny(0));
          case Single(c) => test := AddOffsetInst(ITestChar(c, 0));
          case Generic =>
            test := AddOffsetInst(ITestSet(cs, 0));
            AddCharset();
        }
        assert code == old(code) + Ins(TestIns(cs));
      }
    }

    /** The loop ends because every chain of jumps does. */
    method FinalTarget(start: int) returns (i: nat)
      requires Ends(code, start)
      ensures i == Final(code, start) && i < |code| && !code[i].IJmp?
    {
      assert 0 <= start;
      i := start;
      while code[i].IJmp?
        invariant i < |code| && Ends(code, i) && Final(code, i) == Final(code, start)
        decreases Hops(code, i)
      {
        FinalStep(code, i);
        FinalEnds(code, i + code[i].off);
        i := i + code[i].off;
      }
    }

    method CodeGen(t: Tree, g: Grammar, opt: bool, tt: int, fl: Charset, ghost guard: Guard)
      requires Closed(t, g) && GuardAt(code, tt, guard)
      modifies this
      ensures code == Append(old(code), Gen(t, g, opt, guard, fl))
      decreases t, 3
    {
      hide GenChoice, GenRep, GenNot, GenAnd, LpegCode.CorrectCalls, RawGrammar, Positions, Closed, GetFirst, CheckAux;
      ClosedParts(t, g);
      match t {
        case TChar(c) => CodeChar(c, tt, guard);
        case TAny => var _ := AddInstruction(IAny);
        case TSet(cs) => CodeCharset(cs, tt, guard);
        case TTrue =>
        case TFalse => var _ := AddInstruction(IFail);
        case TChoice(p1, p2) => CodeChoice(p1, p2, g, opt, fl);
        case TRep(p) => CodeRep(p, g, opt, fl);
        case TBehind(n, p) => CodeBehind(n, p);
        case TNot(p) => CodeNot(p, g);
        case TAnd(p) => CodeAnd(p, g, tt, guard);
        case TGrammar(rs) => CodeGrammar(rs, g);
        case TCall(k, _) => var _ := AddOffsetInst(IOpenCall(k));
        case TSeq(p1, p2) =>
          ghost var base := code;
          var tt2 := CodeSeq1(p1, p2, g, tt, fl, guard);
          CodeGen(p2, g, opt, tt2, fl, SeqGuard(p1, g, guard));
          AppendAssoc(base, Gen(p1, g, false, guard, SeqFollow(p1, p2, g, fl)), Gen(p2, g, opt, SeqGuard(p1, g, guard), fl));
      }
    }

    /** Code the first pattern of a sequence; the result says what still protects the second. */
    method CodeSeq1(p1: Tree, p2: Tree, g: Grammar, tt: int, fl: Charset, ghost guard: Guard) returns (tt2: int)
      requires Closed(p1, g) && GuardAt(code, tt, guard)
      modifies this
      ensures code == Append(old(code), Gen(p1, g, false, guard, SeqFollow(p1, p2, g, fl)))
      ensures GuardAt(code, tt2, SeqGuard(p1, g, guard))
      decreases p1, 4
    {
      hide Gen, Closed, GetFirst;
      if NeedFollow(p1) {
        CodeGen(p1, g, false, tt, GetFirst(p2, g, fl).cs, guard);
      } else {
        CodeGen(p1, g, false, tt, FullSet, guard);
      }
      tt2 := if Len(p1, g) != 0 then NOINST else tt;
    }

    method CodeBehind(n: nat, p: Tree)
      requires Closed(p, [])
      modifies this
      ensures code == Append(old(code), (if n > 0 then [IBehind(n)] else []) + Gen(p, [], false, None, FullSet))
      decreases p, 4
    {
      hide Gen, Closed;
      if n > 0 { var _ := AddInstruction(IBehind(n)); }
      CodeGen(p, [], false, NOINST, FullSet, None);
    }

    method CodeChoice(p1: Tree, p2: Tree, g: Grammar, opt: bool, fl: Charset)
      requires Closed(p1, g) && Closed(p2, g)
      modifies this
      ensures code == Append(old(code), GenChoice(p1, p2, g, opt, fl))
      decreases TChoice(p1, p2), 2
    {
      hide Gen, Closed, Ins, Pads, TestCode, TestGuard, Labelled, GuardAt, GetFirst, HeadFail;
      var emptyp2 := p2.TTrue?;
      var f1 := GetFirst(p1, g, FullSet);
      if HeadFail(p1, g) || (!f1.e && f1.cs !! GetFirst(p2, g, fl).cs) {
        CodeTestedChoice(p1, p2, g, opt, fl, f1);
      } else if opt && emptyp2 {
        ghost var base := code;
        var i := AddOffsetInst(IPartialCommit(0));
        LabelledLast(base, IPartialCommit(0), |code|);
        JumpToHere(i);
        NoGuard(code);
        CodeGen(p1, g, true, NOINST, FullSet, None);
        AppendAssoc(base, Ins(IPartialCommit(2)), Gen(p1, g, true, None, FullSet));
      } else {
        CodePlainChoice(p1, p2, g, opt, fl, f1);
      }
    }

    method CodeTestedChoice(p1: Tree, p2: Tree, g: Grammar, opt: bool, fl: Charset, f1: Firsts)
      requires Closed(p1, g) && Closed(p2, g) && f1 == GetFirst(p1, g, FullSet) && TestedChoice(p1, p2, g, fl)
      modifies this
      ensures code == Append(old(code), GenChoice(p1, p2, g, opt, fl))
      decreases TChoice(p1, p2), 1
    {
      hide Append, Gen, GenChoice, Closed, Ins, Pads, TestCode, TestGuard, TestIns, TestLen, Labelled, GuardAt, First, HeadFail, TestedChoice;
      ghost var base, f := code, Firsts(f1.cs, false);
      ghost var c1, c2 := Gen(p1, g, false, TestGuard(f), fl), Gen(p2, g, opt, None, fl);
      var test := CodeTestSet(f1.cs, false);
      CodeGen(p1, g, false, test, fl, TestGuard(f));
      var jmp := NOINST;
      if !p2.TTrue? { jmp := AddOffsetInst(IJmp(0)); }
      if p2.TTrue? { TestLabelled(base, f, c1); } else { TestLabelled2(base, f, c1, Ins(IJmp(0))); }
      JumpToHere(test);
      NoGuard(code);
      CodeGen(p2, g, opt, NOINST, fl, None);
      TestedChoiceCode(p1, p2, g, opt, fl, base);
      if p2.TTrue? {
        Unlabelled(code, jmp);
      } else {
        LabelledEnd(Append2(base, TestCode(f, TestLen(f) + |c1| + 2), c1), IJmp(0), c2);
      }
      JumpToHere(jmp);
    }

    method CodePlainChoice(p1: Tree, p2: Tree, g: Grammar, opt: bool, fl: Charset, f1: Firsts)
      requires Closed(p1, g) && Closed(p2, g) && f1 == GetFirst(p1, g, FullSet)
      requires !TestedChoice(p1, p2, g, fl) && !(opt && p2.TTrue?)
      modifies this
      ensures code == Append(old(code), GenChoice(p1, p2, g, opt, fl))
      decreases TChoice(p1, p2), 1
    {
      hide Append, Gen, GenChoice, Closed, Ins, Pads, TestCode, TestGuard, TestIns, TestLen, Labelled, GuardAt, First, HeadFail, TestedChoice;
      ghost var base, c1 := code, Gen(p1, g, p2.TTrue?, TestGuard(f1), FullSet);
      ghost var t1, choice := TestCode(f1, TestLen(f1) + 2 + |c1| + 2), Ins(IChoice(2 + |c1| + 2));
      var pcommit := CodeFirst(p1, g, p2.TTrue?, f1);
      CodeElse(p2, g, opt, fl, pcommit, Append3(base, t1, choice, c1), ICommit(0));
      PlainChoiceCode(p1, p2, g, opt, fl, base);
    }

    /** The first alternative, under its test. */
    method CodeFirst(p1: Tree, g: Grammar, opt: bool, f1: Firsts) returns (pcommit: int)
      requires Closed(p1, g)
      modifies this
      ensures var c1 := Gen(p1, g, opt, TestGuard(f1), FullSet);
              var head := Append3(old(code), TestCode(f1, TestLen(f1) + 2 + |c1| + 2), Ins(IChoice(2 + |c1| + 2)), c1);
              code == Append(head, Ins(ICommit(0))) && pcommit == |head|
      decreases p1, 5
    {
      hide Append, Gen, Closed, Ins, TestCode, TestGuard, TestLen, Labelled, GuardAt;
      ghost var base, c1 := code, Gen(p1, g, opt, TestGuard(f1), FullSet);
      var test := CodeTestSet(f1.cs, f1.e);
      TestLabelled3(base, f1, Ins(IChoice(2 + |c1| + 2)), c1, Ins(ICommit(0)));
      pcommit := CodeSaved(p1, g, opt, test, ICommit(0), TestGuard(f1));
      JumpToHere(test);
    }

    /** A pattern on a choice of its own, and the instruction that takes the choice back. */
    method CodeSaved(p: Tree, g: Grammar, opt: bool, tt: int, back: Instr, ghost guard: Guard) returns (pback: int)
      requires Closed(p, g) && GuardAt(code, tt, guard) && (back == ICommit(0) || back == IBackCommit(0))
      modifies this
      ensures var c := Gen(p, g, opt, guard, FullSet);
              && code == Append3(old(code), Ins(IChoice(2 + |c| + 2)), c, Ins(back))
              && pback == |old(code)| + 2 + |c|
      decreases p, 4
    {
      hide Append, Gen, Closed, Ins, Labelled, GuardAt;
      GuardKept(code, Ins(IChoice(0)), tt, guard);
      var pchoice := AddOffsetInst(IChoice(0));
      CodeGen(p, g, opt, tt, FullSet, guard);
      pback := AddOffsetInst(back);
      LabelledAt2(old(code), IChoice(0), Gen(p, g, opt, guard, FullSet), Ins(back));
      JumpToHere(pchoice);
    }

    /** The second alternative, behind the instruction that jumps over it. */
    method CodeElse(p2: Tree, g: Grammar, opt: bool, fl: Charset, over: int, ghost head: Code, ghost x: Instr)
      requires Closed(p2, g) && HasOffset(x) && Size(x) == 2
      requires code == Append(head, Ins(x)) && over == |head|
      modifies this
      ensures code == Append2(head, Ins(WithOffset(x, 2 + |Gen(p2, g, opt, None, fl)|)), Gen(p2, g, opt, None, fl))
      decreases p2, 4
    {
      hide Append, Gen, Closed, Ins, Labelled, GuardAt;
      NoGuard(code);
      CodeGen(p2, g, opt, NOINST, fl, None);
      LabelledEnd(head, x, Gen(p2, g, opt, None, fl));
      JumpToHere(over);
    }

    method CodeRep(p: Tree, g: Grammar, opt: bool, fl: Charset)
      requires Closed(p, g)
      modifies this
      ensures code == Append(old(code), GenRep(p, g, opt, fl))
      decreases p, 6
    {
      hide Gen, Closed, Pads, TestCode, TestGuard, TestIns, Labelled, GuardAt, GetFirst, HeadFail;
      match ToCharset(p) {
        case Some(cs) =>
          var _ := AddInstruction(ISpan(cs));
          AddCharset();
          assert code == old(code) + ([ISpan(cs)] + Pads(CHARSETINSTSIZE - 1));
        case None =>
          var f1 := GetFirst(p, g, FullSet);
          if HeadFail(p, g) || (!f1.e && f1.cs !! fl) {
            CodeTestedRep(p, g, opt, fl, f1);
          } else {
            CodePlainRep(p, g, opt, fl, f1);
          }
      }
    }

    method CodeTestedRep(p: Tree, g: Grammar, opt: bool, fl: Charset, f1: Firsts)
      requires Closed(p, g) && ToCharset(p).None? && f1 == GetFirst(p, g, FullSet) && TestedRep(p, g, fl)
      modifies this
      ensures code == Append(old(code), GenRep(p, g, opt, fl))
      decreases p, 4
    {
      hide Append, Gen, GenRep, Closed, Ins, Pads, TestCode, TestGuard, TestIns, TestLen, Labelled, GuardAt, First, HeadFail, TestedRep, ToCharset;
      ghost var base, f := code, Firsts(f1.cs, false);
      ghost var c := Gen(p, g, false, TestGuard(f), FullSet);
      var test := CodeTestSet(f1.cs, false);
      CodeGen(p, g, false, test, FullSet, TestGuard(f));
      var jmp := AddOffsetInst(IJmp(0));
      TestLabelled2(base, f, c, Ins(IJmp(0)));
      JumpToHere(test);
      LabelledLast(Append2(base, TestCode(f, TestLen(f) + |c| + 2), c), IJmp(0), test);
      JumpToThere(jmp, test);
      TestedRepCode(p, g, opt, fl, base);
    }

    method CodePlainRep(p: Tree, g: Grammar, opt: bool, fl: Charset, f1: Firsts)
      requires Closed(p, g) && ToCharset(p).None? && f1 == GetFirst(p, g, FullSet) && !TestedRep(p, g, fl)
      modifies this
      ensures code == Append(old(code), GenRep(p, g, opt, fl))
      decreases p, 5
    {
      hide Append, Gen, GenRep, Closed, Ins, Pads, TestCode, TestGuard, TestIns, TestLen, Labelled, GuardAt, First, HeadFail, TestedRep, ToCharset;
      ghost var base, c, t0 := code, Gen(p, g, false, None, FullSet), TestCode(f1, 0);
      ghost var first, back := Ins(if opt then IPartialCommit(2) else IChoice(2 + |c| + 2)), Ins(IPartialCommit(-|c|));
      var test := CodeTestSet(f1.cs, f1.e);
      CodeLoop(p, g, opt);
      TestLabelled3(base, f1, first, c, back);
      JumpToHere(test);
      PlainRepCode(p, g, opt, fl, base);
    }

    /** The body of a loop, and the way back to its beginning. */
    method CodeLoopBody(p: Tree, g: Grammar)
      requires Closed(p, g)
      modifies this
      ensures var c := Gen(p, g, false, None, FullSet); code == Append2(old(code), c, Ins(IPartialCommit(-|c|)))
      decreases p, 4, 0
    {
      hide Append, Gen, Closed, Ins, Labelled, GuardAt;
      var l2 := |code|;
      NoGuard(code);
      CodeGen(p, g, false, NOINST, FullSet, None);
      ghost var front := code;
      var commit := AddOffsetInst(IPartialCommit(0));
      LabelledLast(front, IPartialCommit(0), l2);
      JumpToThere(commit, l2);
    }

    /** A loop and the instruction that enters it. */
    method CodeLoop(p: Tree, g: Grammar, opt: bool)
      requires Closed(p, g)
      modifies this
      ensures var c := Gen(p, g, false, None, FullSet);
              code == Append3(old(code), Ins(if opt then IPartialCommit(2) else IChoice(2 + |c| + 2)), c, Ins(IPartialCommit(-|c|)))
      decreases p, 4
    {
      hide Append, Gen, Closed, Ins, Labelled, GuardAt;
      ghost var c := Gen(p, g, false, None, FullSet);
      var pchoice := CodeLoopEntry(opt);
      CodeLoopBody(p, g);
      if opt { Unlabelled(code, pchoice); } else { LabelledAt2(old(code), IChoice(0), c, Ins(IPartialCommit(-|c|))); }
      JumpToHere(pchoice);
    }

    /** The instruction that enters a loop: it reuses the option's choice, or needs its own. */
    method CodeLoopEntry(opt: bool) returns (pchoice: int)
      modifies this
      ensures code == Append(old(code), Ins(if opt then IPartialCommit(2) else IChoice(0)))
      ensures pchoice == if opt then NOINST else |old(code)|
    {
      pchoice := NOINST;
      if opt {
        var i := AddOffsetInst(IPartialCommit(0));
        LabelledLast(old(code), IPartialCommit(0), |code|);
        JumpToHere(i);
      } else {
        pchoice := AddOffsetInst(IChoice(0));
      }
    }

    /** A pattern on a choice of its own, and the instruction that takes the choice back and fails. */
    method CodeRefusal(p: Tree, g: Grammar)
      requires Closed(p, g)
      modifies this
      ensures var c := Gen(p, g, false, None, FullSet);
              code == Append3(old(code), Ins(IChoice(2 + |c| + 1)), c, [IFailTwice])
      decreases p, 4
    {
      hide Append, Gen, Closed, Ins, Labelled, GuardAt;
      var pchoice := AddOffsetInst(IChoice(0));
      NoGuard(code);
      CodeGen(p, g, false, NOINST, FullSet, None);
      var _ := AddInstruction(IFailTwice);
      LabelledAt2(old(code), IChoice(0), Gen(p, g, false, None, FullSet), [IFailTwice]);
      JumpToHere(pchoice);
    }

    method CodeNot(p: Tree, g: Grammar)
      requires Closed(p, g)
      modifies this
      ensures code == Append(old(code), GenNot(p, g))
      decreases p, 5
    {
      hide Append, Gen, GenNot, Closed, Ins, Pads, TestCode, TestGuard, TestIns, TestLen, Labelled, GuardAt, First, HeadFail, ToCharset;
      ghost var base := code;
      var f := GetFirst(p, g, FullSet);
      var test := CodeTestSet(f.cs, f.e);
      if HeadFail(p, g) {
        var _ := AddInstruction(IFail);
        TestLabelled(base, f, [IFail]);
      } else {
        ghost var c := Gen(p, g, false, None, FullSet);
        CodeRefusal(p, g);
        TestLabelled3(base, f, Ins(IChoice(2 + |c| + 1)), c, [IFailTwice]);
      }
      JumpToHere(test);
      NotCode(p, g, base);
    }

    method CodeAnd(p: Tree, g: Grammar, tt: int, ghost guard: Guard)
      requires Closed(p, g) && GuardAt(code, tt, guard)
      modifies this
      ensures code == Append(old(code), GenAnd(p, g, guard))
      decreases p, 6
    {
      hide Append, Gen, GenAnd, Closed, Ins, Pads, Labelled, GuardAt, Len;
      ghost var base := code;
      var n := Len(p, g);
      if 0 <= n <= MAXBEHIND {
        CodeGen(p, g, false, tt, FullSet, guard);
        if n > 0 { var _ := AddInstruction(IBehind(n)); }
      } else {
        CodePlainAnd(p, g, tt, guard);
      }
      AndCode(p, g, guard, base);
    }

    /** A predicate that saves its position on the stack. */
    method CodePlainAnd(p: Tree, g: Grammar, tt: int, ghost guard: Guard)
      requires Closed(p, g) && GuardAt(code, tt, guard)
      modifies this
      ensures var c := Gen(p, g, false, guard, FullSet);
              code == Append4(old(code), Ins(IChoice(2 + |c| + 2)), c, Ins(IBackCommit(3)), [IFail])
      decreases p, 5
    {
      hide Append, Gen, Closed, Ins, Pads, Labelled, GuardAt;
      ghost var base, c := code, Gen(p, g, false, guard, FullSet);
      var pcommit := CodeSaved(p, g, false, tt, IBackCommit(0), guard);
      var _ := AddInstruction(IFail);
      LabelledEnd(Append2(base, Ins(IChoice(2 + |c| + 2)), c), IBackCommit(0), [IFail]);
      JumpToHere(pcommit);
    }

    method CodeGrammar(rs: Grammar, g: Grammar)
      requires Closed(TGrammar(rs), g)
      modifies this
      ensures code == Append(old(code), GrammarCode(rs))
      decreases rs, 5
    {
      hide Append, RawGrammar, Closed, GrammarCode, Positions;
      var start, positions := CodeOpenGrammar(rs, g);
      CorrectCalls(positions, start, |code|, old(code), rs, g);
    }

    /** The call of the first rule and the jump to the end, whose label is still open. */
    method CodeGrammarHead() returns (jumptoend: nat)
      modifies this
      ensures code == Append2(old(code), Ins(ICall(4)), Ins(IJmp(0))) && jumptoend == |old(code)| + 4 - 2
      ensures |code| == |old(code)| + 4
    {
      hide Append, Labelled;
      ghost var base := code;
      var firstcall := AddOffsetInst(ICall(0));
      jumptoend := AddOffsetInst(IJmp(0));
      LabelledAt(base, ICall(0), Ins(IJmp(0)), |code|);
      JumpToHere(firstcall);
    }

    /** The code of a grammar before its calls are corrected: where it starts, behind its head, and where the
        rules are. */
    method CodeOpenGrammar(rs: Grammar, g: Grammar) returns (start: nat, positions: seq<nat>)
      requires Closed(TGrammar(rs), g)
      modifies this
      ensures code == Append(old(code), RawGrammar(rs)) && start == |old(code)| + 4 && positions == Positions(rs, rs, start)
      decreases rs, 4
    {
      hide Append, Gen, GenRule, Closed, Labelled, LaidFrom, Ins, Pads, Positions;
      RulesOf(rs, g);
      ghost var base, rules := code, RulesCode(rs, rs);
      var jumptoend := CodeGrammarHead();
      start := |code|;
      positions := CodeRules(rs);
      LabelledEnd(Append(base, Ins(ICall(4))), IJmp(0), rules);
      JumpToHere(jumptoend);
      Append3Is(base, Ins(ICall(4)), Ins(IJmp(2 + |rules|)), rules);
      assert code == Append(base, RawGrammar(rs)) by { RawIs(rs); }
    }

    /** The rules of a grammar, one after the other, each closed off by a return. */
    method CodeRules(rs: Grammar) returns (positions: seq<nat>)
      requires forall k :: 0 <= k < |rs| ==> RuleClosed(rs[k], rs)
      modifies this
      ensures code == Append(old(code), RulesCode(rs, rs))
      ensures positions == Positions(rs, rs, |old(code)|)
      decreases rs, 3
    {
      hide Gen, GenRule, Closed, RuleClosed;
      positions := [];
      var k := 0;
      while k < |rs|
        invariant k <= |rs|
        invariant code + RulesCode(rs[k..], rs) == old(code) + RulesCode(rs, rs)
        invariant positions + Positions(rs[k..], rs, |code|) == Positions(rs, rs, |old(code)|)
      {
        ghost var before, rest := code, rs[k + 1..];
        assert rs[k..][0] == rs[k] && rs[k..][1..] == rest;
        positions := positions + [|code|];
        assert RuleClosed(rs[k], rs);
        CodeRule(rs[k], rs);
        var _ := AddInstruction(IRet);
        assert code == before + (GenRule(rs[k], rs) + [IRet]);
        assert code + RulesCode(rest, rs) == before + (GenRule(rs[k], rs) + [IRet] + RulesCode(rest, rs));
        k := k + 1;
      }
      assert rs[k..] == [];
    }

    method CodeRule(r: Rule, g: Grammar)
      requires RuleClosed(r, g)
      modifies this
      ensures code == Append(old(code), GenRule(r, g))
      decreases r, 3
    {
      CodeGen(r.body, g, false, NOINST, FullSet, None);
    }

    /** Open calls become calls of their rules, or jumps to them when a return follows. */
    method CorrectCalls(positions: seq<nat>, from: nat, to: nat, ghost base: Code, ghost rs: Grammar, ghost g: Grammar)
      requires Closed(TGrammar(rs), g) && code == Append(base, RawGrammar(rs))
      requires from == |base| + 4 && to == |code| && positions == Positions(rs, rs, from)
      modifies this
      ensures code == Append(base, GrammarCode(rs))
    {
      hide Closed, RawGrammar, GrammarCode, Positions, Correcting;
      ghost var mid := RawGrammar(rs);
      CorrectingStarts(rs, g);
      CorrectingMeans(rs, g, mid, 4);
      PositionsShift(rs, rs, 4, |base|);
      var i := from;
      while i < to
        invariant |code| == to && from <= i <= to
        invariant code == Append(base, mid) && Correcting(rs, g, mid, i - |base|)
      {
        ghost var at := i - |base|;
        CorrectingMeans(rs, g, mid, at);
        ghost var mid' := mid;
        if code[i].IOpenCall? {
          var rule := positions[code[i].key];
          CallFollowed(rs, g, mid, at);
          FinalShift(base, mid, at + 2);
          FinalEnds(mid, at + 2);
          var ft := FinalTarget(i + 2);
          ghost var off := Positions(rs, rs, 4)[mid[at].key] - at;
          mid' := mid[at := if RetAt(mid, Final(mid, at + 2)) then IJmp(off) else ICall(off)];
          code := code[i := if code[ft].IRet? then IJmp(0) else ICall(0)];
          JumpToThere(i, rule);
          assert code == Append(base, mid');
        }
        CorrectingStep(rs, g, mid, at, mid');
        i := i + Size(code[i]);
        mid := mid';
        CorrectingMeans(rs, g, mid, i - |base|);
      }
      CorrectingEnds(rs, g, mid);
    }

    method FinalLabel(i: nat, ghost orig: Code) returns (t: nat)
      requires Tidy(orig) && PeepRel(orig, code) && i < |code| && HasOffset(code[i])
      ensures t < |code| && !code[t].IJmp? && Final(orig, t) == Final(orig, i + code[i].off)
    {
      LabelInside(orig, code, i);
      t := FinalTarget(i + code[i].off);
    }

    /** A jump becomes the instruction it finally leads to, if that one leaps; `redo` asks for the label
        of that instruction to be optimized as well. */
    method PeepJump(i: nat, ghost orig: Code) returns (redo: bool)
      requires Tidy(orig) && PeepRel(orig, code) && i < |code| && orig[i].IJmp? && code[i].IJmp?
      modifies this
      ensures PeepRel(orig, code)
      ensures forall y :: 0 <= y < |code| && y != i && y != i + 1 ==> code[y] == old(code)[y]
      ensures i + 1 < |code| && code[i + 1] != old(code)[i + 1] ==> orig[i + 1].Pad? && code[i + 1].IAny?
      ensures Size(code[i]) == 2 || (Size(code[i]) == 1 && code[i + 1].IAny?)
      ensures if redo then !code[i].IJmp? else Tight(code, i)
    {
      hide LpegCode.FinalTarget, HopsIn, SlotRel, Tidy;
      redo := false;
      TakeOver(orig, code, i, 0);
      var ft := FinalTarget(i);
      var ins := code[ft];
      if Commits(ins) {
        var fft := FinalLabel(ft, orig);
        TakeOver(orig, code, i, fft);
        SlotChanged(orig, code, i, WithOffset(ins, fft - i));
        code := code[i := ins];
        JumpToThere(i, fft);
        redo := true;
      } else if Leaps(ins) {
        SlotMeans(orig, code, i);
        SlotChanged(orig, code, i, ins);
        code := code[i := ins];
        PadMayBeAny(orig, i + 1);
        SlotChanged(orig, code, i + 1, IAny);
        code := code[i + 1 := IAny];
      } else {
        Shorten(orig, code, i);
        SlotChanged(orig, code, i, IJmp(ft - i));
        JumpToThere(i, ft);
      }
    }

    /** The body of peephole's loop. */
    method PeepSlot(i: nat, ghost orig: Code)
      requires Tidy(orig) && PeepRel(orig, code) && i < |code| && (orig[i].IJmp? ==> code[i].IJmp?)
      modifies this
      ensures PeepRel(orig, code) && Tight(code, i)
      ensures forall y :: 0 <= y < |code| && y != i && y != i + 1 ==> code[y] == old(code)[y]
      ensures i + 1 < |code| && code[i + 1] != old(code)[i + 1] ==> orig[i].IJmp? && orig[i + 1].Pad? && code[i + 1].IAny?
      ensures !orig[i].IJmp? ==> Kept(old(code)[i], code[i])
      ensures orig[i].IJmp? ==> Size(code[i]) == 2 || (Size(code[i]) == 1 && code[i + 1].IAny?)
    {
      hide LpegCode.FinalTarget, HopsIn, SlotRel, Tidy;
      SlotMeans(orig, code, i);
      var redo := true;
      while redo
        invariant PeepRel(orig, code)
        invariant forall y :: 0 <= y < |code| && y != i && y != i + 1 ==> code[y] == old(code)[y]
        invariant i + 1 < |code| && code[i + 1] != old(code)[i + 1] ==> orig[i].IJmp? && orig[i + 1].Pad? && code[i + 1].IAny?
        invariant !orig[i].IJmp? ==> Kept(old(code)[i], code[i])
        invariant orig[i].IJmp? ==> Size(code[i]) == 2 || (Size(code[i]) == 1 && code[i + 1].IAny?)
        invariant !orig[i].IJmp? ==> !code[i].IJmp?
        invariant !redo ==> Tight(code, i)
        decreases redo, code[i].IJmp?
      {
        redo := false;
        if code[i].IJmp? {
          redo := PeepJump(i, orig);
        } else if HasOffset(code[i]) {
          var t := FinalLabel(i, orig);
          SlotMeans(orig, code, i);
          Relabel(orig, i, code[i], t);
          SlotChanged(orig, code, i, WithOffset(code[i], t - i));
          JumpToThere(i, t);
        }
      }
    }

    /** Every label becomes the one it finally leads to, and jumps to instructions that leap become those
        instructions. */
    method Peephole()
      requires Tidy(code) && LaidOut(code) && code != [] && code[|code| - 1] == IEnd
      modifies this
      ensures PeepRel(old(code), code)
      ensures forall i :: 0 <= i < |code| ==> Tight(code, i)
      ensures code != [] && code[|code| - 1] == IEnd
    {
      hide SlotRel, Tidy, Tight, Kept;
      ghost var orig := code;
      PeepRefl(orig);
      var i := 0;
      while i < |code|
        invariant i <= |code| && PeepRel(orig, code)
        invariant forall y :: 0 <= y < i ==> Tight(code, y)
        invariant forall y :: i < y < |code| ==> code[y] == orig[y]
        invariant AtBoundary(orig, code, i)
        decreases |code| - i
      {
        ghost var before := code;
        BoundaryMeans(orig, code, i);
        PeepSlot(i, orig);
        SlotDone(orig, before, code, i);
        i := i + Size(code[i]);
      }
      LastStays(orig, code);
    }
  }

  /** lpcode.c, compile: the code of a sound pattern implements it, and its labels are final. */
  method Compile(t: Tree) returns (code: Code)
    requires WellFormed(t, [])
    ensures Implements(code, t)
    ensures forall i :: 0 <= i < |code| ==> Tight(code, i)
    ensures code != [] && code[|code| - 1] == IEnd
  {
    hide Gen, CheckLoops, Closed, EnvOK, Implements, Tight, Tidy, PeepRel, LaidFrom, Append, EndsIn, FinalTarget;
    var compst := new CompileState();
    ClosedPattern(t);
    compst.CodeGen(t, [], false, NOINST, FullSet, None);
    var _ := compst.AddInstruction(IEnd);
    AppendAssoc([], Gen(t, [], false, None, FullSet), [IEnd]);
    AppendNothing(RawProgram(t));
    RawTidy(t);
    compst.Peephole();
    CompilerCorrect(t, compst.code);
    return compst.code;
  }

  lemma AppendNothing(a: Code)
    ensures Append([], a) == a
  {
  }

  lemma ClosedPattern(t: Tree)
    requires WellFormed(t, [])
    ensures Closed(t, [])
  {
  }

  /** peephole's loop is at the start of an instruction, or at what is left of a jump that has become
      a shorter instruction. */
  ghost predicate AtBoundary(orig: Code, code: Code, i: nat)
    requires |code| == |orig| && i <= |code|
  {
    if i == |code| then true
    else
      || (code[i] == orig[i] && LaidFrom(orig, i))
      || (code[i].IAny? && orig[i].Pad? && LaidFrom(orig, i + 1))
  }

  lemma BoundaryMeans(orig: Code, code: Code, i: nat)
    requires |code| == |orig| && i < |code| && AtBoundary(orig, code, i)
    ensures orig[i].IJmp? ==> code[i].IJmp?
  {
  }

  lemma SlotMeans(orig: Code, code: Code, i: nat)
    requires Tidy(orig) && PeepRel(orig, code) && i < |code|
    ensures SlotRel(orig, i, code[i])
    ensures !orig[i].IJmp? ==> !code[i].IJmp?
    ensures orig[i].IJmp? ==> i + 1 < |code| && orig[i + 1].Pad?
  {
  }

  lemma PadMayBeAny(orig: Code, i: nat)
    requires i < |orig| && orig[i].Pad?
    ensures SlotRel(orig, i, IAny)
  {
  }

  lemma LastStays(orig: Code, code: Code)
    requires PeepRel(orig, code) && orig != [] && orig[|orig| - 1] == IEnd
    ensures code[|code| - 1] == IEnd
  {
    assert SlotRel(orig, |orig| - 1, code[|orig| - 1]);
  }

  /** After one round, everything up to the next boundary is tight. */
  lemma SlotDone(orig: Code, before: Code, code: Code, i: nat)
    requires PeepRel(orig, before) && PeepRel(orig, code) && i < |code| && AtBoundary(orig, before, i)
    requires forall y :: 0 <= y < i ==> Tight(before, y)
    requires forall y :: i < y < |code| ==> before[y] == orig[y]
    requires Tight(code, i)
    requires forall y :: 0 <= y < |code| && y != i && y != i + 1 ==> code[y] == before[y]
    requires i + 1 < |code| && code[i + 1] != before[i + 1] ==> orig[i].IJmp? && orig[i + 1].Pad? && code[i + 1].IAny?
    requires !orig[i].IJmp? ==> Kept(before[i], code[i])
    requires orig[i].IJmp? ==> Size(code[i]) == 2 || (Size(code[i]) == 1 && code[i + 1].IAny?)
    ensures i + Size(code[i]) <= |code| && AtBoundary(orig, code, i + Size(code[i]))
    ensures forall y :: 0 <= y < i + Size(code[i]) ==> Tight(code, y)
    ensures forall y :: i + Size(code[i]) < y < |code| ==> code[y] == orig[y]
  {
    hide SlotRel;
    forall y | 0 <= y < i ensures Tight(code, y) { assert Tight(before, y); }
    forall y | i < y < i + Size(code[i]) && y < |code| ensures Tight(code, y) { assert !HasOffset(code[y]); }
  }

  lemma LabelledAt(pre: Code, x: Instr, post: Code, target: int)
    requires HasOffset(x)
    ensures Append2(pre, Ins(x), post)[|pre|] == x
    ensures Labelled(Append2(pre, Ins(x), post), |pre|, target) == Append2(pre, Ins(WithOffset(x, target - |pre|)), post)
  {
  }

  lemma LabelledAt2(pre: Code, x: Instr, a: Code, b: Code)
    requires HasOffset(x)
    ensures var code := Append3(pre, Ins(x), a, b);
            && code[|pre|] == x
            && Labelled(code, |pre|, |code|) == Append3(pre, Ins(WithOffset(x, Size(x) + |a| + |b|)), a, b)
  {
    LabelledAt(pre, x, a + b, |pre| + Size(x) + |a| + |b|);
    AppendAssoc(Append(pre, Ins(x)), a, b);
    AppendAssoc(Append(pre, Ins(WithOffset(x, Size(x) + |a| + |b|))), a, b);
  }

  lemma LabelledEnd(pre: Code, x: Instr, post: Code)
    requires HasOffset(x)
    ensures var code := Append2(pre, Ins(x), post);
            && code[|pre|] == x
            && Labelled(code, |pre|, |code|) == Append2(pre, Ins(WithOffset(x, Size(x) + |post|)), post)
  {
    hide Append, Labelled;
    LabelledAt(pre, x, post, |pre| + Size(x) + |post|);
  }

  lemma LabelledLast(pre: Code, x: Instr, target: int)
    requires HasOffset(x)
    ensures Append(pre, Ins(x))[|pre|] == x
    ensures Labelled(Append(pre, Ins(x)), |pre|, target) == Append(pre, Ins(WithOffset(x, target - |pre|)))
  {
  }

  lemma AppendAssoc(a: Code, b: Code, c: Code)
    ensures Append2(a, b, c) == Append(a, b + c)
  {
  }

  /** Setting the offset of a test, if there is one, to jump over everything behind it. */
  lemma TestLabelled(base: Code, f: Firsts, rest: Code)
    ensures var code, test, off := Append2(base, TestCode(f, 0), rest), if f.e then NOINST else |base|, TestLen(f) + |rest|;
            && |TestCode(f, 0)| == TestLen(f) && |TestCode(f, off)| == TestLen(f)
            && (!f.e ==> test < |code| && HasOffset(code[test]))
            && Labelled(code, test, |code|) == Append2(base, TestCode(f, off), rest)
  {
    if !f.e {
      var off := TestLen(f) + |rest|;
      TestIsIns(f, 0);
      TestIsIns(f, off);
      LabelledAt(base, WithOffset(TestIns(f.cs), 0), rest, |base| + off);
    }
  }

  lemma TestLabelled2(base: Code, f: Firsts, a: Code, b: Code)
    ensures var code, test, off := Append3(base, TestCode(f, 0), a, b), if f.e then NOINST else |base|, TestLen(f) + |a| + |b|;
            && |TestCode(f, 0)| == TestLen(f) && |TestCode(f, off)| == TestLen(f)
            && (!f.e ==> test < |code| && HasOffset(code[test]))
            && Labelled(code, test, |code|) == Append3(base, TestCode(f, off), a, b)
  {
    hide Append, TestCode, TestLen, Labelled;
    TestLabelled(base, f, a + b);
    AppendAssoc(Append(base, TestCode(f, 0)), a, b);
    AppendAssoc(Append(base, TestCode(f, TestLen(f) + |a| + |b|)), a, b);
  }

  lemma TestLabelled3(base: Code, f: Firsts, a: Code, b: Code, c: Code)
    ensures var code, test, off := Append4(base, TestCode(f, 0), a, b, c), if f.e then NOINST else |base|, TestLen(f) + |a| + |b| + |c|;
            && |TestCode(f, 0)| == TestLen(f) && |TestCode(f, off)| == TestLen(f)
            && (!f.e ==> test < |code| && HasOffset(code[test]))
            && Labelled(code, test, |code|) == Append4(base, TestCode(f, off), a, b, c)
  {
    hide Append, TestCode, TestLen, Labelled;
    TestLabelled2(base, f, a + b, c);
    AppendAssoc(Append(base, TestCode(f, 0)), a, b);
    AppendAssoc(Append(base, TestCode(f, TestLen(f) + |a| + |b| + |c|)), a, b);
  }

  // The code of each construct, in the order in which it is appended.

  lemma TestedChoiceCode(p1: Tree, p2: Tree, g: Grammar, opt: bool, fl: Charset, base: Code)
    requires TestedChoice(p1, p2, g, fl)
    ensures var f := Firsts(GetFirst(p1, g, FullSet).cs, false);
            var c1, c2 := Gen(p1, g, false, TestGuard(f), fl), Gen(p2, g, opt, None, fl);
            Append(base, GenChoice(p1, p2, g, opt, fl)) ==
            if p2.TTrue? then Append3(base, TestCode(f, TestLen(f) + |c1|), c1, c2)
            else Append4(base, TestCode(f, TestLen(f) + |c1| + 2), c1, Ins(IJmp(2 + |c2|)), c2)
  {
    hide Gen, TestedChoice, TestCode, TestLen, TestGuard, First;
    var f := Firsts(GetFirst(p1, g, FullSet).cs, false);
    var c1, c2 := Gen(p1, g, false, TestGuard(f), fl), Gen(p2, g, opt, None, fl);
    if p2.TTrue? {
      var t := TestCode(f, TestLen(f) + |c1| + 0);
      assert t + c1 + [] == t + c1;
      Append3Is(base, t, c1, c2);
    } else {
      Append4Is(base, TestCode(f, TestLen(f) + |c1| + 2), c1, Ins(IJmp(2 + |c2|)), c2);
    }
  }

  lemma PlainChoiceCode(p1: Tree, p2: Tree, g: Grammar, opt: bool, fl: Charset, base: Code)
    requires !TestedChoice(p1, p2, g, fl) && !(opt && p2.TTrue?)
    ensures var f1 := GetFirst(p1, g, FullSet);
            var c1, c2 := Gen(p1, g, p2.TTrue?, TestGuard(f1), FullSet), Gen(p2, g, opt, None, fl);
            Append(base, GenChoice(p1, p2, g, opt, fl)) ==
            Append(Append4(base, TestCode(f1, TestLen(f1) + 2 + |c1| + 2), Ins(IChoice(2 + |c1| + 2)), c1, Ins(ICommit(2 + |c2|))), c2)
  {
    hide Append, Gen, TestedChoice, Ins, TestCode, TestLen, TestGuard, First;
    var f1 := GetFirst(p1, g, FullSet);
    var c1, c2 := Gen(p1, g, p2.TTrue?, TestGuard(f1), FullSet), Gen(p2, g, opt, None, fl);
    var t, choice, commit := TestCode(f1, TestLen(f1) + 2 + |c1| + 2), Ins(IChoice(2 + |c1| + 2)), Ins(ICommit(2 + |c2|));
    Append4Is(base, t, choice, c1, commit);
    AppendAssoc(base, t + choice + c1 + commit, c2);
  }

  lemma TestedRepCode(p: Tree, g: Grammar, opt: bool, fl: Charset, base: Code)
    requires ToCharset(p).None? && TestedRep(p, g, fl)
    ensures var f := Firsts(GetFirst(p, g, FullSet).cs, false);
            var c := Gen(p, g, false, TestGuard(f), FullSet);
            Append(base, GenRep(p, g, opt, fl)) ==
            Append3(base, TestCode(f, TestLen(f) + |c| + 2), c, Ins(IJmp(-(TestLen(f) + |c|))))
  {
    hide Append, Gen, TestedRep, Ins, TestCode, TestLen, TestGuard, First, ToCharset;
    var f := Firsts(GetFirst(p, g, FullSet).cs, false);
    var c := Gen(p, g, false, TestGuard(f), FullSet);
    Append3Is(base, TestCode(f, TestLen(f) + |c| + 2), c, Ins(IJmp(-(TestLen(f) + |c|))));
  }

  lemma PlainRepCode(p: Tree, g: Grammar, opt: bool, fl: Charset, base: Code)
    requires ToCharset(p).None? && !TestedRep(p, g, fl)
    ensures var f1, c := GetFirst(p, g, FullSet), Gen(p, g, false, None, FullSet);
            Append(base, GenRep(p, g, opt, fl)) ==
            Append4(base, TestCode(f1, TestLen(f1) + 2 + |c| + 2), Ins(if opt then IPartialCommit(2) else IChoice(2 + |c| + 2)),
                    c, Ins(IPartialCommit(-|c|)))
  {
    hide Append, Gen, TestedRep, Ins, TestCode, TestLen, TestGuard, First, ToCharset;
    var f1, c := GetFirst(p, g, FullSet), Gen(p, g, false, None, FullSet);
    Append4Is(base, TestCode(f1, TestLen(f1) + 2 + |c| + 2), Ins(if opt then IPartialCommit(2) else IChoice(2 + |c| + 2)),
              c, Ins(IPartialCommit(-|c|)));
  }

  lemma NotCode(p: Tree, g: Grammar, base: Code)
    ensures var f, c := GetFirst(p, g, FullSet), Gen(p, g, false, None, FullSet);
            Append(base, GenNot(p, g)) ==
            if HeadFail(p, g) then Append2(base, TestCode(f, TestLen(f) + 1), [IFail])
            else Append4(base, TestCode(f, TestLen(f) + 2 + |c| + 1), Ins(IChoice(2 + |c| + 1)), c, [IFailTwice])
  {
    hide Append, Gen, HeadFail, Ins, TestCode, TestLen, First;
    var f, c := GetFirst(p, g, FullSet), Gen(p, g, false, None, FullSet);
    if HeadFail(p, g) {
      AppendAssoc(base, TestCode(f, TestLen(f) + 1), [IFail]);
    } else {
      Append4Is(base, TestCode(f, TestLen(f) + 2 + |c| + 1), Ins(IChoice(2 + |c| + 1)), c, [IFailTwice]);
    }
  }

  lemma AndCode(p: Tree, g: Grammar, tt: Guard, base: Code)
    ensures var n, c := Len(p, g), Gen(p, g, false, tt, FullSet);
            Append(base, GenAnd(p, g, tt)) ==
            if n == 0 then Append(base, c)
            else if 0 < n <= MAXBEHIND then Append2(base, c, [IBehind(n)])
            else Append4(base, Ins(IChoice(2 + |c| + 2)), c, Ins(IBackCommit(3)), [IFail])
  {
    hide Append, Gen, Ins, Len;
    var n, c := Len(p, g), Gen(p, g, false, tt, FullSet);
    if n == 0 {
      assert c + [] == c;
    } else if 0 < n <= MAXBEHIND {
      AppendAssoc(base, c, [IBehind(n)]);
    } else {
      Append4Is(base, Ins(IChoice(2 + |c| + 2)), c, Ins(IBackCommit(3)), [IFail]);
    }
  }

  lemma Append3Is(a: Code, b: Code, c: Code, d: Code)
    ensures Append3(a, b, c, d) == Append(a, b + c + d)
  {
    hide Append;
    AppendAssoc(a, b, c);
    AppendAssoc(a, b + c, d);
  }

  lemma Append4Is(a: Code, b: Code, c: Code, d: Code, e: Code)
    ensures Append4(a, b, c, d, e) == Append(a, b + c + d + e)
  {
    hide Append;
    Append3Is(a, b, c, d);
    AppendAssoc(a, b + c + d, e);
  }

  lemma RawIs(rs: Grammar)
    ensures RawGrammar(rs) == Ins(ICall(4)) + Ins(IJmp(2 + |RulesCode(rs, rs)|)) + RulesCode(rs, rs)
  {
    hide RulesCode, Ins;
  }

  lemma CorrectingMeans(rs: Grammar, g: Grammar, mid: Code, i: nat)
    requires Correcting(rs, g, mid, i)
    ensures 4 <= i <= |mid|
    ensures i < |mid| && mid[i].IOpenCall? ==> mid[i].key < |rs|
  {
  }

  lemma CorrectingEnds(rs: Grammar, g: Grammar, mid: Code)
    requires Correcting(rs, g, mid, |mid|)
    ensures mid == GrammarCode(rs)
  {
  }

  lemma GuardKept(a: Code, b: Code, tt: int, guard: Guard)
    requires GuardAt(a, tt, guard)
    ensures GuardAt(Append(a, b), tt, guard)
  {
  }

  lemma NoGuard(code: Code)
    ensures GuardAt(code, NOINST, None)
  {
  }

  lemma Unlabelled(code: Code, i: int)
    requires i < 0
    ensures Labelled(code, i, |code|) == code
  {
  }

  lemma TestIsIns(f: Firsts, off: int)
    requires !f.e
    ensures TestCode(f, off) == Ins(WithOffset(WithOffset(TestIns(f.cs), 0), off))
    ensures |TestCode(f, off)| == TestLen(f)
    ensures WithOffset(WithOffset(TestIns(f.cs), 0), off) == WithOffset(TestIns(f.cs), off)
  {
  }
}
