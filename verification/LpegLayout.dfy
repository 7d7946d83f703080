/** How generated code is laid out, and what lpcode.c's correctcalls does to the code of a grammar. */
module LpegLayout {
  import opened LpegTree
  import opened LpegAnalysis
  import opened LpegCode

  /** A chain of at most n jumps leads from i to a return. */
  ghost predicate JumpsToRet(code: Code, i: int, n: nat)
    decreases n
  {
    0 <= i < |code| && (code[i].IRet? || (n > 0 && code[i].IJmp? && JumpsToRet(code, i + code[i].off, n - 1)))
  }

  ghost predicate ReturnsFrom(code: Code, i: int) { exists n: nat :: JumpsToRet(code, i, n) }

  /** Slot y of the program holds `ins`, where an open call has become a call of the rule's position,
      or a jump to it if a return follows. */
  ghost predicate SlotOK(code: Code, pos: seq<nat>, y: int, ins: Instr)
  {
    && 0 <= y < |code|
    && (if !ins.IOpenCall? then code[y] == ins
        else
          && ins.key < |pos|
          && (|| code[y] == ICall(pos[ins.key] - y)
              || (code[y] == IJmp(pos[ins.key] - y) && ReturnsFrom(code, y + 2))))
  }

  ghost predicate Placed(code: Code, pos: seq<nat>, p: int, seg: Code)
  {
    forall k :: 0 <= k < |seg| ==> SlotOK(code, pos, p + k, seg[k])
  }

  /** From slot i on, instructions follow each other without gaps, each with its padding. */
  ghost predicate LaidFrom(seg: Code, i: nat)
    decreases |seg| - i
  {
    i == |seg|
    || (&& i < |seg|
        && !seg[i].Pad?
        && i + Size(seg[i]) <= |seg|
        && (forall k :: i < k < i + Size(seg[i]) ==> seg[k] == Pad)
        && LaidFrom(seg, i + Size(seg[i])))
  }

  ghost predicate LaidOut(seg: Code) { LaidFrom(seg, 0) }

  ghost predicate KeysBelow(seg: Code, n: nat)
  {
    forall k :: 0 <= k < |seg| && seg[k].IOpenCall? ==> seg[k].key < n
  }

  /** Open calls go to used rules of g. */
  ghost predicate CallsInto(seg: Code, g: Grammar)
  {
    forall k :: 0 <= k < |seg| && seg[k].IOpenCall? ==> seg[k].key < |g| && g[seg[k].key].used
  }

  lemma {:induction false} LaidShift(a: Code, b: Code, i: nat)
    requires LaidFrom(b, i)
    ensures LaidFrom(a + b, |a| + i)
    decreases |b| - i
  {
    if i < |b| { LaidShift(a, b, i + Size(b[i])); }
  }

  lemma {:induction false} LaidConcat(a: Code, b: Code, i: nat)
    requires LaidFrom(a, i) && LaidFrom(b, 0)
    ensures LaidFrom(a + b, i)
    decreases |a| - i
  {
    if i < |a| { LaidConcat(a, b, i + Size(a[i])); } else { LaidShift(a, b, 0); }
  }

  lemma LaidOutIns(i: Instr)
    requires !i.Pad?
    ensures LaidOut(Ins(i))
  {
    assert LaidFrom(Ins(i), Size(i));
  }

  /** Segments built from laid-out pieces whose open calls go to used rules of g. */
  ghost predicate Fine(seg: Code, g: Grammar) { LaidOut(seg) && CallsInto(seg, g) }

  lemma FineConcat(a: Code, b: Code, g: Grammar)
    requires Fine(a, g) && Fine(b, g)
    ensures Fine(a + b, g)
  {
    LaidConcat(a, b, 0);
  }

  lemma FineIns(i: Instr, g: Grammar)
    requires !i.Pad? && (i.IOpenCall? ==> i.key < |g| && g[i.key].used)
    ensures Fine(Ins(i), g)
  {
    LaidOutIns(i);
  }

  lemma FineOne(i: Instr, g: Grammar)
    requires !i.Pad? && !i.IOpenCall? && Size(i) == 1
    ensures Fine([i], g)
  {
    assert LaidFrom([i], 1);
  }

  lemma FineTest(f: Firsts, off: int, g: Grammar)
    ensures Fine(TestCode(f, off), g) && |TestCode(f, off)| == TestLen(f)
  {
    if !f.e { FineIns(WithOffset(TestIns(f.cs), off), g); }
  }

  lemma FineSet(cs: Charset, tt: Guard, g: Grammar)
    ensures Fine(CodeSet(cs, tt), g)
  {
    FineOne(IAny, g);
    FineOne(IFail, g);
    match Classify(cs) {
      case Single(c) => FineOne(IChar(c), g);
      case Generic => FineIns(ISet(cs), g);
      case _ =>
    }
  }

  lemma FineNone(g: Grammar)
    ensures Fine([], g)
  {
  }

  /** Code without open calls. */
  lemma FineAnywhere(seg: Code, g: Grammar)
    requires Fine(seg, [])
    ensures Fine(seg, g)
  {
  }

  /** What closed means for the parts of a pattern. */
  lemma ClosedParts(t: Tree, g: Grammar)
    requires Closed(t, g)
    ensures t.TSeq? || t.TChoice? ==> Closed(t.p1, g) && Closed(t.p2, g)
    ensures t.TRep? || t.TNot? || t.TAnd? ==> Closed(t.p, g)
    ensures t.TBehind? ==> Closed(t.p, [])
    ensures t.TCall? ==> t.rule < |g| && g[t.rule].used
  {
  }

  lemma {:induction false} GenFine(t: Tree, g: Grammar, opt: bool, tt: Guard, fl: Charset)
    requires Closed(t, g)
    ensures Fine(Gen(t, g, opt, tt, fl), g)
    decreases t, 1
  {
    hide Fine, LaidFrom, Closed, Pads, Ins, GenChoice, GenRep, GenNot, GenAnd, CorrectCalls, Positions, RawGrammar, GetFirst, CodeSet, HeadFail, ToCharset;
    FineNone(g);
    FineOne(IAny, g);
    FineOne(IFail, g);
    ClosedParts(t, g);
    match t {
      case TChar(c) => FineOne(IChar(c), g);
      case TSet(cs) => FineSet(cs, tt, g);
      case TCall(k, _) => FineIns(IOpenCall(k), g);
      case TSeq(p1, p2) =>
        GenFine(p1, g, false, tt, SeqFollow(p1, p2, g, fl));
        GenFine(p2, g, opt, SeqGuard(p1, g, tt), fl);
        FineConcat(Gen(p1, g, false, tt, SeqFollow(p1, p2, g, fl)), Gen(p2, g, opt, SeqGuard(p1, g, tt), fl), g);
      case TChoice(p1, p2) => ChoiceFine(p1, p2, g, opt, fl);
      case TRep(p) => RepFine(p, g, opt, fl);
      case TNot(p) => NotFine(p, g);
      case TAnd(p) => AndFine(p, g, tt);
      case TBehind(m, p) =>
        GenFine(p, [], false, None, FullSet);
        BackFine(m, g);
        FineAnywhere(Gen(p, [], false, None, FullSet), g);
        FineConcat(if m > 0 then [IBehind(m)] else [], Gen(p, [], false, None, FullSet), g);
      case TGrammar(rs) =>
        GrammarFine(rs, g);
        FineAnywhere(CorrectCalls(RawGrammar(rs), Positions(rs, rs, 4), 4), g);
      case _ =>
    }
  }

  lemma {:induction false} NotFine(p: Tree, g: Grammar)
    requires Closed(p, g)
    ensures Fine(GenNot(p, g), g)
    decreases p, 2
  {
    hide LaidFrom, LaidOut, CallsInto, Fine, Ins, Pads, TestCode, TestIns, TestGuard, TestLen, GetFirst, HeadFail, TestedRep, TestedChoice, Gen, Closed, ToCharset;
    var f := GetFirst(p, g, FullSet);
    var c := Gen(p, g, false, None, FullSet);
    GenFine(p, g, false, None, FullSet);
    if HeadFail(p, g) {
      FineOne(IFail, g);
      FineTest(f, TestLen(f) + 1, g);
      FineConcat(TestCode(f, TestLen(f) + 1), [IFail], g);
    } else {
      var off := TestLen(f) + 2 + |c| + 1;
      FineOne(IFailTwice, g);
      FineTest(f, off, g);
      FineIns(IChoice(2 + |c| + 1), g);
      Fine4(TestCode(f, off), Ins(IChoice(2 + |c| + 1)), c, [IFailTwice], g);
    }
  }

  lemma {:induction false} AndFine(p: Tree, g: Grammar, tt: Guard)
    requires Closed(p, g)
    ensures Fine(GenAnd(p, g, tt), g)
    decreases p, 2
  {
    hide LaidFrom, LaidOut, CallsInto, Fine, Ins, Pads, Gen, Closed, Len;
    var c := Gen(p, g, false, tt, FullSet);
    GenFine(p, g, false, tt, FullSet);
    if 0 <= Len(p, g) <= MAXBEHIND {
      BackFine(Len(p, g), g);
      FineConcat(c, if Len(p, g) > 0 then [IBehind(Len(p, g))] else [], g);
    } else {
      FineOne(IFail, g);
      FineIns(IChoice(2 + |c| + 2), g);
      FineIns(IBackCommit(3), g);
      Fine4(Ins(IChoice(2 + |c| + 2)), c, Ins(IBackCommit(3)), [IFail], g);
    }
  }

  lemma BackFine(m: nat, g: Grammar)
    ensures Fine(if m > 0 then [IBehind(m)] else [], g)
  {
    FineOne(IBehind(m), g);
  }

  lemma Fine4(a: Code, b: Code, c: Code, d: Code, g: Grammar)
    requires Fine(a, g) && Fine(b, g) && Fine(c, g) && Fine(d, g)
    ensures Fine(a + b + c + d, g)
  {
    FineConcat(a, b, g);
    FineConcat(a + b, c, g);
    FineConcat(a + b + c, d, g);
  }

  lemma TestedChoiceFine(p1: Tree, p2: Tree, g: Grammar, opt: bool, fl: Charset, f: Firsts, c1: Code, c2: Code)
    requires TestedChoice(p1, p2, g, fl) && f == Firsts(GetFirst(p1, g, FullSet).cs, false)
    requires c1 == Gen(p1, g, false, TestGuard(f), fl) && c2 == Gen(p2, g, opt, None, fl)
    requires Fine(c1, g) && Fine(c2, g)
    ensures Fine(GenChoice(p1, p2, g, opt, fl), g)
  {
    hide LaidFrom, LaidOut, CallsInto, Fine, Ins, Pads, Size, TestCode, TestIns, TestGuard, TestLen, GetFirst, HeadFail, TestedRep, TestedChoice, Gen, Closed, ToCharset;
    var jmp := if p2.TTrue? then [] else Ins(IJmp(2 + |c2|));
    FineTest(f, TestLen(f) + |c1| + |jmp|, g);
    if !p2.TTrue? { FineIns(IJmp(2 + |c2|), g); }
    Fine4(TestCode(f, TestLen(f) + |c1| + |jmp|), c1, jmp, c2, g);
  }

  lemma {:induction false} ChoiceFine(p1: Tree, p2: Tree, g: Grammar, opt: bool, fl: Charset)
    requires Closed(p1, g) && Closed(p2, g)
    ensures Fine(GenChoice(p1, p2, g, opt, fl), g)
    decreases TChoice(p1, p2), 0
  {
    hide LaidFrom, LaidOut, CallsInto, Fine, Ins, Pads, Size, TestCode, TestIns, TestGuard, TestLen, GetFirst, HeadFail, TestedRep, TestedChoice, Gen, Closed, ToCharset;
    var f1 := GetFirst(p1, g, FullSet);
    if TestedChoice(p1, p2, g, fl) {
      var f := Firsts(f1.cs, false);
      GenFine(p1, g, false, TestGuard(f), fl);
      GenFine(p2, g, opt, None, fl);
      TestedChoiceFine(p1, p2, g, opt, fl, f, Gen(p1, g, false, TestGuard(f), fl), Gen(p2, g, opt, None, fl));
    } else if opt && p2.TTrue? {
      GenFine(p1, g, true, None, FullSet);
      FineIns(IPartialCommit(2), g);
      FineConcat(Ins(IPartialCommit(2)), Gen(p1, g, true, None, FullSet), g);
    } else {
      PlainChoiceFine(p1, p2, g, opt, fl);
    }
  }

  lemma {:induction false} PlainChoiceFine(p1: Tree, p2: Tree, g: Grammar, opt: bool, fl: Charset)
    requires Closed(p1, g) && Closed(p2, g) && !TestedChoice(p1, p2, g, fl) && !(opt && p2.TTrue?)
    ensures Fine(GenChoice(p1, p2, g, opt, fl), g)
    decreases TChoice(p1, p2), 0, 0
  {
    hide LaidFrom, LaidOut, CallsInto, Fine, Ins, Pads, Size, TestCode, TestIns, TestGuard, TestLen, GetFirst, HeadFail, TestedRep, TestedChoice, Gen, Closed, ToCharset;
    var f1 := GetFirst(p1, g, FullSet);
    var c1, c2 := Gen(p1, g, p2.TTrue?, TestGuard(f1), FullSet), Gen(p2, g, opt, None, fl);
    GenFine(p1, g, p2.TTrue?, TestGuard(f1), FullSet);
    GenFine(p2, g, opt, None, fl);
    ChosenFine(f1, c1, c2, g);
  }

  /** Two alternatives, with a choice. */
  lemma ChosenFine(f: Firsts, c1: Code, c2: Code, g: Grammar)
    requires Fine(c1, g) && Fine(c2, g)
    ensures Fine(TestCode(f, TestLen(f) + 2 + |c1| + 2) + Ins(IChoice(2 + |c1| + 2)) + c1 + Ins(ICommit(2 + |c2|)) + c2, g)
  {
    hide Fine, Ins, TestCode, TestLen;
    var off := TestLen(f) + 2 + |c1| + 2;
    FineTest(f, off, g);
    FineIns(IChoice(2 + |c1| + 2), g);
    FineIns(ICommit(2 + |c2|), g);
    Fine4(TestCode(f, off), Ins(IChoice(2 + |c1| + 2)), c1, Ins(ICommit(2 + |c2|)), g);
    FineConcat(TestCode(f, off) + Ins(IChoice(2 + |c1| + 2)) + c1 + Ins(ICommit(2 + |c2|)), c2, g);
  }

  lemma {:induction false} RepFine(p: Tree, g: Grammar, opt: bool, fl: Charset)
    requires Closed(p, g)
    ensures Fine(GenRep(p, g, opt, fl), g)
    decreases p, 3
  {
    if ToCharset(p).Some? { FineIns(ISpan(ToCharset(p).value), g); }
    else if TestedRep(p, g, fl) { TestedRepFine(p, g, opt, fl); }
    else { PlainRepFine(p, g, opt, fl); }
  }

  lemma {:induction false} TestedRepFine(p: Tree, g: Grammar, opt: bool, fl: Charset)
    requires Closed(p, g) && ToCharset(p).None? && TestedRep(p, g, fl)
    ensures Fine(GenRep(p, g, opt, fl), g)
    decreases p, 2
  {
    hide LaidFrom, LaidOut, CallsInto, Fine, Ins, Pads, Size, TestCode, TestIns, TestGuard, TestLen, GetFirst, HeadFail, TestedRep, Gen, Closed, ToCharset;
    var f := Firsts(GetFirst(p, g, FullSet).cs, false);
    var c := Gen(p, g, false, TestGuard(f), FullSet);
    var jmp := Ins(IJmp(-(TestLen(f) + |c|)));
    GenFine(p, g, false, TestGuard(f), FullSet);
    FineTest(f, TestLen(f) + |c| + 2, g);
    FineIns(IJmp(-(TestLen(f) + |c|)), g);
    FineConcat(TestCode(f, TestLen(f) + |c| + 2), c, g);
    FineConcat(TestCode(f, TestLen(f) + |c| + 2) + c, jmp, g);
  }

  lemma {:induction false} PlainRepFine(p: Tree, g: Grammar, opt: bool, fl: Charset)
    requires Closed(p, g) && ToCharset(p).None? && !TestedRep(p, g, fl)
    ensures Fine(GenRep(p, g, opt, fl), g)
    decreases p, 2
  {
    hide LaidFrom, LaidOut, CallsInto, Fine, Ins, Pads, Size, TestCode, TestIns, TestGuard, TestLen, GetFirst, HeadFail, TestedRep, Gen, Closed, ToCharset;
    var f1 := GetFirst(p, g, FullSet);
    var c := Gen(p, g, false, None, FullSet);
    var off := TestLen(f1) + 2 + |c| + 2;
    var first := if opt then IPartialCommit(2) else IChoice(2 + |c| + 2);
    GenFine(p, g, false, None, FullSet);
    FineTest(f1, off, g);
    FineIns(first, g);
    FineIns(IPartialCommit(-|c|), g);
    Fine4(TestCode(f1, off), Ins(first), c, Ins(IPartialCommit(-|c|)), g);
  }

  lemma {:induction false} RulesFine(rs: Grammar, g: Grammar)
    requires forall k :: 0 <= k < |rs| ==> RuleClosed(rs[k], g)
    ensures Fine(RulesCode(rs, g), g)
    decreases rs, 2
  {
    if rs != [] {
      RuleFine(rs[0], g);
      FineOne(IRet, g);
      forall k | 0 <= k < |rs[1..]| ensures RuleClosed(rs[1..][k], g) { assert rs[1..][k] == rs[k + 1]; }
      RulesFine(rs[1..], g);
      FineConcat(GenRule(rs[0], g), [IRet], g);
      FineConcat(GenRule(rs[0], g) + [IRet], RulesCode(rs[1..], g), g);
    }
  }

  lemma {:induction false} RuleFine(r: Rule, g: Grammar)
    requires RuleClosed(r, g)
    ensures Fine(GenRule(r, g), g)
    decreases r, 2
  {
    GenFine(r.body, g, false, None, FullSet);
  }

  lemma {:induction false} RawFine(rs: Grammar, g: Grammar)
    requires Closed(TGrammar(rs), g)
    ensures Fine(RawGrammar(rs), rs) && LaidFrom(RawGrammar(rs), 4)
    decreases rs, 3
  {
    hide LaidFrom, CallsInto, RulesCode;
    var r := RulesCode(rs, rs);
    RulesFine(rs, rs);
    FineIns(ICall(4), rs);
    FineIns(IJmp(2 + |r|), rs);
    FineConcat(Ins(ICall(4)), Ins(IJmp(2 + |r|)), rs);
    FineConcat(Ins(ICall(4)) + Ins(IJmp(2 + |r|)), r, rs);
    LaidShift(Ins(ICall(4)) + Ins(IJmp(2 + |r|)), r, 0);
  }

  /** The code of a grammar is laid out and has no open calls left. */
  lemma {:induction false} GrammarFine(rs: Grammar, g: Grammar)
    requires Closed(TGrammar(rs), g)
    ensures Fine(CorrectCalls(RawGrammar(rs), Positions(rs, rs, 4), 4), [])
    decreases rs, 4
  {
    hide CorrectCalls, Positions, Closed, LaidFrom;
    RawFine(rs, g);
    var raw, pos := RawGrammar(rs), Positions(rs, rs, 4);
    CorrectCallsSlots(raw, pos, 4);
    CorrectCallsLaidOut(raw, pos, 4);
    var code := CorrectCalls(raw, pos, 4);
    forall k | 0 <= k < |code| ensures !code[k].IOpenCall? {
      if k < 4 { assert code[k] == raw[k]; } else { assert SlotOK(code, pos, k, raw[k]); }
    }
  }

  /** Jumps to a return survive changes that leave jumps and returns alone. */
  lemma {:induction false} JumpsPersist(a: Code, b: Code, i: int, n: nat)
    requires |a| == |b| && forall y :: 0 <= y < |a| && (a[y].IJmp? || a[y].IRet?) ==> b[y] == a[y]
    requires JumpsToRet(a, i, n)
    ensures JumpsToRet(b, i, n)
    decreases n
  {
    if !a[i].IRet? { JumpsPersist(a, b, i + a[i].off, n - 1); }
  }

  lemma {:induction false} TargetIsRet(code: Code, i: int, n: nat)
    requires RetAt(code, FinalTarget(code, i, n))
    ensures JumpsToRet(code, i, n)
    decreases n
  {
    if n > 0 && 0 <= i < |code| && code[i].IJmp? { TargetIsRet(code, i + code[i].off, n - 1); }
  }

  lemma LaidStep(code: Code, i: nat)
    requires LaidFrom(code, i) && i < |code|
    ensures i + Size(code[i]) <= |code| && LaidFrom(code, i + Size(code[i])) && Size(code[i]) > 0
    ensures forall k :: i < k < i + Size(code[i]) ==> code[k] == Pad
  {
  }

  /** correctcalls closes every open call from i on, leaves everything else alone, and makes a tail
      call only where a return follows. */
  lemma {:induction false} CorrectCallsSlots(code: Code, pos: seq<nat>, i: nat)
    requires LaidFrom(code, i) && KeysBelow(code, |pos|)
    ensures var r := CorrectCalls(code, pos, i);
            && (forall y :: 0 <= y < |code| && (y < i || !code[y].IOpenCall?) ==> r[y] == code[y])
            && (forall y :: i <= y < |code| ==> SlotOK(r, pos, y, code[y]))
    decreases |code| - i
  {
    hide LaidFrom, FinalTarget, JumpsToRet, SlotOK;
    if i < |code| {
      LaidStep(code, i);
      if code[i].IOpenCall? {
        var off := pos[code[i].key] - i;
        var tail := RetAt(code, FinalTarget(code, i + 2, |code|));
        var code' := code[i := if tail then IJmp(off) else ICall(off)];
        LaidReplace(code, i, code'[i], i + 2);
        CorrectCallsSlots(code', pos, i + 2);
        var r := CorrectCalls(code', pos, i + 2);
        CallSlot(code, r, pos, i);
        forall y | i + 2 <= y < |code| ensures SlotOK(r, pos, y, code[y]) { assert code'[y] == code[y]; }
      } else {
        var j := i + Size(code[i]);
        CorrectCallsSlots(code, pos, j);
        var r := CorrectCalls(code, pos, j);
        forall y | i <= y < j ensures SlotOK(r, pos, y, code[y]) { OtherSlot(r, pos, y, code[y]); }
      }
    }
  }

  lemma OtherSlot(r: Code, pos: seq<nat>, y: nat, ins: Instr)
    requires y < |r| && !ins.IOpenCall? && r[y] == ins
    ensures SlotOK(r, pos, y, ins)
  {
  }

  /** The slots of an open call, when the rest has been corrected to r. */
  lemma CallSlot(code: Code, r: Code, pos: seq<nat>, i: nat)
    requires i + 1 < |code| == |r| && code[i].IOpenCall? && code[i].key < |pos| && code[i + 1] == Pad
    requires forall y :: 0 <= y < |code| && y != i && (y < i + 2 || !code[y].IOpenCall?) ==> r[y] == code[y]
    requires var off := pos[code[i].key] - i;
             r[i] == if RetAt(code, FinalTarget(code, i + 2, |code|)) then IJmp(off) else ICall(off)
    ensures SlotOK(r, pos, i, code[i]) && SlotOK(r, pos, i + 1, code[i + 1])
  {
    hide FinalTarget;
    if RetAt(code, FinalTarget(code, i + 2, |code|)) {
      TargetIsRet(code, i + 2, |code|);
      JumpsPersist(code, r, i + 2, |code|);
    }
  }

  lemma {:induction false} CorrectCallsLaidOut(code: Code, pos: seq<nat>, i: nat)
    requires LaidFrom(code, i) && LaidOut(code) && KeysBelow(code, |pos|)
    ensures LaidOut(CorrectCalls(code, pos, i))
    decreases |code| - i
  {
    if i < |code| {
      if code[i].IOpenCall? {
        var off := pos[code[i].key] - i;
        var ins := if RetAt(code, FinalTarget(code, i + 2, |code|)) then IJmp(off) else ICall(off);
        LaidReplace(code, i, ins, 0);
        LaidReplace(code, i, ins, i + 2);
        CorrectCallsLaidOut(code[i := ins], pos, i + 2);
      } else {
        CorrectCallsLaidOut(code, pos, i + Size(code[i]));
      }
    }
  }

  lemma {:induction false} LaidReplace(seg: Code, i: nat, ins: Instr, j: nat)
    requires LaidFrom(seg, j) && i < |seg| && !seg[i].Pad? && !ins.Pad? && Size(ins) == Size(seg[i])
    ensures LaidFrom(seg[i := ins], j)
    decreases |seg| - j
  {
    if j < |seg| { LaidReplace(seg, i, ins, j + Size(seg[j])); }
  }

  lemma SliceAfter(front: Code, rest: Code, o: int, n: nat)
    requires 0 <= o && o + n < |rest|
    ensures (front + rest)[|front| + o..|front| + o + n] == rest[o..o + n]
    ensures (front + rest)[|front| + o + n] == rest[o + n]
  {
  }

  lemma {:induction false} RulesUnfold(rs: Grammar, g: Grammar, at: nat)
    requires rs != []
    ensures RulesCode(rs, g) == GenRule(rs[0], g) + [IRet] + RulesCode(rs[1..], g)
    ensures Positions(rs, g, at) == [at] + Positions(rs[1..], g, at + |GenRule(rs[0], g)| + 1)
  {
    hide Gen, GenRule;
  }

  lemma SliceFirst(c: Code, rest: Code)
    ensures var code := c + [IRet] + rest; code[0..|c|] == c && code[|c|] == IRet
  {
  }

  /** Where rule k stands in the code of its grammar. */
  lemma {:induction false} RuleSlice(rs: Grammar, g: Grammar, at: nat, k: nat)
    requires k < |rs|
    ensures var o := Positions(rs, g, at)[k] - at;
            var n := |GenRule(rs[k], g)|;
            && 0 <= o && o + n < |RulesCode(rs, g)|
            && RulesCode(rs, g)[o..o + n] == GenRule(rs[k], g)
            && RulesCode(rs, g)[o + n] == IRet
    decreases k
  {
    hide Gen, GenRule, RulesCode, Positions;
    RulesUnfold(rs, g, at);
    var c0 := GenRule(rs[0], g) + [IRet];
    var rest := RulesCode(rs[1..], g);
    if k == 0 {
      SliceFirst(GenRule(rs[0], g), rest);
    } else {
      RuleSlice(rs[1..], g, at + |c0|, k - 1);
      assert rs[1..][k - 1] == rs[k];
      var o := Positions(rs[1..], g, at + |c0|)[k - 1] - (at + |c0|);
      SliceAfter(c0, rest, o, |GenRule(rs[k], g)|);
    }
  }

  lemma RuleSlots(code: Code, pos: seq<nat>, raw: Code, rules: Code, o: nat, rule: Code)
    requires |raw| == 4 + |rules| && forall y :: 0 <= y < |rules| ==> raw[4 + y] == rules[y]
    requires forall y :: 4 <= y < |raw| ==> SlotOK(code, pos, y, raw[y])
    requires o + |rule| < |rules| && rules[o..o + |rule|] == rule && rules[o + |rule|] == IRet
    ensures Placed(code, pos, 4 + o, rule) && RetAt(code, 4 + o + |rule|)
  {
    hide JumpsToRet;
    forall m | 0 <= m < |rule| ensures SlotOK(code, pos, 4 + o + m, rule[m]) {
      assert rules[o..o + |rule|][m] == rules[o + m] == raw[4 + o + m];
    }
    assert SlotOK(code, pos, 4 + o + |rule|, raw[4 + (o + |rule|)]);
  }

  lemma RawSlots(rs: Grammar)
    ensures |RawGrammar(rs)| == 4 + |RulesCode(rs, rs)|
    ensures forall y :: 0 <= y < |RulesCode(rs, rs)| ==> RawGrammar(rs)[4 + y] == RulesCode(rs, rs)[y]
  {
    hide RulesCode;
  }

  /** The finished code of a grammar holds every rule, closed off by a return. */
  lemma GrammarSlots(rs: Grammar, g: Grammar, k: nat)
    requires Closed(TGrammar(rs), g) && k < |rs|
    ensures var pos := Positions(rs, rs, 4);
            var code := CorrectCalls(RawGrammar(rs), pos, 4);
            && Placed(code, pos, pos[k], GenRule(rs[k], rs))
            && RetAt(code, pos[k] + |GenRule(rs[k], rs)|)
  {
    hide LaidFrom, CorrectCalls, Closed, GenRule, Positions, RulesCode, SlotOK, RawGrammar, Placed, RetAt;
    var raw, pos := RawGrammar(rs), Positions(rs, rs, 4);
    RawFine(rs, g);
    CorrectCallsSlots(raw, pos, 4);
    RuleSlice(rs, rs, 4, k);
    RawSlots(rs);
    RuleSlots(CorrectCalls(raw, pos, 4), pos, raw, RulesCode(rs, rs), pos[k] - 4, GenRule(rs[k], rs));
  }

  /** a stands inside b, at p. */
  ghost predicate Embeds(a: Code, b: Code, p: int)
  {
    forall y :: 0 <= y < |a| ==> 0 <= p + y < |b| && b[p + y] == a[y]
  }

  lemma {:induction false} JumpsShift(a: Code, b: Code, p: int, i: int, n: nat)
    requires Embeds(a, b, p)
    requires JumpsToRet(a, i, n)
    ensures JumpsToRet(b, p + i, n)
    decreases n
  {
    if !a[i].IRet? { JumpsShift(a, b, p, i + a[i].off, n - 1); }
  }

  /** Code keeps its meaning wherever it is placed. */
  lemma PlacedShift(a: Code, b: Code, p: nat, pos: seq<nat>, q: nat, seg: Code)
    requires Embeds(a, b, p)
    requires Placed(a, pos, q, seg)
    ensures Placed(b, seq(|pos|, k requires 0 <= k < |pos| => p + pos[k]), p + q, seg)
  {
    var pos' := seq(|pos|, k requires 0 <= k < |pos| => p + pos[k]);
    forall k | 0 <= k < |seg| ensures SlotOK(b, pos', p + q + k, seg[k]) {
      assert SlotOK(a, pos, q + k, seg[k]);
      if seg[k].IOpenCall? && a[q + k].IJmp? {
        var n: nat :| JumpsToRet(a, q + k + 2, n);
        JumpsShift(a, b, p, q + k + 2, n);
        assert ReturnsFrom(b, p + q + k + 2);
      }
    }
  }
}
