/** Chains of jumps in generated code: lpcode.c's finaltarget always comes to an end, because no
    cycle of jumps is generated from a sound grammar. */
module LpegJumps {
  import opened LpegTree
  import opened LpegAnalysis
  import opened LpegCode
  import opened LpegVm
  import opened LpegLayout
  import opened LpegCorrect
  import LpegVerify

  /** From i, at most n jumps lead to an instruction that is not a jump, or out of the segment to a
      place no later than m. */
  ghost predicate Leaves(seg: Code, i: int, n: nat, m: nat)
    decreases n
  {
    || |seg| <= i <= m
    || (&& 0 <= i < |seg|
        && (!seg[i].IJmp? || (n > 0 && Leaves(seg, i + seg[i].off, n - 1, m))))
  }

  ghost predicate LeavesFrom(seg: Code, i: int, m: nat) { exists n: nat :: Leaves(seg, i, n, m) }

  /** The label of the instruction at i, if it has one, lies inside the segment or leaves it to a place
      no later than m. */
  ghost predicate LabelIn(seg: Code, i: int, m: nat)
    requires 0 <= i < |seg|
  {
    HasOffset(seg[i]) ==> 0 <= i + seg[i].off <= m
  }

  /** No jump of the segment starts a cycle, and no label leads astray. */
  ghost predicate Acyclic(seg: Code, m: nat)
  {
    |seg| <= m && forall i :: 0 <= i < |seg| ==> LeavesFrom(seg, i, m) && LabelIn(seg, i, m)
  }

  lemma {:induction false} LeavesMore(seg: Code, i: int, n: nat, m: nat, n': nat, m': nat)
    requires Leaves(seg, i, n, m) && n <= n' && m <= m'
    ensures Leaves(seg, i, n', m')
    decreases n
  {
    if 0 <= i < |seg| && seg[i].IJmp? { LeavesMore(seg, i + seg[i].off, n - 1, m, n' - 1, m'); }
  }

  lemma {:induction false} LeavesShift(a: Code, b: Code, i: int, n: nat, m: nat)
    requires Leaves(b, i, n, m)
    ensures Leaves(a + b, |a| + i, n, |a| + m)
    decreases n
  {
    if 0 <= i < |b| && b[i].IJmp? { LeavesShift(a, b, i + b[i].off, n - 1, m); }
  }

  lemma {:induction false} LeavesConcat(a: Code, b: Code, i: int, n: nat, ma: nat, m: nat)
    requires Leaves(a, i, n, ma) && ma <= m
    requires forall j :: |a| <= j < |a + b| ==> LeavesFrom(a + b, j, m)
    requires |a + b| <= m
    ensures LeavesFrom(a + b, i, m)
    decreases n
  {
    if i >= |a| {
      if i >= |a + b| { assert Leaves(a + b, i, 0, m); }
    } else if a[i].IJmp? {
      LeavesConcat(a, b, i + a[i].off, n - 1, ma, m);
      assert LeavesFrom(a + b, i + a[i].off, m);
      var k: nat :| Leaves(a + b, i + a[i].off, k, m);
      assert Leaves(a + b, i, k + 1, m);
    } else {
      assert Leaves(a + b, i, 0, m);
    }
  }

  lemma AcyclicConcat(a: Code, ma: nat, b: Code, mb: nat, m: nat)
    requires Acyclic(a, ma) && Acyclic(b, mb) && ma <= m && |a| + mb <= m
    ensures Acyclic(a + b, m)
  {
    forall j | |a| <= j < |a + b| ensures LeavesFrom(a + b, j, m) && LabelIn(a + b, j, m) {
      assert LeavesFrom(b, j - |a|, mb) && LabelIn(b, j - |a|, mb);
      var n: nat :| Leaves(b, j - |a|, n, mb);
      LeavesShift(a, b, j - |a|, n, mb);
      LeavesMore(a + b, j, n, |a| + mb, n, m);
    }
    forall i | 0 <= i < |a| ensures LeavesFrom(a + b, i, m) && LabelIn(a + b, i, m) {
      assert LeavesFrom(a, i, ma) && LabelIn(a, i, ma);
      var n: nat :| Leaves(a, i, n, ma);
      LeavesConcat(a, b, i, n, ma, m);
    }
  }

  lemma AcyclicPlain(seg: Code, m: nat)
    requires |seg| <= m && forall i :: 0 <= i < |seg| ==> !HasOffset(seg[i])
    ensures Acyclic(seg, m)
  {
    forall i | 0 <= i < |seg| ensures LeavesFrom(seg, i, m) { assert Leaves(seg, i, 0, m); }
  }

  /** A single instruction, with a forward label if it has one. */
  lemma AcyclicIns(ins: Instr, m: nat)
    requires Size(ins) <= m && (HasOffset(ins) ==> Size(ins) <= ins.off <= m)
    ensures Acyclic(Ins(ins), m)
  {
    forall i | 0 <= i < |Ins(ins)| ensures LeavesFrom(Ins(ins), i, m) {
      if i == 0 {
        if ins.IJmp? { assert Leaves(Ins(ins), ins.off, 0, m); }
        assert Leaves(Ins(ins), 0, 1, m);
      }
      else { assert Leaves(Ins(ins), i, 0, m); }
    }
  }

  lemma AcyclicTest(f: Firsts, off: nat)
    requires TestLen(f) <= off
    ensures Acyclic(TestCode(f, off), off) && |TestCode(f, off)| == TestLen(f)
  {
    if f.e { AcyclicPlain([], off); } else { AcyclicIns(WithOffset(TestIns(f.cs), off), off); }
  }

  /** A partial commit that goes back. */
  lemma AcyclicBack(a: Code, n: int, m: nat)
    requires Acyclic(a, m) && 0 <= n <= |a| && |a| + 2 <= m
    ensures Acyclic(a + Ins(IPartialCommit(-n)), m)
  {
    var b := Ins(IPartialCommit(-n));
    forall j | |a| <= j < |a + b| ensures LeavesFrom(a + b, j, m) && LabelIn(a + b, j, m) {
      assert Leaves(a + b, j, 0, m);
    }
    forall i | 0 <= i < |a| ensures LeavesFrom(a + b, i, m) && LabelIn(a + b, i, m) {
      assert LeavesFrom(a, i, m) && LabelIn(a, i, m);
      var k: nat :| Leaves(a, i, k, m);
      LeavesConcat(a, b, i, k, m, m);
    }
  }

  /** A loop that jumps back to its test: the test stops the chain, or jumps out. */
  lemma AcyclicLoop(f: Firsts, c: Code)
    requires !f.e && Acyclic(c, |c|)
    ensures var n := TestLen(f) + |c|;
            Acyclic(TestCode(f, n + 2) + c + Ins(IJmp(-n)), n + 2)
  {
    var n := TestLen(f) + |c|;
    var m := n + 2;
    AcyclicTest(f, m);
    AcyclicConcat(TestCode(f, m), m, c, |c|, m);
    var a, jmp := TestCode(f, m) + c, Ins(IJmp(-n));
    var code := a + jmp;
    assert code[0] == TestCode(f, m)[0] && (code[0].IJmp? ==> code[0].off == m);
    assert Leaves(code, m, 0, m);
    assert Leaves(code, 0, 1, m);
    assert Leaves(code, n, 2, m) by { assert code[n] == IJmp(-n); }
    assert Leaves(code, n + 1, 0, m) by { assert code[n + 1] == Pad; }
    forall j | |a| <= j < |code| ensures LeavesFrom(code, j, m) && LabelIn(code, j, m) {
      assert j == n || j == n + 1;
      assert Leaves(code, j, 2, m);
    }
    forall i | 0 <= i < |a| ensures LeavesFrom(code, i, m) && LabelIn(code, i, m) {
      assert LeavesFrom(a, i, m) && LabelIn(a, i, m);
      var k: nat :| Leaves(a, i, k, m);
      LeavesConcat(a, jmp, i, k, m, m);
    }
  }

  lemma {:induction false} GenAcyclic(t: Tree, g: Grammar, opt: bool, tt: Guard, fl: Charset)
    requires Closed(t, g)
    ensures Acyclic(Gen(t, g, opt, tt, fl), |Gen(t, g, opt, tt, fl)|)
    decreases t, 2
  {
    hide Acyclic, LaidFrom, First, CheckAux, HeadFailIn, CorrectCalls, RawGrammar, Positions, GenChoice, GenRep, GenNot, GenAnd, Ins, CodeSet, CodeChar;
    match t {
      case TSeq(p1, p2) =>
        var c1, c2 := Gen(p1, g, false, tt, SeqFollow(p1, p2, g, fl)), Gen(p2, g, opt, SeqGuard(p1, g, tt), fl);
        GenAcyclic(p1, g, false, tt, SeqFollow(p1, p2, g, fl));
        GenAcyclic(p2, g, opt, SeqGuard(p1, g, tt), fl);
        AcyclicConcat(c1, |c1|, c2, |c2|, |c1| + |c2|);
      case TChoice(p1, p2) => ChoiceAcyclic(p1, p2, g, opt, fl);
      case TRep(p) => RepAcyclic(p, g, opt, fl);
      case TNot(p) => NotAcyclic(p, g);
      case TAnd(p) => AndAcyclic(p, g, tt);
      case TBehind(n, p) => BehindAcyclic(n, p);
      case TGrammar(rs) => GrammarAcyclic(rs, g);
      case _ => LeafAcyclic(t, g, opt, tt, fl);
    }
  }

  lemma LeafAcyclic(t: Tree, g: Grammar, opt: bool, tt: Guard, fl: Charset)
    requires t.TChar? || t.TSet? || t.TAny? || t.TTrue? || t.TFalse? || t.TCall?
    ensures Acyclic(Gen(t, g, opt, tt, fl), |Gen(t, g, opt, tt, fl)|)
  {
    hide Acyclic, GetFirst, ToCharset, HeadFail, TestIns, TestGuard, TestedRep;
    AcyclicPlain(Gen(t, g, opt, tt, fl), |Gen(t, g, opt, tt, fl)|);
  }

  lemma {:induction false} BehindAcyclic(n: nat, p: Tree)
    requires Closed(p, [])
    ensures Acyclic(BehindCode(n, p), |BehindCode(n, p)|)
    decreases p, 3
  {
    hide Acyclic, Gen;
    var back, c := if n > 0 then [IBehind(n)] else [], Gen(p, [], false, None, FullSet);
    GenAcyclic(p, [], false, None, FullSet);
    AcyclicPlain(back, |back|);
    AcyclicConcat(back, |back|, c, |c|, |back| + |c|);
  }

  lemma Acyclic3(a: Code, b: Code, c: Code, m: nat)
    requires Acyclic(a, m) && Acyclic(b, m - |a|) && |a| + |b| <= m && Acyclic(c, m - |a| - |b|)
    ensures Acyclic(a + b + c, m)
  {
    AcyclicConcat(a, m, b, m - |a|, m);
    AcyclicConcat(a + b, m, c, m - |a| - |b|, m);
  }

  lemma Acyclic4(a: Code, b: Code, c: Code, d: Code, m: nat)
    requires Acyclic(a, m) && Acyclic(b, m - |a|) && |a| + |b| <= m && Acyclic(c, m - |a| - |b|)
    requires |a| + |b| + |c| <= m && Acyclic(d, m - |a| - |b| - |c|)
    ensures Acyclic(a + b + c + d, m)
  {
    Acyclic3(a, b, c, m);
    AcyclicConcat(a + b + c, m, d, m - |a| - |b| - |c|, m);
  }

  lemma AcyclicMore(seg: Code, m: nat, m': nat)
    requires Acyclic(seg, m) && m <= m'
    ensures Acyclic(seg, m')
  {
    forall i | 0 <= i < |seg| ensures LeavesFrom(seg, i, m') && LabelIn(seg, i, m') {
      assert LeavesFrom(seg, i, m) && LabelIn(seg, i, m);
      var n: nat :| Leaves(seg, i, n, m);
      LeavesMore(seg, i, n, m, n, m');
    }
  }

  lemma {:induction false} ChoiceAcyclic(p1: Tree, p2: Tree, g: Grammar, opt: bool, fl: Charset)
    requires Closed(p1, g) && Closed(p2, g)
    ensures Acyclic(GenChoice(p1, p2, g, opt, fl), |GenChoice(p1, p2, g, opt, fl)|)
    decreases TChoice(p1, p2), 1
  {
    hide Acyclic, Gen, First, Closed, Pads;
    if TestedChoice(p1, p2, g, fl) {
      TestedChoiceAcyclic(p1, p2, g, opt, fl);
    } else if opt && p2.TTrue? {
      var c1 := Gen(p1, g, true, None, FullSet);
      GenAcyclic(p1, g, true, None, FullSet);
      AcyclicIns(IPartialCommit(2), 2 + |c1|);
      AcyclicConcat(Ins(IPartialCommit(2)), 2 + |c1|, c1, |c1|, 2 + |c1|);
    } else {
      PlainChoiceAcyclic(p1, p2, g, opt, fl);
    }
  }

  lemma {:induction false} TestedChoiceAcyclic(p1: Tree, p2: Tree, g: Grammar, opt: bool, fl: Charset)
    requires Closed(p1, g) && Closed(p2, g) && TestedChoice(p1, p2, g, fl)
    ensures Acyclic(GenChoice(p1, p2, g, opt, fl), |GenChoice(p1, p2, g, opt, fl)|)
    decreases TChoice(p1, p2), 0
  {
    hide Acyclic, Gen, TestCode, TestLen, TestGuard, TestIns, First, Closed, Pads, HeadFail, TestedChoice, TestedRep, GetFirst, ToCharset;
    var f := Firsts(GetFirst(p1, g, FullSet).cs, false);
    var c1, c2 := Gen(p1, g, false, TestGuard(f), fl), Gen(p2, g, opt, None, fl);
    GenAcyclic(p1, g, false, TestGuard(f), fl);
    GenAcyclic(p2, g, opt, None, fl);
    TestedAcyclic(f, c1, if p2.TTrue? then [] else Ins(IJmp(2 + |c2|)), c2);
  }

  /** Two alternatives, with a test alone. */
  lemma TestedAcyclic(f: Firsts, c1: Code, jmp: Code, c2: Code)
    requires Acyclic(c1, |c1|) && Acyclic(c2, |c2|) && (jmp == [] || jmp == Ins(IJmp(2 + |c2|)))
    ensures var code := TestCode(f, TestLen(f) + |c1| + |jmp|) + c1 + jmp + c2; Acyclic(code, |code|)
  {
    hide Acyclic, TestCode, TestLen;
    var off := TestLen(f) + |c1| + |jmp|;
    AcyclicTest(f, off);
    if jmp == [] { AcyclicPlain([], |c2|); } else { AcyclicIns(IJmp(2 + |c2|), 2 + |c2|); }
    AcyclicMore(TestCode(f, off), off, off + |c2|);
    AcyclicMore(c1, |c1|, off + |c2| - TestLen(f));
    Acyclic4(TestCode(f, off), c1, jmp, c2, off + |c2|);
  }

  lemma {:induction false} PlainChoiceAcyclic(p1: Tree, p2: Tree, g: Grammar, opt: bool, fl: Charset)
    requires Closed(p1, g) && Closed(p2, g) && !TestedChoice(p1, p2, g, fl) && !(opt && p2.TTrue?)
    ensures Acyclic(GenChoice(p1, p2, g, opt, fl), |GenChoice(p1, p2, g, opt, fl)|)
    decreases TChoice(p1, p2), 0
  {
    hide Acyclic, Gen, Ins, ToCharset, TestCode, TestLen, TestGuard, TestIns, First, Closed, Pads, HeadFail, TestedChoice, TestedRep, GetFirst;
    var f1 := GetFirst(p1, g, FullSet);
    var c1, c2 := Gen(p1, g, p2.TTrue?, TestGuard(f1), FullSet), Gen(p2, g, opt, None, fl);
    GenAcyclic(p1, g, p2.TTrue?, TestGuard(f1), FullSet);
    GenAcyclic(p2, g, opt, None, fl);
    ChosenAcyclic(f1, c1, c2);
  }

  /** Two alternatives, with a choice. */
  lemma ChosenAcyclic(f: Firsts, c1: Code, c2: Code)
    requires Acyclic(c1, |c1|) && Acyclic(c2, |c2|)
    ensures var code := TestCode(f, TestLen(f) + 2 + |c1| + 2) + Ins(IChoice(2 + |c1| + 2)) + c1 + Ins(ICommit(2 + |c2|)) + c2;
            Acyclic(code, |code|)
  {
    hide Acyclic, Ins, TestCode, TestLen;
    var off := TestLen(f) + 2 + |c1| + 2;
    var m := off + |c2|;
    AcyclicTest(f, off);
    AcyclicMore(TestCode(f, off), off, m);
    AcyclicIns(IChoice(2 + |c1| + 2), m - TestLen(f));
    AcyclicMore(c1, |c1|, m - TestLen(f) - 2);
    AcyclicIns(ICommit(2 + |c2|), 2 + |c2|);
    Acyclic4(TestCode(f, off), Ins(IChoice(2 + |c1| + 2)), c1, Ins(ICommit(2 + |c2|)), m);
    AcyclicConcat(TestCode(f, off) + Ins(IChoice(2 + |c1| + 2)) + c1 + Ins(ICommit(2 + |c2|)), m, c2, |c2|, m);
  }

  lemma {:induction false} RepAcyclic(p: Tree, g: Grammar, opt: bool, fl: Charset)
    requires Closed(p, g)
    ensures Acyclic(GenRep(p, g, opt, fl), |GenRep(p, g, opt, fl)|)
    decreases p, 4
  {
    hide Acyclic, Gen, TestCode, TestLen, First, Closed, Pads;
    if ToCharset(p).Some? {
      AcyclicIns(ISpan(ToCharset(p).value), CHARSETINSTSIZE);
    } else if TestedRep(p, g, fl) {
      var f := Firsts(GetFirst(p, g, FullSet).cs, false);
      GenAcyclic(p, g, false, TestGuard(f), FullSet);
      AcyclicTest(f, TestLen(f) + |Gen(p, g, false, TestGuard(f), FullSet)| + 2);
      AcyclicLoop(f, Gen(p, g, false, TestGuard(f), FullSet));
    } else {
      PlainRepAcyclic(p, g, opt, fl);
    }
  }

  lemma {:induction false} PlainRepAcyclic(p: Tree, g: Grammar, opt: bool, fl: Charset)
    requires Closed(p, g) && ToCharset(p).None? && !TestedRep(p, g, fl)
    ensures Acyclic(GenRep(p, g, opt, fl), |GenRep(p, g, opt, fl)|)
    decreases p, 3
  {
    hide Acyclic, Gen, TestCode, TestLen, TestGuard, TestIns, First, Closed, Pads, HeadFail, TestedChoice, TestedRep, GetFirst, ToCharset;
    var f1, c := GetFirst(p, g, FullSet), Gen(p, g, false, None, FullSet);
    var m := TestLen(f1) + 2 + |c| + 2;
    var first := if opt then IPartialCommit(2) else IChoice(2 + |c| + 2);
    GenAcyclic(p, g, false, None, FullSet);
    AcyclicTest(f1, m);
    AcyclicIns(first, m - TestLen(f1));
    AcyclicMore(c, |c|, m - TestLen(f1) - 2);
    PlainLoopAcyclic(TestCode(f1, m), first, c, m);
  }

  lemma PlainLoopAcyclic(test: Code, first: Instr, c: Code, m: nat)
    requires m == |test| + 2 + |c| + 2 && Acyclic(test, m) && Acyclic(c, m - |test| - 2)
    requires Size(first) == 2 && Acyclic(Ins(first), m - |test|)
    ensures Acyclic(test + Ins(first) + c + Ins(IPartialCommit(-|c|)), m)
  {
    hide Acyclic;
    Acyclic3(test, Ins(first), c, m);
    AcyclicBack(test + Ins(first) + c, |c|, m);
  }

  lemma {:induction false} NotAcyclic(p: Tree, g: Grammar)
    requires Closed(p, g)
    ensures Acyclic(GenNot(p, g), |GenNot(p, g)|)
    decreases p, 3
  {
    hide Acyclic, Gen, TestCode, TestLen, First, Closed, Pads;
    var f := GetFirst(p, g, FullSet);
    if HeadFail(p, g) {
      var m := TestLen(f) + 1;
      AcyclicTest(f, m);
      AcyclicPlain([IFail], 1);
      AcyclicConcat(TestCode(f, m), m, [IFail], 1, m);
    } else {
      var c := Gen(p, g, false, None, FullSet);
      var m := TestLen(f) + 2 + |c| + 1;
      GenAcyclic(p, g, false, None, FullSet);
      AcyclicTest(f, m);
      AcyclicIns(IChoice(2 + |c| + 1), m - TestLen(f));
      AcyclicMore(c, |c|, m - TestLen(f) - 2);
      AcyclicPlain([IFailTwice], 1);
      Acyclic4(TestCode(f, m), Ins(IChoice(2 + |c| + 1)), c, [IFailTwice], m);
    }
  }

  lemma {:induction false} AndAcyclic(p: Tree, g: Grammar, tt: Guard)
    requires Closed(p, g)
    ensures Acyclic(GenAnd(p, g, tt), |GenAnd(p, g, tt)|)
    decreases p, 3
  {
    hide Acyclic, Gen, Closed, Pads, Len;
    var n, c := Len(p, g), Gen(p, g, false, tt, FullSet);
    GenAcyclic(p, g, false, tt, FullSet);
    if 0 <= n <= MAXBEHIND {
      var back := if n > 0 then [IBehind(n)] else [];
      AcyclicPlain(back, |back|);
      AcyclicConcat(c, |c|, back, |back|, |c| + |back|);
    } else {
      var m := 2 + |c| + 2 + 1;
      AcyclicIns(IChoice(2 + |c| + 2), m);
      AcyclicMore(c, |c|, m - 2);
      AcyclicIns(IBackCommit(3), 3);
      AcyclicPlain([IFail], 1);
      Acyclic4(Ins(IChoice(2 + |c| + 2)), c, Ins(IBackCommit(3)), [IFail], m);
    }
  }

  lemma {:induction false} RulesAcyclic(rs: Grammar, g: Grammar)
    requires forall k :: 0 <= k < |rs| ==> RuleClosed(rs[k], g)
    ensures Acyclic(RulesCode(rs, g), |RulesCode(rs, g)|)
    decreases rs, 4
  {
    if rs == [] {
      AcyclicPlain([], 0);
    } else {
      var c, rest := GenRule(rs[0], g), RulesCode(rs[1..], g);
      RuleAcyclic(rs[0], g);
      forall k | 0 <= k < |rs[1..]| ensures RuleClosed(rs[1..][k], g) { assert rs[1..][k] == rs[k + 1]; }
      RulesAcyclic(rs[1..], g);
      AcyclicPlain([IRet], 1);
      AcyclicConcat(c, |c|, [IRet], 1, |c| + 1);
      AcyclicConcat(c + [IRet], |c| + 1, rest, |rest|, |c| + 1 + |rest|);
    }
  }

  lemma {:induction false} RuleAcyclic(r: Rule, g: Grammar)
    requires RuleClosed(r, g)
    ensures Acyclic(GenRule(r, g), |GenRule(r, g)|)
    decreases r, 3
  {
    GenAcyclic(r.body, g, false, None, FullSet);
  }

  /** Before its calls are corrected, the code of a grammar has no cycle of jumps. */
  lemma {:induction false} RawAcyclic(rs: Grammar, g: Grammar)
    requires Closed(TGrammar(rs), g)
    ensures Acyclic(RawGrammar(rs), |RawGrammar(rs)|)
    decreases rs, 5
  {
    var r := RulesCode(rs, rs);
    var m := 4 + |r|;
    RulesAcyclic(rs, rs);
    AcyclicIns(ICall(4), m);
    AcyclicIns(IJmp(2 + |r|), m - 2);
    Acyclic3(Ins(ICall(4)), Ins(IJmp(2 + |r|)), r, m);
  }

  /** Matching from the start of a used rule comes to a stop, whatever the rule. */
  lemma RuleStops(rs: Grammar, k: nat) returns (n: nat)
    requires Closed(TGrammar(rs), []) && k < |rs| && rs[k].used
    ensures !Steps(GrammarCode(rs), [], Run(Positions(rs, rs, 4)[k], 0, Push(Saved(GIVEUP, 0), Bottom)), n).Run?
  {
    hide LaidFrom, Positions, CorrectCalls, RawGrammar, Placed, Gen, Eval, Closed, CheckLoops, LeftBounded;
    var code, pos := GrammarCode(rs), Positions(rs, rs, 4);
    var y := WholeFrame(rs);
    CalledRule(rs, k);
    BudgetSuffices(rs[k].body, rs);
    var f := LpegVerify.Terminates(rs[k].body, rs, [], 0, BUDGET);
    RuleBounds(y, k);
    var k0, q := Push(Saved(GIVEUP, 0), Bottom), y.pos[k] + |Gen(rs[k].body, rs, false, None, FullSet)|;
    var c := Run(y.pos[k], 0, k0);
    GenCorrect(y, y.pos[k], rs[k].body, false, None, FullSet, 0, k0, f);
    var r := Eval(rs[k].body, rs, [], 0, f);
    if r.Match? {
      Exactly(y, c, q, k0, r.pos);
      n := StopsSoon(code, c, Run(q, r.pos, k0));
    } else {
      n := StopsSoon(code, c, Run(GIVEUP, 0, Bottom));
    }
  }

  /** The code of a grammar as a program of its own. */
  lemma WholeFrame(rs: Grammar) returns (y: Frame)
    requires Closed(TGrammar(rs), [])
    ensures y.code == GrammarCode(rs) && y.s == [] && y.g == rs && y.pos == Positions(rs, rs, 4)
    ensures FrameOK(y)
  {
    hide LaidFrom, Positions, CorrectCalls, RawGrammar, RuleAt, Gen;
    var code := GrammarCode(rs);
    var x := Frame(code, [], [], []);
    GrammarFine(rs, []);
    assert At(x, 0, code) by {
      forall k | 0 <= k < |code| ensures SlotOK(code, [], 0 + k, code[k]) {}
    }
    InnerOK(x, 0, rs);
    y := Inner(x, 0, rs);
    assert y.pos == Positions(rs, rs, 4);
  }

  lemma StopsSoon(code: Code, c: Config, b: Config) returns (n: nat)
    requires Join(code, [], c, b) && !Step(code, [], b).Run?
    ensures !Steps(code, [], c, n).Run?
  {
    JoinStep(code, [], b);
    JoinTrans(code, [], c, b, Step(code, [], b));
    var m: nat, k: nat :| Steps(code, [], c, m) == Steps(code, [], Step(code, [], b), k);
    StepsHalted(code, [], Step(code, [], b), k);
    n := m;
  }

  /** In the finished code, a chain that starts where the machine comes to a stop leaves. */
  lemma {:induction false} ChainStops(rs: Grammar, i: nat, n: nat, k: Stack)
    requires Closed(TGrammar(rs), []) && Acyclic(RawGrammar(rs), |RawGrammar(rs)|) && i < |GrammarCode(rs)|
    requires !Steps(GrammarCode(rs), [], Run(i, 0, k), n).Run?
    ensures LeavesFrom(GrammarCode(rs), i, |GrammarCode(rs)|)
    decreases n, 1
  {
    SlotsOfGrammar(rs);
    var m := RawLeaves(rs, i);
    ChainStopsVia(rs, i, n, k, m);
  }

  lemma {:induction false} ChainStopsVia(rs: Grammar, i: nat, n: nat, k: Stack, m: nat)
    requires Closed(TGrammar(rs), []) && Acyclic(RawGrammar(rs), |RawGrammar(rs)|) && i <= |GrammarCode(rs)|
    requires !Steps(GrammarCode(rs), [], Run(i, 0, k), n).Run?
    requires Leaves(RawGrammar(rs), i, m, |RawGrammar(rs)|)
    ensures LeavesFrom(GrammarCode(rs), i, |GrammarCode(rs)|)
    decreases n, 0
  {
    hide Positions, CorrectCalls, RawGrammar, LaidFrom;
    var code := GrammarCode(rs);
    SlotsOfGrammar(rs);
    if i == |code| {
      assert Leaves(code, i, 0, |code|);
    } else if !code[i].IJmp? {
      assert Leaves(code, i, 0, |code|);
    } else {
      var j := i + code[i].off;
      assert Steps(code, [], Run(j, 0, k), n - 1) == Steps(code, [], Run(i, 0, k), n);
      if RawGrammar(rs)[i].IJmp? {
        ChainStopsVia(rs, j, n - 1, k, m - 1);
      } else {
        ChainStops(rs, j, n - 1, k);
      }
      var q: nat :| Leaves(code, j, q, |code|);
      assert Leaves(code, i, q + 1, |code|);
    }
  }

  lemma RawShape(rs: Grammar)
    ensures |RawGrammar(rs)| == 4 + |RulesCode(rs, rs)|
    ensures forall i :: 0 <= i < 4 ==> !RawGrammar(rs)[i].IOpenCall?
  {
    hide RulesCode;
  }

  /** What has become of an open call. */
  ghost predicate CallsRule(rs: Grammar, i: nat, ins: Instr)
  {
    && HasOffset(ins)
    && exists k :: 0 <= k < |rs| && rs[k].used && i + ins.off == Positions(rs, rs, 4)[k] < |RawGrammar(rs)|
  }

  lemma OpenSlot(rs: Grammar, i: nat)
    requires i < |RawGrammar(rs)| && i < |GrammarCode(rs)| && RawGrammar(rs)[i].IOpenCall?
    requires CallsInto(RawGrammar(rs), rs)
    requires SlotOK(GrammarCode(rs), Positions(rs, rs, 4), i, RawGrammar(rs)[i])
    ensures CallsRule(rs, i, GrammarCode(rs)[i])
  {
    hide RulesCode, RawGrammar, Positions, GrammarCode, Gen, GenRule;
    RawShape(rs);
    var k := RawGrammar(rs)[i].key;
    assert k < |rs| && rs[k].used;
    RuleSlice(rs, rs, 4, k);
  }

  /** Slot by slot: a jump of the finished code was a jump before, or is a tail call. */
  lemma SlotsOfGrammar(rs: Grammar)
    requires Closed(TGrammar(rs), [])
    ensures |GrammarCode(rs)| == |RawGrammar(rs)|
    ensures forall i :: 0 <= i < |RawGrammar(rs)| && !RawGrammar(rs)[i].IOpenCall? ==> GrammarCode(rs)[i] == RawGrammar(rs)[i]
    ensures forall i :: 0 <= i < |RawGrammar(rs)| && RawGrammar(rs)[i].IOpenCall? ==> CallsRule(rs, i, GrammarCode(rs)[i])
  {
    hide LaidFrom, Gen, Closed, RawGrammar, Positions, CorrectCalls, CallsRule, SlotOK;
    RawFine(rs, []);
    RawShape(rs);
    CorrectCallsSlots(RawGrammar(rs), Positions(rs, rs, 4), 4);
    forall i | 0 <= i < |RawGrammar(rs)| && RawGrammar(rs)[i].IOpenCall? ensures CallsRule(rs, i, GrammarCode(rs)[i]) {
      assert i >= 4;
      OpenSlot(rs, i);
    }
  }

  /** The finished code of a grammar has no cycle of jumps, tail calls included. */
  lemma {:induction false} GrammarAcyclic(rs: Grammar, g: Grammar)
    requires Closed(TGrammar(rs), g)
    ensures Acyclic(GrammarCode(rs), |GrammarCode(rs)|)
    decreases rs, 6
  {
    hide Positions, CorrectCalls, RawGrammar, LaidFrom, LeavesFrom;
    var code := GrammarCode(rs);
    assert Closed(TGrammar(rs), []);
    RawAcyclic(rs, g);
    SlotsOfGrammar(rs);
    forall i | 0 <= i < |code| ensures LeavesFrom(code, i, |code|) && LabelIn(code, i, |code|) {
      var n := RawLeaves(rs, i);
      GrammarLeaves(rs, i, n);
    }
  }

  lemma RawLeaves(rs: Grammar, i: nat) returns (n: nat)
    requires Acyclic(RawGrammar(rs), |RawGrammar(rs)|) && i < |RawGrammar(rs)|
    ensures Leaves(RawGrammar(rs), i, n, |RawGrammar(rs)|) && LabelIn(RawGrammar(rs), i, |RawGrammar(rs)|)
  {
    hide RawGrammar, Leaves;
    assert LeavesFrom(RawGrammar(rs), i, |RawGrammar(rs)|);
    n :| Leaves(RawGrammar(rs), i, n, |RawGrammar(rs)|);
  }

  lemma {:induction false} GrammarLeaves(rs: Grammar, i: nat, n: nat)
    requires Closed(TGrammar(rs), []) && Acyclic(RawGrammar(rs), |RawGrammar(rs)|) && i <= |GrammarCode(rs)|
    requires Leaves(RawGrammar(rs), i, n, |RawGrammar(rs)|)
    ensures LeavesFrom(GrammarCode(rs), i, |GrammarCode(rs)|)
    decreases n
  {
    hide Positions, CorrectCalls, RawGrammar, LaidFrom, Closed;
    var code := GrammarCode(rs);
    SlotsOfGrammar(rs);
    if i == |code| || !code[i].IJmp? {
      assert Leaves(code, i, 0, |code|);
    } else {
      var j := i + code[i].off;
      if RawGrammar(rs)[i].IJmp? {
        GrammarLeaves(rs, j, n - 1);
      } else {
        var k :| 0 <= k < |rs| && rs[k].used && j == Positions(rs, rs, 4)[k];
        var m := RuleStops(rs, k);
        ChainStops(rs, j, m, Push(Saved(GIVEUP, 0), Bottom));
      }
      var q: nat :| Leaves(code, j, q, |code|);
      assert Leaves(code, i, q + 1, |code|);
    }
  }
}
