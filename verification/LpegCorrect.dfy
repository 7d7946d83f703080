/** Code generation is correct: wherever the code of a pattern stands, running it does what the
    pattern means.  The contract of codegen's three extra parameters is made precise:

    - `tt`: the test it names has succeeded at the current position;
    - `fl`: the code may also fail after a match, if the next character is not in the follow set
      (then whatever comes next would fail anyway);
    - `opt`: the top of the stack is the choice of an enclosing option, the end of the code commits
      it, and the code may use up that choice instead of reaching its end. */
module LpegCorrect {
  import opened LpegTree
  import opened LpegAnalysis
  import opened LpegCode
  import opened LpegVm
  import opened LpegLayout

  /** A program, a subject, and the grammar around the code with the positions of its rules. */
  datatype Frame = Frame(code: Code, s: Subject, g: Grammar, pos: seq<nat>)

  ghost predicate RuleAt(x: Frame, k: nat)
    requires k < |x.g| && k < |x.pos|
  {
    && Placed(x.code, x.pos, x.pos[k], GenRule(x.g[k], x.g))
    && RetAt(x.code, x.pos[k] + |GenRule(x.g[k], x.g)|)
  }

  ghost predicate FrameOK(x: Frame)
  {
    EnvOK(x.g) && |x.pos| == |x.g| && forall k :: 0 <= k < |x.g| ==> RuleAt(x, k)
  }

  ghost predicate At(x: Frame, p: int, seg: Code) { Placed(x.code, x.pos, p, seg) }

  ghost predicate Joins(x: Frame, a: Config, b: Config) { Join(x.code, x.s, a, b) }

  ghost predicate GuardHolds(tt: Guard, s: Subject, i: nat)
  {
    match tt
    case None => true
    case Some(ITestChar(c, _)) => i < |s| && s[i] == c
    case Some(ITestSet(cs, _)) => i < |s| && s[i] in cs
    case Some(ITestAny(_)) => i < |s|
    case Some(_) => false
  }

  /** Reaching `e` inside the option whose choice resumes at lc amounts to resuming at lc. */
  ghost predicate OptExit(x: Frame, e: int, lc: int, rest: Stack)
  {
    forall j: nat, q: nat :: j <= |x.s| ==> Joins(x, Run(e, j, Push(Saved(lc, q), rest)), Run(lc, j, rest))
  }

  /** Code that started in configuration c, with stack k, and ends at e delivers outcome r. */
  ghost predicate Delivers(x: Frame, c: Config, e: int, k: Stack, opt: bool, fl: Charset, r: Outcome)
    requires opt ==> k.Push?
  {
    match r
    case OutOfFuel => true
    case Fail => Joins(x, c, Backtrack(k))
    case Match(j) =>
      if opt then Joins(x, c, Run(k.top.pc, j, k.rest))
      else
        || Joins(x, c, Run(e, j, k))
        || (j < |x.s| && x.s[j] !in fl && Joins(x, c, Backtrack(k)))
  }

  /** What codegen's caller must provide when `seg`, the code of t, runs from position i with
      stack k. */
  ghost predicate CanRun(x: Frame, p: int, t: Tree, seg: Code, opt: bool, tt: Guard, fl: Charset, i: nat, k: Stack)
  {
    && FrameOK(x) && Closed(t, x.g) && !CheckLoops(t, x.g)
    && At(x, p, seg)
    && i <= |x.s| && GuardHolds(tt, x.s, i)
    && (opt ==> fl == FullSet && k.Push? && k.top.Saved? && OptExit(x, p + |seg|, k.top.pc, k.rest))
  }

  lemma DeliverFrom(x: Frame, c: Config, c': Config, e: int, k: Stack, opt: bool, fl: Charset, r: Outcome)
    requires opt ==> k.Push?
    requires Joins(x, c, c') && Delivers(x, c', e, k, opt, fl, r)
    ensures Delivers(x, c, e, k, opt, fl, r)
  {
    match r {
      case OutOfFuel =>
      case Fail => JoinTrans(x.code, x.s, c, c', Backtrack(k));
      case Match(j) =>
        if opt { JoinTrans(x.code, x.s, c, c', Run(k.top.pc, j, k.rest)); }
        else if Joins(x, c', Run(e, j, k)) { JoinTrans(x.code, x.s, c, c', Run(e, j, k)); }
        else { JoinTrans(x.code, x.s, c, c', Backtrack(k)); }
    }
  }

  lemma Trans(x: Frame, a: Config, b: Config, c: Config)
    requires Joins(x, a, b) && Joins(x, b, c)
    ensures Joins(x, a, c)
  {
    JoinTrans(x.code, x.s, a, b, c);
  }

  /** A match that reached the end of the code delivers, whether in an option or not. */
  lemma DeliverEnd(x: Frame, c: Config, e: int, j: nat, k: Stack, opt: bool, fl: Charset)
    requires j <= |x.s| && Joins(x, c, Run(e, j, k))
    requires opt ==> k.Push? && k.top.Saved? && OptExit(x, e, k.top.pc, k.rest)
    ensures Delivers(x, c, e, k, opt, fl, Match(j))
  {
    if opt {
      assert k == Push(Saved(k.top.pc, k.top.pos), k.rest);
      Trans(x, c, Run(e, j, k), Run(k.top.pc, j, k.rest));
    }
  }

  /** The follow set never excuses a failure when it is full. */
  lemma Exactly(x: Frame, c: Config, e: int, k: Stack, j: nat)
    requires Delivers(x, c, e, k, false, FullSet, Match(j))
    ensures Joins(x, c, Run(e, j, k))
  {
    if j < |x.s| { assert x.s[j] in FullSet; }
  }

  lemma Split(x: Frame, p: int, a: Code, b: Code)
    requires At(x, p, a + b)
    ensures At(x, p, a) && At(x, p + |a|, b)
  {
    forall k | 0 <= k < |a| ensures SlotOK(x.code, x.pos, p + k, a[k]) { assert (a + b)[k] == a[k]; }
    forall k | 0 <= k < |b| ensures SlotOK(x.code, x.pos, p + |a| + k, b[k]) {
      assert (a + b)[|a| + k] == b[k];
      assert SlotOK(x.code, x.pos, p + (|a| + k), (a + b)[|a| + k]);
    }
  }

  lemma Split3(x: Frame, p: int, a: Code, b: Code, c: Code)
    requires At(x, p, a + b + c)
    ensures At(x, p, a) && At(x, p + |a|, b) && At(x, p + |a| + |b|, c)
  {
    Split(x, p, a + b, c);
    Split(x, p, a, b);
  }

  lemma Split4(x: Frame, p: int, a: Code, b: Code, c: Code, d: Code)
    requires At(x, p, a + b + c + d)
    ensures At(x, p, a) && At(x, p + |a|, b) && At(x, p + |a| + |b|, c) && At(x, p + |a| + |b| + |c|, d)
  {
    Split(x, p, a + b + c, d);
    Split3(x, p, a, b, c);
  }

  lemma Split5(x: Frame, p: int, a: Code, b: Code, c: Code, d: Code, e: Code)
    requires At(x, p, a + b + c + d + e)
    ensures At(x, p, a) && At(x, p + |a|, b) && At(x, p + |a| + |b|, c) && At(x, p + |a| + |b| + |c|, d)
    ensures At(x, p + |a| + |b| + |c| + |d|, e)
  {
    Split(x, p, a + b + c + d, e);
    Split4(x, p, a, b, c, d);
  }

  /** Executing the instruction placed at p. */
  lemma Do(x: Frame, p: int, seg: Code, i: nat, k: Stack)
    requires At(x, p, seg) && |seg| > 0 && !seg[0].IOpenCall? && i <= |x.s|
    ensures Joins(x, Run(p, i, k), Exec(seg[0], x.s, p, i, k))
  {
    assert SlotOK(x.code, x.pos, p + 0, seg[0]);
    JoinStep(x.code, x.s, Run(p, i, k));
  }

  lemma ClassifyMeaning(cs: Charset, c: Byte)
    ensures Classify(cs).Empty? ==> c !in cs
    ensures Classify(cs).Full? ==> c in cs
    ensures Classify(cs).Single? ==> (c in cs <==> c == Classify(cs).c)
  {
    assert c in FullSet;
  }

  /** A test goes on exactly when the next character is in its set; then it guards what follows. */
  lemma TestMeaning(x: Frame, p: int, f: Firsts, off: int, i: nat, k: Stack)
    requires At(x, p, TestCode(f, off)) && i <= |x.s|
    ensures |TestCode(f, off)| == TestLen(f)
    ensures f.e || (i < |x.s| && x.s[i] in f.cs) ==>
              Joins(x, Run(p, i, k), Run(p + TestLen(f), i, k)) && GuardHolds(TestGuard(f), x.s, i)
    ensures !f.e && !(i < |x.s| && x.s[i] in f.cs) ==> Joins(x, Run(p, i, k), Run(p + off, i, k))
  {
    if f.e {
      JoinRefl(x.code, x.s, Run(p, i, k));
    } else {
      Do(x, p, TestCode(f, off), i, k);
      if i < |x.s| { ClassifyMeaning(f.cs, x.s[i]); }
    }
  }

  lemma {:induction false} SpanMeaning(p: Tree, g: Grammar, s: Subject, i: nat, f: nat)
    requires ToCharset(p).Some? && i <= |s| && !Eval(TRep(p), g, s, i, f).OutOfFuel?
    ensures Eval(TRep(p), g, s, i, f) == Match(SpanEnd(ToCharset(p).value, s, i))
    decreases f
  {
    assert !Eval(p, g, s, i, f - 1).OutOfFuel?;
    CharsetMeaning(p, g, s, i, f - 1);
    var r := Eval(p, g, s, i, f - 1);
    if r.Match? { SpanMeaning(p, g, s, i + 1, f - 1); }
  }

  lemma CharMeaning(x: Frame, p: int, c: Byte, tt: Guard, i: nat, k: Stack)
    requires At(x, p, CodeChar(c, tt)) && i <= |x.s| && GuardHolds(tt, x.s, i)
    ensures |CodeChar(c, tt)| == 1
    ensures Joins(x, Run(p, i, k), if i < |x.s| && x.s[i] == c then Run(p + 1, i + 1, k) else Backtrack(k))
  {
    Do(x, p, CodeChar(c, tt), i, k);
  }

  lemma SetMeaning(x: Frame, p: int, cs: Charset, tt: Guard, i: nat, k: Stack)
    requires At(x, p, CodeSet(cs, tt)) && i <= |x.s| && GuardHolds(tt, x.s, i)
    ensures Joins(x, Run(p, i, k),
                  if i < |x.s| && x.s[i] in cs then Run(p + |CodeSet(cs, tt)|, i + 1, k) else Backtrack(k))
  {
    if i < |x.s| { ClassifyMeaning(cs, x.s[i]); }
    if Classify(cs).Single? { CharMeaning(x, p, Classify(cs).c, tt, i, k); }
    else { Do(x, p, CodeSet(cs, tt), i, k); }
  }

  /** The test in front of a pattern was not passed, so the pattern fails. */
  lemma MissedTest(t: Tree, g: Grammar, s: Subject, i: nat, f: nat)
    requires EnvOK(g) && Closed(t, g) && i <= |s|
    requires HeadFail(t, g) || !GetFirst(t, g, FullSet).e
    requires !(i < |s| && s[i] in GetFirst(t, g, FullSet).cs)
    ensures !Eval(t, g, s, i, f).Match?
  {
    hide Closed, Eval, First, HeadFailIn;
    if HeadFail(t, g) { HeadFailNotEmpty(t, g, FullSet, BUDGET); }
    FirstSound(t, g, FullSet, s, i, f, BUDGET);
    if i < |s| { assert s[i] in FullSet; }
  }

  // One level of the meaning of each construction, and of the checks on it.

  lemma EvalSeq(p1: Tree, p2: Tree, g: Grammar, s: Subject, i: nat, f: nat)
    requires i <= |s| && !Eval(TSeq(p1, p2), g, s, i, f).OutOfFuel?
    ensures f > 0 && !Eval(p1, g, s, i, f - 1).OutOfFuel?
    ensures Eval(TSeq(p1, p2), g, s, i, f) ==
            var r := Eval(p1, g, s, i, f - 1); if r.Match? then Eval(p2, g, s, r.pos, f - 1) else Fail
  {
  }

  lemma EvalChoice(p1: Tree, p2: Tree, g: Grammar, s: Subject, i: nat, f: nat)
    requires i <= |s| && !Eval(TChoice(p1, p2), g, s, i, f).OutOfFuel?
    ensures f > 0 && !Eval(p1, g, s, i, f - 1).OutOfFuel?
    ensures Eval(TChoice(p1, p2), g, s, i, f) ==
            var r := Eval(p1, g, s, i, f - 1); if r.Match? then r else Eval(p2, g, s, i, f - 1)
    ensures p2.TTrue? ==> Eval(p2, g, s, i, f - 1) == Match(i)
  {
  }

  lemma EvalRep(b: Tree, g: Grammar, s: Subject, i: nat, f: nat)
    requires i <= |s| && !Eval(TRep(b), g, s, i, f).OutOfFuel?
    ensures f > 0 && !Eval(b, g, s, i, f - 1).OutOfFuel?
    ensures Eval(TRep(b), g, s, i, f) ==
            var r := Eval(b, g, s, i, f - 1); if r.Match? then Eval(TRep(b), g, s, r.pos, f - 1) else Match(i)
    ensures Eval(TRep(b), g, s, i, f).Match?
  {
    NoFailSound(TRep(b), g, s, i, f, 0);
  }

  lemma EvalPredicate(b: Tree, g: Grammar, s: Subject, i: nat, f: nat)
    requires i <= |s|
    ensures !Eval(TNot(b), g, s, i, f).OutOfFuel? ==>
              && f > 0 && !Eval(b, g, s, i, f - 1).OutOfFuel?
              && Eval(TNot(b), g, s, i, f) == if Eval(b, g, s, i, f - 1).Match? then Fail else Match(i)
    ensures !Eval(TAnd(b), g, s, i, f).OutOfFuel? ==>
              && f > 0 && !Eval(b, g, s, i, f - 1).OutOfFuel?
              && Eval(TAnd(b), g, s, i, f) == if Eval(b, g, s, i, f - 1).Match? then Match(i) else Fail
  {
  }

  lemma EvalGrammar(rs: Grammar, g: Grammar, s: Subject, i: nat, f: nat)
    requires i <= |s| && |rs| > 0 && !Eval(TGrammar(rs), g, s, i, f).OutOfFuel?
    ensures f > 0 && Eval(TGrammar(rs), g, s, i, f) == Eval(rs[0].body, rs, s, i, f - 1)
  {
  }

  lemma EvalCall(k: nat, site: nat, g: Grammar, s: Subject, i: nat, f: nat)
    requires i <= |s| && k < |g| && !Eval(TCall(k, site), g, s, i, f).OutOfFuel?
    ensures f > 0 && Eval(TCall(k, site), g, s, i, f) == Eval(g[k].body, g, s, i, f - 1)
  {
  }

  lemma EvalBehind(n: nat, b: Tree, g: Grammar, s: Subject, i: nat, f: nat)
    requires i <= |s| && !Eval(TBehind(n, b), g, s, i, f).OutOfFuel?
    ensures f > 0 && n <= i ==>
              && !Eval(b, [], s, i - n, f - 1).OutOfFuel?
              && Eval(TBehind(n, b), g, s, i, f) == if Eval(b, [], s, i - n, f - 1).Match? then Match(i) else Fail
    ensures f > 0 && (n > i ==> Eval(TBehind(n, b), g, s, i, f).Fail?)
  {
  }

  ghost predicate Good(t: Tree, g: Grammar) { Closed(t, g) && !CheckLoops(t, g) }

  lemma GoodParts(p: Tree, q: Tree, g: Grammar)
    ensures Good(TSeq(p, q), g) || Good(TChoice(p, q), g) ==> Good(p, g) && Good(q, g)
    ensures Good(TRep(p), g) || Good(TNot(p), g) || Good(TAnd(p), g) ==> Good(p, g)
  {
  }

  lemma BacktrackSaved(pc: int, q: nat, k: Stack)
    ensures Backtrack(Push(Saved(pc, q), k)) == Run(pc, q, k)
    ensures Backtrack(Push(Return(pc), k)) == Backtrack(k)
  {
  }

  /** An unconditional commit after the code of an option makes its end an exit of the option. */
  lemma CommitExit(x: Frame, b: int, n: int, lc: int, k: Stack)
    requires At(x, b, Ins(ICommit(n))) && b + n == lc
    ensures OptExit(x, b, lc, k)
  {
    forall j: nat, q: nat | j <= |x.s| ensures Joins(x, Run(b, j, Push(Saved(lc, q), k)), Run(lc, j, k)) {
      Do(x, b, Ins(ICommit(n)), j, Push(Saved(lc, q), k));
    }
  }

  /** The main lemma.  A match result always agrees with the meaning of the pattern, up to what the
      follow set allows. */
  lemma {:induction false} GenCorrect(x: Frame, p: int, t: Tree, opt: bool, tt: Guard, fl: Charset, i: nat, k: Stack, f: nat)
    requires CanRun(x, p, t, Gen(t, x.g, opt, tt, fl), opt, tt, fl, i, k)
    requires !Eval(t, x.g, x.s, i, f).OutOfFuel?
    ensures Delivers(x, Run(p, i, k), p + |Gen(t, x.g, opt, tt, fl)|, k, opt, fl, Eval(t, x.g, x.s, i, f))
    decreases f, 5
  {
    hide Join, SlotOK, Placed, RuleAt, EnvOK, LaidFrom, First, CheckAux, HeadFailIn, Classify, Backtrack, OptExit, Closed, CheckLoops, Len, GenChoice, GenRep, GenNot, GenAnd, CorrectCalls, CodeSet, CodeChar;
    match t {
      case TSeq(p1, p2) => SeqCorrect(x, p, p1, p2, opt, tt, fl, i, k, f);
      case TChoice(p1, p2) => ChoiceCorrect(x, p, p1, p2, opt, tt, fl, i, k, f);
      case TRep(b) => RepCorrect(x, p, b, opt, tt, fl, i, k, f);
      case TNot(b) => NotCorrect(x, p, b, opt, tt, fl, i, k, f);
      case TAnd(b) => AndCorrect(x, p, b, opt, tt, fl, i, k, f);
      case TBehind(n, b) => BehindCorrect(x, p, n, b, opt, tt, fl, i, k, f);
      case TCall(r, site) => CallCorrect(x, p, r, site, opt, tt, fl, i, k, f);
      case TGrammar(rs) => GrammarCorrect(x, p, rs, opt, tt, fl, i, k, f);
      case _ => LeafCorrect(x, p, t, opt, tt, fl, i, k, f);
    }
  }

  lemma {:induction false} LeafCorrect(x: Frame, p: int, t: Tree, opt: bool, tt: Guard, fl: Charset, i: nat, k: Stack, f: nat)
    requires t.TChar? || t.TSet? || t.TAny? || t.TTrue? || t.TFalse?
    requires CanRun(x, p, t, Gen(t, x.g, opt, tt, fl), opt, tt, fl, i, k)
    requires !Eval(t, x.g, x.s, i, f).OutOfFuel?
    ensures Delivers(x, Run(p, i, k), p + |Gen(t, x.g, opt, tt, fl)|, k, opt, fl, Eval(t, x.g, x.s, i, f))
  {
    hide Join, SlotOK, Placed, RuleAt, EnvOK, First, Backtrack, OptExit, Closed, CheckLoops, CodeSet, CodeChar;
    var e := p + |Gen(t, x.g, opt, tt, fl)|;
    var c := Run(p, i, k);
    match t {
      case TChar(ch) =>
        CharMeaning(x, p, ch, tt, i, k);
        if i < |x.s| && x.s[i] == ch { DeliverEnd(x, c, e, i + 1, k, opt, fl); }
      case TSet(cs) =>
        SetMeaning(x, p, cs, tt, i, k);
        if i < |x.s| && x.s[i] in cs { DeliverEnd(x, c, e, i + 1, k, opt, fl); }
      case TAny =>
        Do(x, p, [IAny], i, k);
        if i < |x.s| { DeliverEnd(x, c, e, i + 1, k, opt, fl); }
      case TTrue =>
        JoinRefl(x.code, x.s, c);
        DeliverEnd(x, c, e, i, k, opt, fl);
      case TFalse => Do(x, p, [IFail], i, k);
    }
  }

  lemma {:induction false} SeqCorrect(x: Frame, p: int, p1: Tree, p2: Tree, opt: bool, tt: Guard, fl: Charset, i: nat, k: Stack, f: nat)
    requires CanRun(x, p, TSeq(p1, p2), SeqCode(p1, p2, x.g, opt, tt, fl), opt, tt, fl, i, k)
    requires !Eval(TSeq(p1, p2), x.g, x.s, i, f).OutOfFuel?
    ensures Delivers(x, Run(p, i, k), p + |SeqCode(p1, p2, x.g, opt, tt, fl)|, k, opt, fl, Eval(TSeq(p1, p2), x.g, x.s, i, f))
    decreases f, 4
  {
    hide Join, SlotOK, Placed, RuleAt, EnvOK, LaidFrom, First, CheckAux, HeadFailIn, Classify, Gen, Eval, Backtrack, OptExit, Closed, CheckLoops, Len;
    var fl1, tt2 := SeqFollow(p1, p2, x.g, fl), SeqGuard(p1, x.g, tt);
    var c1, c2 := Gen(p1, x.g, false, tt, fl1), Gen(p2, x.g, opt, tt2, fl);
    GoodParts(p1, p2, x.g);
    Split(x, p, c1, c2);
    EvalSeq(p1, p2, x.g, x.s, i, f);
    GenCorrect(x, p, p1, false, tt, fl1, i, k, f - 1);
    var r1 := Eval(p1, x.g, x.s, i, f - 1);
    if r1.Match? {
      var m := r1.pos;
      if Joins(x, Run(p, i, k), Run(p + |c1|, m, k)) {
        GuardStays(p1, x.g, tt, x.s, i, f - 1);
        GenCorrect(x, p + |c1|, p2, opt, tt2, fl, m, k, f - 1);
        DeliverFrom(x, Run(p, i, k), Run(p + |c1|, m, k), p + |c1| + |c2|, k, opt, fl, Eval(p2, x.g, x.s, m, f - 1));
      } else {
        assert x.s[m] in FullSet;
        FirstSound(p2, x.g, fl, x.s, m, f - 1, BUDGET);
      }
    }
  }

  ghost function SeqCode(p1: Tree, p2: Tree, g: Grammar, opt: bool, tt: Guard, fl: Charset): Code
  {
    Gen(p1, g, false, tt, SeqFollow(p1, p2, g, fl)) + Gen(p2, g, opt, SeqGuard(p1, g, tt), fl)
  }

  /** A test still protects the second pattern when the first consumes nothing. */
  lemma GuardStays(p1: Tree, g: Grammar, tt: Guard, s: Subject, i: nat, f: nat)
    requires i <= |s| && GuardHolds(tt, s, i) && Eval(p1, g, s, i, f).Match?
    ensures GuardHolds(SeqGuard(p1, g, tt), s, Eval(p1, g, s, i, f).pos)
  {
    hide Eval, FixedLen;
    if Len(p1, g) == 0 { FixedLenSound(p1, g, {}, s, i, f); }
  }

  lemma {:induction false} ChoiceCorrect(x: Frame, p: int, p1: Tree, p2: Tree, opt: bool, tt: Guard, fl: Charset, i: nat, k: Stack, f: nat)
    requires CanRun(x, p, TChoice(p1, p2), GenChoice(p1, p2, x.g, opt, fl), opt, tt, fl, i, k)
    requires !Eval(TChoice(p1, p2), x.g, x.s, i, f).OutOfFuel?
    ensures Delivers(x, Run(p, i, k), p + |GenChoice(p1, p2, x.g, opt, fl)|, k, opt, fl, Eval(TChoice(p1, p2), x.g, x.s, i, f))
    decreases f, 4
  {
    hide Join, Placed, RuleAt, EnvOK, Gen, GenChoice, Eval, OptExit, Closed, CheckLoops;
    if TestedChoice(p1, p2, x.g, fl) { TestedChoiceCorrect(x, p, p1, p2, opt, tt, fl, i, k, f); }
    else if opt && p2.TTrue? { OptionCorrect(x, p, p1, tt, fl, i, k, f); }
    else { PlainChoiceCorrect(x, p, p1, p2, opt, tt, fl, i, k, f); }
  }

  lemma {:induction false} TestedChoiceCorrect(x: Frame, p: int, p1: Tree, p2: Tree, opt: bool, tt: Guard, fl: Charset, i: nat, k: Stack, f: nat)
    requires CanRun(x, p, TChoice(p1, p2), GenChoice(p1, p2, x.g, opt, fl), opt, tt, fl, i, k)
    requires TestedChoice(p1, p2, x.g, fl)
    requires !Eval(TChoice(p1, p2), x.g, x.s, i, f).OutOfFuel?
    ensures Delivers(x, Run(p, i, k), p + |GenChoice(p1, p2, x.g, opt, fl)|, k, opt, fl, Eval(TChoice(p1, p2), x.g, x.s, i, f))
    decreases f, 0
  {
    hide TestCode, TestLen, TestGuard, Pads, Join, SlotOK, Placed, RuleAt, EnvOK, LaidFrom, First, CheckAux, HeadFailIn, Classify, Gen, Eval, Backtrack, OptExit, Closed, CheckLoops, Len;
    var f1 := GetFirst(p1, x.g, FullSet);
    var fs := Firsts(f1.cs, false);
    var c1, c2 := Gen(p1, x.g, false, TestGuard(fs), fl), Gen(p2, x.g, opt, None, fl);
    var jmp := if p2.TTrue? then [] else Ins(IJmp(2 + |c2|));
    var off := TestLen(fs) + |c1| + |jmp|;
    var e, m := p + off + |c2|, p + TestLen(fs);
    GoodParts(p1, p2, x.g);
    Split4(x, p, TestCode(fs, off), c1, jmp, c2);
    TestMeaning(x, p, fs, off, i, k);
    EvalChoice(p1, p2, x.g, x.s, i, f);
    var r1 := Eval(p1, x.g, x.s, i, f - 1);
    if i < |x.s| && x.s[i] in fs.cs {
      GenCorrect(x, m, p1, false, TestGuard(fs), fl, i, k, f - 1);
      DeliverFrom(x, Run(p, i, k), Run(m, i, k), m + |c1|, k, false, fl, r1);
      if r1.Match? {
        if Joins(x, Run(p, i, k), Run(m + |c1|, r1.pos, k)) {
          SkipSecond(x, m + |c1|, p2, c2, opt, fl, r1.pos, k);
          Trans(x, Run(p, i, k), Run(m + |c1|, r1.pos, k), Run(e, r1.pos, k));
          DeliverEnd(x, Run(p, i, k), e, r1.pos, k, opt, fl);
        } else {
          assert x.s[r1.pos] in FullSet;
        }
      } else {
        TestedButFailed(p1, p2, x.g, fl, x.s, i, f - 1);
        assert x.s[i] in FullSet;
      }
    } else {
      MissedTest(p1, x.g, x.s, i, f - 1);
      GenCorrect(x, p + off, p2, opt, None, fl, i, k, f - 1);
      DeliverFrom(x, Run(p, i, k), Run(p + off, i, k), e, k, opt, fl, Eval(p2, x.g, x.s, i, f - 1));
    }
  }

  /** After the first alternative, control skips the second. */
  lemma SkipSecond(x: Frame, b: int, p2: Tree, c2: Code, opt: bool, fl: Charset, j: nat, k: Stack)
    requires c2 == Gen(p2, x.g, opt, None, fl) && j <= |x.s|
    requires At(x, b, if p2.TTrue? then [] else Ins(IJmp(2 + |c2|)))
    ensures Joins(x, Run(b, j, k), Run(b + (if p2.TTrue? then 0 else 2 + |c2|), j, k))
    ensures p2.TTrue? ==> c2 == []
  {
    hide Join, SlotOK, Placed, Gen, Pads, GetFirst, GenChoice, GenRep, GenNot, GenAnd, RulesCode;
    if p2.TTrue? {
      JoinRefl(x.code, x.s, Run(b, j, k));
      GenTrue(p2, c2, x.g, opt, fl);
    } else {
      Do(x, b, Ins(IJmp(2 + |c2|)), j, k);
    }
  }

  /** The next character selects the first alternative, which fails; then the second one cannot
      match anything that the follow set would accept. */
  lemma TestedButFailed(p1: Tree, p2: Tree, g: Grammar, fl: Charset, s: Subject, i: nat, f: nat)
    requires EnvOK(g) && Closed(p1, g) && Closed(p2, g) && TestedChoice(p1, p2, g, fl)
    requires i < |s| && s[i] in GetFirst(p1, g, FullSet).cs && Eval(p1, g, s, i, f).Fail?
    ensures Eval(p2, g, s, i, f).Match? ==> Eval(p2, g, s, i, f).pos == i && s[i] !in fl
  {
    hide Eval, First, HeadFailIn, Closed;
    if HeadFail(p1, g) { HeadFailSound(p1, g, s, i, f, BUDGET); }
    FirstSound(p2, g, fl, s, i, f, BUDGET);
  }

  lemma {:induction false} OptionCorrect(x: Frame, p: int, p1: Tree, tt: Guard, fl: Charset, i: nat, k: Stack, f: nat)
    requires CanRun(x, p, TChoice(p1, TTrue), GenChoice(p1, TTrue, x.g, true, fl), true, tt, fl, i, k)
    requires !TestedChoice(p1, TTrue, x.g, fl)
    requires !Eval(TChoice(p1, TTrue), x.g, x.s, i, f).OutOfFuel?
    ensures Delivers(x, Run(p, i, k), p + |GenChoice(p1, TTrue, x.g, true, fl)|, k, true, fl, Eval(TChoice(p1, TTrue), x.g, x.s, i, f))
    decreases f, 0
  {
    hide Join, SlotOK, Placed, RuleAt, EnvOK, LaidFrom, First, CheckAux, HeadFailIn, Classify, Gen, Eval, Backtrack, OptExit, Closed, CheckLoops, Len;
    var c1 := Gen(p1, x.g, true, None, FullSet);
    GoodParts(p1, TTrue, x.g);
    Split(x, p, Ins(IPartialCommit(2)), c1);
    Do(x, p, Ins(IPartialCommit(2)), i, k);
    EvalChoice(p1, TTrue, x.g, x.s, i, f);
    var k1 := Push(Saved(k.top.pc, i), k.rest);
    BacktrackSaved(k.top.pc, i, k.rest);
    GenCorrect(x, p + 2, p1, true, None, FullSet, i, k1, f - 1);
    var r1 := Eval(p1, x.g, x.s, i, f - 1);
    if r1.Match? { Trans(x, Run(p, i, k), Run(p + 2, i, k1), Run(k.top.pc, r1.pos, k.rest)); }
    else { Trans(x, Run(p, i, k), Run(p + 2, i, k1), Run(k.top.pc, i, k.rest)); }
  }

  /** The first alternative succeeds past the second one, or fails at the beginning of the second one. */
  lemma {:induction false} PlainFirst(x: Frame, p: int, p1: Tree, p2: Tree, opt: bool, fl: Charset, i: nat, k: Stack, f: nat)
    requires FrameOK(x) && Good(p1, x.g) && i <= |x.s| && !TestedChoice(p1, p2, x.g, fl) && !(opt && p2.TTrue?)
    requires At(x, p, GenChoice(p1, p2, x.g, opt, fl)) && !Eval(p1, x.g, x.s, i, f).OutOfFuel?
    ensures var e, r1 := p + |GenChoice(p1, p2, x.g, opt, fl)|, Eval(p1, x.g, x.s, i, f);
            var c2 := Gen(p2, x.g, opt, None, fl);
            At(x, e - |c2|, c2) && Joins(x, Run(p, i, k), if r1.Match? then Run(e, r1.pos, k) else Run(e - |c2|, i, k))
    decreases f, 7
  {
    hide TestCode, TestLen, TestGuard, Pads, Join, SlotOK, Placed, FrameOK, First, CheckAux, HeadFail, Classify, Gen, Eval, Backtrack, Closed, CheckLoops, Len, TestedChoice, GetFirst;
    var f1 := GetFirst(p1, x.g, FullSet);
    var c1, c2 := Gen(p1, x.g, p2.TTrue?, TestGuard(f1), FullSet), Gen(p2, x.g, opt, None, fl);
    var off := TestLen(f1) + 2 + |c1| + 2;
    var choice, commit := Ins(IChoice(2 + |c1| + 2)), Ins(ICommit(2 + |c2|));
    Split5(x, p, TestCode(f1, off), choice, c1, commit, c2);
    TestMeaning(x, p, f1, off, i, k);
    var a, l1, r1 := p + TestLen(f1), p + off, Eval(p1, x.g, x.s, i, f);
    if f1.e || (i < |x.s| && x.s[i] in f1.cs) {
      FirstUnderChoice(x, a, p1, p2, c2, opt, TestGuard(f1), fl, i, k, f);
      Trans(x, Run(p, i, k), Run(a, i, k), if r1.Match? then Run(l1 + |c2|, r1.pos, k) else Run(l1, i, k));
    } else {
      FrameEnv(x);
      MissedTest(p1, x.g, x.s, i, f);
    }
  }

  lemma FrameEnv(x: Frame)
    requires FrameOK(x)
    ensures EnvOK(x.g)
  {
  }

  lemma {:induction false} PlainChoiceCorrect(x: Frame, p: int, p1: Tree, p2: Tree, opt: bool, tt: Guard, fl: Charset, i: nat, k: Stack, f: nat)
    requires CanRun(x, p, TChoice(p1, p2), GenChoice(p1, p2, x.g, opt, fl), opt, tt, fl, i, k)
    requires !TestedChoice(p1, p2, x.g, fl) && !(opt && p2.TTrue?)
    requires !Eval(TChoice(p1, p2), x.g, x.s, i, f).OutOfFuel?
    ensures Delivers(x, Run(p, i, k), p + |GenChoice(p1, p2, x.g, opt, fl)|, k, opt, fl, Eval(TChoice(p1, p2), x.g, x.s, i, f))
    decreases f, 2
  {
    hide GenChoice, Join, SlotOK, Placed, FrameOK, Gen, Eval, Backtrack, OptExit, Closed, CheckLoops, TestedChoice, At, Joins;
    GoodParts(p1, p2, x.g);
    EvalChoice(p1, p2, x.g, x.s, i, f);
    PlainFirst(x, p, p1, p2, opt, fl, i, k, f - 1);
    var e, r1, l1 := p + |GenChoice(p1, p2, x.g, opt, fl)|, Eval(p1, x.g, x.s, i, f - 1), p + |GenChoice(p1, p2, x.g, opt, fl)| - |Gen(p2, x.g, opt, None, fl)|;
    if r1.Match? {
      DeliverEnd(x, Run(p, i, k), e, r1.pos, k, opt, fl);
    } else {
      GenCorrect(x, l1, p2, opt, None, fl, i, k, f - 1);
      DeliverFrom(x, Run(p, i, k), Run(l1, i, k), e, k, opt, fl, Eval(p2, x.g, x.s, i, f - 1));
    }
  }

  /** The first alternative, run under its choice and followed by its commit. */
  lemma {:induction false} FirstUnderChoice(x: Frame, a: int, p1: Tree, p2: Tree, c2: Code, opt: bool, tt: Guard, fl: Charset, i: nat, k: Stack, f: nat)
    requires FrameOK(x) && Good(p1, x.g) && i <= |x.s| && GuardHolds(tt, x.s, i)
    requires c2 == Gen(p2, x.g, opt, None, fl)
    requires At(x, a, Ins(IChoice(2 + |Gen(p1, x.g, p2.TTrue?, tt, FullSet)| + 2)))
    requires At(x, a + 2, Gen(p1, x.g, p2.TTrue?, tt, FullSet))
    requires At(x, a + 2 + |Gen(p1, x.g, p2.TTrue?, tt, FullSet)|, Ins(ICommit(2 + |c2|)))
    requires !Eval(p1, x.g, x.s, i, f).OutOfFuel?
    ensures var l1 := a + 2 + |Gen(p1, x.g, p2.TTrue?, tt, FullSet)| + 2;
            var r1 := Eval(p1, x.g, x.s, i, f);
            Joins(x, Run(a, i, k), if r1.Match? then Run(l1 + |c2|, r1.pos, k) else Run(l1, i, k))
    decreases f, 6
  {
    hide Join, SlotOK, Placed, RuleAt, EnvOK, LaidFrom, First, CheckAux, HeadFailIn, Classify, Gen, Eval, Backtrack, OptExit, Closed, CheckLoops, Len;
    var c1 := Gen(p1, x.g, p2.TTrue?, tt, FullSet);
    var b, l1 := a + 2 + |c1|, a + 2 + |c1| + 2;
    var k1 := Push(Saved(l1, i), k);
    var r1 := Eval(p1, x.g, x.s, i, f);
    BacktrackSaved(l1, i, k);
    GenTrue(p2, c2, x.g, opt, fl);
    if p2.TTrue? { CommitExit(x, b, 2, l1, k); }
    Do(x, a, Ins(IChoice(2 + |c1| + 2)), i, k);
    GenCorrect(x, a + 2, p1, p2.TTrue?, tt, FullSet, i, k1, f);
    DeliverFrom(x, Run(a, i, k), Run(a + 2, i, k1), b, k1, p2.TTrue?, FullSet, r1);
    if r1.Match? && !p2.TTrue? {
      Exactly(x, Run(a, i, k), b, k1, r1.pos);
      Do(x, b, Ins(ICommit(2 + |c2|)), r1.pos, k1);
      Trans(x, Run(a, i, k), Run(b, r1.pos, k1), Run(l1 + |c2|, r1.pos, k));
    }
  }

  lemma GenTrue(p2: Tree, c2: Code, g: Grammar, opt: bool, fl: Charset)
    requires c2 == Gen(p2, g, opt, None, fl)
    ensures p2.TTrue? ==> c2 == []
  {
  }

  lemma {:induction false} RepCorrect(x: Frame, p: int, b: Tree, opt: bool, tt: Guard, fl: Charset, i: nat, k: Stack, f: nat)
    requires CanRun(x, p, TRep(b), GenRep(b, x.g, opt, fl), opt, tt, fl, i, k)
    requires !Eval(TRep(b), x.g, x.s, i, f).OutOfFuel?
    ensures Delivers(x, Run(p, i, k), p + |GenRep(b, x.g, opt, fl)|, k, opt, fl, Eval(TRep(b), x.g, x.s, i, f))
    decreases f, 4
  {
    hide Join, Placed, RuleAt, EnvOK, Gen, Eval, OptExit, Closed, CheckLoops, Backtrack;
    if ToCharset(b).Some? {
      var cs := ToCharset(b).value;
      SpanMeaning(b, x.g, x.s, i, f);
      Do(x, p, Ins(ISpan(cs)), i, k);
      DeliverEnd(x, Run(p, i, k), p + CHARSETINSTSIZE, SpanEnd(cs, x.s, i), k, opt, fl);
    } else if TestedRep(b, x.g, fl) {
      TestedRepCorrect(x, p, b, opt, tt, fl, i, k, f);
    } else {
      PlainRepCorrect(x, p, b, opt, tt, fl, i, k, f);
    }
  }

  /** The next character selects the body, which fails; then nothing that follows accepts that character. */
  lemma RepFailed(b: Tree, g: Grammar, fl: Charset, s: Subject, i: nat, f: nat)
    requires EnvOK(g) && Closed(b, g) && TestedRep(b, g, fl)
    requires i < |s| && s[i] in GetFirst(b, g, FullSet).cs && Eval(b, g, s, i, f).Fail?
    ensures s[i] !in fl
  {
    hide Eval, First, HeadFailIn, Closed;
    if HeadFail(b, g) { HeadFailSound(b, g, s, i, f, BUDGET); }
  }

  lemma {:induction false} TestedRepCorrect(x: Frame, p: int, b: Tree, opt: bool, tt: Guard, fl: Charset, i: nat, k: Stack, f: nat)
    requires CanRun(x, p, TRep(b), GenRep(b, x.g, opt, fl), opt, tt, fl, i, k)
    requires TestedRep(b, x.g, fl) && ToCharset(b).None?
    requires !Eval(TRep(b), x.g, x.s, i, f).OutOfFuel?
    ensures Delivers(x, Run(p, i, k), p + |GenRep(b, x.g, opt, fl)|, k, opt, fl, Eval(TRep(b), x.g, x.s, i, f))
    decreases f, 0
  {
    hide TestCode, TestLen, TestGuard, Pads, Join, SlotOK, Placed, RuleAt, EnvOK, LaidFrom, First, CheckAux, HeadFailIn, Classify, Gen, Eval, Backtrack, OptExit, Closed, CheckLoops, Len;
    var fs := Firsts(GetFirst(b, x.g, FullSet).cs, false);
    var c := Gen(b, x.g, false, TestGuard(fs), FullSet);
    var off := TestLen(fs) + |c| + 2;
    var jmp := Ins(IJmp(-(TestLen(fs) + |c|)));
    var m, e := p + TestLen(fs), p + off;
    GoodParts(b, TTrue, x.g);
    Split3(x, p, TestCode(fs, off), c, jmp);
    TestMeaning(x, p, fs, off, i, k);
    EvalRep(b, x.g, x.s, i, f);
    var r1 := Eval(b, x.g, x.s, i, f - 1);
    if i < |x.s| && x.s[i] in fs.cs {
      GenCorrect(x, m, b, false, TestGuard(fs), FullSet, i, k, f - 1);
      DeliverFrom(x, Run(p, i, k), Run(m, i, k), m + |c|, k, false, FullSet, r1);
      if r1.Match? {
        Exactly(x, Run(p, i, k), m + |c|, k, r1.pos);
        Do(x, m + |c|, jmp, r1.pos, k);
        Trans(x, Run(p, i, k), Run(m + |c|, r1.pos, k), Run(p, r1.pos, k));
        RepCorrect(x, p, b, opt, None, fl, r1.pos, k, f - 1);
        DeliverFrom(x, Run(p, i, k), Run(p, r1.pos, k), e, k, opt, fl, Eval(TRep(b), x.g, x.s, r1.pos, f - 1));
      } else {
        RepFailed(b, x.g, fl, x.s, i, f - 1);
        assert x.s[i] in FullSet;
      }
    } else {
      MissedTest(b, x.g, x.s, i, f - 1);
      DeliverEnd(x, Run(p, i, k), e, i, k, opt, fl);
    }
  }

  /** The loop of a repetition over a choice: it ends by using up that choice. */
  lemma {:induction false} LoopCorrect(x: Frame, l1: int, b: Tree, lc: int, i: nat, k: Stack, f: nat)
    requires FrameOK(x) && Good(b, x.g) && i <= |x.s|
    requires At(x, l1, Gen(b, x.g, false, None, FullSet))
    requires At(x, l1 + |Gen(b, x.g, false, None, FullSet)|, Ins(IPartialCommit(-|Gen(b, x.g, false, None, FullSet)|)))
    requires !Eval(TRep(b), x.g, x.s, i, f).OutOfFuel?
    ensures Eval(TRep(b), x.g, x.s, i, f).Match?
    ensures Joins(x, Run(l1, i, Push(Saved(lc, i), k)), Run(lc, Eval(TRep(b), x.g, x.s, i, f).pos, k))
    decreases f, 0, 0
  {
    hide Join, SlotOK, Placed, RuleAt, EnvOK, LaidFrom, First, CheckAux, HeadFailIn, Classify, Gen, Eval, Backtrack, OptExit, Closed, CheckLoops, Len;
    var c := Gen(b, x.g, false, None, FullSet);
    var k1 := Push(Saved(lc, i), k);
    BacktrackSaved(lc, i, k);
    EvalRep(b, x.g, x.s, i, f);
    GenCorrect(x, l1, b, false, None, FullSet, i, k1, f - 1);
    var r1 := Eval(b, x.g, x.s, i, f - 1);
    if r1.Match? {
      var j := r1.pos;
      Exactly(x, Run(l1, i, k1), l1 + |c|, k1, j);
      Do(x, l1 + |c|, Ins(IPartialCommit(-|c|)), j, k1);
      Trans(x, Run(l1, i, k1), Run(l1 + |c|, j, k1), Run(l1, j, Push(Saved(lc, j), k)));
      LoopCorrect(x, l1, b, lc, j, k, f - 1);
      Trans(x, Run(l1, i, k1), Run(l1, j, Push(Saved(lc, j), k)), Run(lc, Eval(TRep(b), x.g, x.s, i, f).pos, k));
    }
  }

  /** A repetition starts on a choice of its own, or on the one of the option it ends. */
  lemma EnterLoop(x: Frame, a: int, opt: bool, n: int, i: nat, k: Stack)
    requires At(x, a, Ins(if opt then IPartialCommit(2) else IChoice(n))) && i <= |x.s|
    requires opt ==> k.Push? && k.top.Saved?
    ensures Joins(x, Run(a, i, k), Run(a + 2, i, if opt then Push(Saved(k.top.pc, i), k.rest) else Push(Saved(a + n, i), k)))
  {
    hide Join, Placed;
    Do(x, a, Ins(if opt then IPartialCommit(2) else IChoice(n)), i, k);
  }

  /** The loop with the instruction that enters it. */
  lemma {:induction false} PlainLoopRuns(x: Frame, a: int, b: Tree, opt: bool, i: nat, k: Stack, f: nat)
    requires FrameOK(x) && Good(b, x.g) && i <= |x.s| && (opt ==> k.Push? && k.top.Saved?)
    requires At(x, a, Ins(if opt then IPartialCommit(2) else IChoice(2 + |Gen(b, x.g, false, None, FullSet)| + 2)))
    requires At(x, a + 2, Gen(b, x.g, false, None, FullSet))
    requires At(x, a + 2 + |Gen(b, x.g, false, None, FullSet)|, Ins(IPartialCommit(-|Gen(b, x.g, false, None, FullSet)|)))
    requires !Eval(TRep(b), x.g, x.s, i, f).OutOfFuel?
    ensures Eval(TRep(b), x.g, x.s, i, f).Match?
    ensures var e := a + 2 + |Gen(b, x.g, false, None, FullSet)| + 2;
            var lc, rest := if opt then k.top.pc else e, if opt then k.rest else k;
            Joins(x, Run(a, i, k), Run(lc, Eval(TRep(b), x.g, x.s, i, f).pos, rest))
    decreases f, 0, 1
  {
    hide Pads, Ins, Join, SlotOK, Placed, RuleAt, EnvOK, LaidFrom, First, CheckAux, HeadFailIn, Gen, Eval, Backtrack, Closed, CheckLoops;
    var n := |Gen(b, x.g, false, None, FullSet)|;
    var lc, rest := if opt then k.top.pc else a + 2 + n + 2, if opt then k.rest else k;
    EnterLoop(x, a, opt, 2 + n + 2, i, k);
    LoopCorrect(x, a + 2, b, lc, i, rest, f);
    Trans(x, Run(a, i, k), Run(a + 2, i, Push(Saved(lc, i), rest)), Run(lc, Eval(TRep(b), x.g, x.s, i, f).pos, rest));
  }

  lemma {:induction false} PlainRepCorrect(x: Frame, p: int, b: Tree, opt: bool, tt: Guard, fl: Charset, i: nat, k: Stack, f: nat)
    requires CanRun(x, p, TRep(b), GenRep(b, x.g, opt, fl), opt, tt, fl, i, k)
    requires !TestedRep(b, x.g, fl) && ToCharset(b).None?
    requires !Eval(TRep(b), x.g, x.s, i, f).OutOfFuel?
    ensures Delivers(x, Run(p, i, k), p + |GenRep(b, x.g, opt, fl)|, k, opt, fl, Eval(TRep(b), x.g, x.s, i, f))
    decreases f, 1
  {
    hide FrameOK, HeadFail, ToCharset, TestedRep, GetFirst, TestIns, GuardHolds, Joins, TestCode, TestLen, TestGuard, Pads, Join, SlotOK, Placed, RuleAt, EnvOK, LaidFrom, First, CheckAux, HeadFailIn, Classify, Gen, Eval, Backtrack, OptExit, Closed, CheckLoops, Len;
    var f1 := GetFirst(b, x.g, FullSet);
    var c := Gen(b, x.g, false, None, FullSet);
    var off := TestLen(f1) + 2 + |c| + 2;
    var a, e := p + TestLen(f1), p + off;
    GoodParts(b, TTrue, x.g);
    Split4(x, p, TestCode(f1, off), Ins(if opt then IPartialCommit(2) else IChoice(2 + |c| + 2)), c, Ins(IPartialCommit(-|c|)));
    TestMeaning(x, p, f1, off, i, k);
    EvalRep(b, x.g, x.s, i, f);
    if f1.e || (i < |x.s| && x.s[i] in f1.cs) {
      PlainLoopRuns(x, a, b, opt, i, k, f);
      var lc, rest := if opt then k.top.pc else e, if opt then k.rest else k;
      Trans(x, Run(p, i, k), Run(a, i, k), Run(lc, Eval(TRep(b), x.g, x.s, i, f).pos, rest));
    } else {
      FrameEnv(x);
      MissedTest(b, x.g, x.s, i, f - 1);
      DeliverEnd(x, Run(p, i, k), e, i, k, opt, fl);
    }
  }

  lemma {:induction false} NotCorrect(x: Frame, p: int, b: Tree, opt: bool, tt: Guard, fl: Charset, i: nat, k: Stack, f: nat)
    requires CanRun(x, p, TNot(b), GenNot(b, x.g), opt, tt, fl, i, k)
    requires !Eval(TNot(b), x.g, x.s, i, f).OutOfFuel?
    ensures Delivers(x, Run(p, i, k), p + |GenNot(b, x.g)|, k, opt, fl, Eval(TNot(b), x.g, x.s, i, f))
    decreases f, 4
  {
    hide Join, Placed, RuleAt, EnvOK, Gen, GenNot, Eval, OptExit, Closed, CheckLoops, Backtrack;
    EvalPredicate(b, x.g, x.s, i, f);
    if HeadFail(b, x.g) { TestedNotRuns(x, p, b, i, k, f - 1); } else { PlainNotRuns(x, p, b, i, k, f - 1); }
    if Eval(b, x.g, x.s, i, f - 1).Fail? { DeliverEnd(x, Run(p, i, k), p + |GenNot(b, x.g)|, i, k, opt, fl); }
  }

  lemma {:induction false} TestedNotRuns(x: Frame, p: int, b: Tree, i: nat, k: Stack, f: nat)
    requires FrameOK(x) && Good(TNot(b), x.g) && i <= |x.s| && HeadFail(b, x.g) && At(x, p, GenNot(b, x.g))
    requires !Eval(b, x.g, x.s, i, f).OutOfFuel?
    ensures Joins(x, Run(p, i, k), if Eval(b, x.g, x.s, i, f).Match? then Backtrack(k) else Run(p + |GenNot(b, x.g)|, i, k))
  {
    hide Join, SlotOK, Placed, RuleAt, EnvOK, LaidFrom, First, CheckAux, HeadFailIn, Classify, Gen, Eval, Backtrack, OptExit, Closed, CheckLoops, Len;
    var fs := GetFirst(b, x.g, FullSet);
    HeadFailSound(b, x.g, x.s, i, f, BUDGET);
    HeadFailNotEmpty(b, x.g, FullSet, BUDGET);
    Split(x, p, TestCode(fs, TestLen(fs) + 1), [IFail]);
    TestMeaning(x, p, fs, TestLen(fs) + 1, i, k);
    if i < |x.s| && x.s[i] in fs.cs {
      Do(x, p + TestLen(fs), [IFail], i, k);
      Trans(x, Run(p, i, k), Run(p + TestLen(fs), i, k), Backtrack(k));
    }
  }

  lemma {:induction false} PlainNotRuns(x: Frame, p: int, b: Tree, i: nat, k: Stack, f: nat)
    requires FrameOK(x) && Good(TNot(b), x.g) && i <= |x.s| && !HeadFail(b, x.g) && At(x, p, GenNot(b, x.g))
    requires !Eval(b, x.g, x.s, i, f).OutOfFuel?
    ensures Joins(x, Run(p, i, k), if Eval(b, x.g, x.s, i, f).Match? then Backtrack(k) else Run(p + |GenNot(b, x.g)|, i, k))
    decreases f, 6
  {
    hide TestCode, TestLen, TestGuard, Pads, HeadFail, GetFirst, Join, SlotOK, Placed, RuleAt, EnvOK, LaidFrom, First, CheckAux, HeadFailIn, Classify, Gen, Eval, Backtrack, OptExit, Closed, CheckLoops, Len;
    var fs := GetFirst(b, x.g, FullSet);
    var c := Gen(b, x.g, false, None, FullSet);
    var off := TestLen(fs) + 2 + |c| + 1;
    var choice := Ins(IChoice(2 + |c| + 1));
    var a, e := p + TestLen(fs), p + off;
    var q, k1, r1 := a + 2 + |c|, Push(Saved(e, i), k), Eval(b, x.g, x.s, i, f);
    GoodParts(b, TTrue, x.g);
    Split4(x, p, TestCode(fs, off), choice, c, [IFailTwice]);
    TestMeaning(x, p, fs, off, i, k);
    BacktrackSaved(e, i, k);
    if fs.e || (i < |x.s| && x.s[i] in fs.cs) {
      Do(x, a, choice, i, k);
      Trans(x, Run(p, i, k), Run(a, i, k), Run(a + 2, i, k1));
      GenCorrect(x, a + 2, b, false, None, FullSet, i, k1, f);
      DeliverFrom(x, Run(p, i, k), Run(a + 2, i, k1), q, k1, false, FullSet, r1);
      if r1.Match? {
        Exactly(x, Run(p, i, k), q, k1, r1.pos);
        Do(x, q, [IFailTwice], r1.pos, k1);
        Trans(x, Run(p, i, k), Run(q, r1.pos, k1), Backtrack(k));
      }
    } else {
      MissedTest(b, x.g, x.s, i, f);
    }
  }

  lemma {:induction false} AndCorrect(x: Frame, p: int, b: Tree, opt: bool, tt: Guard, fl: Charset, i: nat, k: Stack, f: nat)
    requires CanRun(x, p, TAnd(b), GenAnd(b, x.g, tt), opt, tt, fl, i, k)
    requires !Eval(TAnd(b), x.g, x.s, i, f).OutOfFuel?
    ensures Delivers(x, Run(p, i, k), p + |GenAnd(b, x.g, tt)|, k, opt, fl, Eval(TAnd(b), x.g, x.s, i, f))
    decreases f, 4
  {
    hide Join, Placed, RuleAt, EnvOK, Gen, GenAnd, Eval, OptExit, Closed, CheckLoops, Backtrack;
    EvalPredicate(b, x.g, x.s, i, f);
    if 0 <= Len(b, x.g) <= MAXBEHIND { FixedAndRuns(x, p, b, tt, i, k, f - 1); } else { PlainAndRuns(x, p, b, tt, i, k, f - 1); }
    if Eval(b, x.g, x.s, i, f - 1).Match? { DeliverEnd(x, Run(p, i, k), p + |GenAnd(b, x.g, tt)|, i, k, opt, fl); }
  }

  lemma {:induction false} FixedAndRuns(x: Frame, p: int, b: Tree, tt: Guard, i: nat, k: Stack, f: nat)
    requires FrameOK(x) && Good(TAnd(b), x.g) && i <= |x.s| && GuardHolds(tt, x.s, i) && At(x, p, GenAnd(b, x.g, tt))
    requires 0 <= Len(b, x.g) <= MAXBEHIND && !Eval(b, x.g, x.s, i, f).OutOfFuel?
    ensures Joins(x, Run(p, i, k), if Eval(b, x.g, x.s, i, f).Match? then Run(p + |GenAnd(b, x.g, tt)|, i, k) else Backtrack(k))
    decreases f, 6
  {
    hide FrameOK, GuardHolds, GetFirst, Join, SlotOK, Placed, RuleAt, EnvOK, LaidFrom, First, CheckAux, HeadFailIn, Classify, Gen, Eval, Backtrack, OptExit, Closed, CheckLoops, FixedLen;
    var n, c, r1 := Len(b, x.g), Gen(b, x.g, false, tt, FullSet), Eval(b, x.g, x.s, i, f);
    var back := if n > 0 then [IBehind(n)] else [];
    GoodParts(b, TTrue, x.g);
    Split(x, p, c, back);
    GenCorrect(x, p, b, false, tt, FullSet, i, k, f);
    if r1.Match? {
      Exactly(x, Run(p, i, k), p + |c|, k, r1.pos);
      FixedLenSound(b, x.g, {}, x.s, i, f);
      if n > 0 {
        Do(x, p + |c|, back, r1.pos, k);
        Trans(x, Run(p, i, k), Run(p + |c|, r1.pos, k), Run(p + |c| + 1, i, k));
      }
    }
  }

  lemma {:induction false} PlainAndRuns(x: Frame, p: int, b: Tree, tt: Guard, i: nat, k: Stack, f: nat)
    requires FrameOK(x) && Good(TAnd(b), x.g) && i <= |x.s| && GuardHolds(tt, x.s, i) && At(x, p, GenAnd(b, x.g, tt))
    requires !(0 <= Len(b, x.g) <= MAXBEHIND) && !Eval(b, x.g, x.s, i, f).OutOfFuel?
    ensures Joins(x, Run(p, i, k), if Eval(b, x.g, x.s, i, f).Match? then Run(p + |GenAnd(b, x.g, tt)|, i, k) else Backtrack(k))
    decreases f, 6
  {
    hide Join, SlotOK, Placed, RuleAt, EnvOK, LaidFrom, First, CheckAux, HeadFailIn, Classify, Gen, Eval, Backtrack, OptExit, Closed, CheckLoops, Len;
    var c, r1 := Gen(b, x.g, false, tt, FullSet), Eval(b, x.g, x.s, i, f);
    var choice, commit := Ins(IChoice(2 + |c| + 2)), Ins(IBackCommit(3));
    var q, l1 := p + 2 + |c|, p + 2 + |c| + 2;
    var k1 := Push(Saved(l1, i), k);
    GoodParts(b, TTrue, x.g);
    Split4(x, p, choice, c, commit, [IFail]);
    BacktrackSaved(l1, i, k);
    Do(x, p, choice, i, k);
    GenCorrect(x, p + 2, b, false, tt, FullSet, i, k1, f);
    DeliverFrom(x, Run(p, i, k), Run(p + 2, i, k1), q, k1, false, FullSet, r1);
    if r1.Match? {
      Exactly(x, Run(p, i, k), q, k1, r1.pos);
      Do(x, q, commit, r1.pos, k1);
      Trans(x, Run(p, i, k), Run(q, r1.pos, k1), Run(q + 3, i, k));
    } else {
      Do(x, l1, [IFail], i, k);
      Trans(x, Run(p, i, k), Run(l1, i, k), Backtrack(k));
    }
  }

  /** Code without open calls does not depend on the grammar around it. */
  lemma Reframe(x: Frame, g: Grammar, pos: seq<nat>, p: int, seg: Code)
    requires At(x, p, seg) && CallsInto(seg, [])
    ensures At(Frame(x.code, x.s, g, pos), p, seg)
  {
    forall k | 0 <= k < |seg| ensures SlotOK(x.code, pos, p + k, seg[k]) {
      assert SlotOK(x.code, x.pos, p + k, seg[k]);
    }
  }

  ghost function BehindCode(n: nat, b: Tree): Code
  {
    (if n > 0 then [IBehind(n)] else []) + Gen(b, [], false, None, FullSet)
  }

  lemma {:induction false} BehindCorrect(x: Frame, p: int, n: nat, b: Tree, opt: bool, tt: Guard, fl: Charset, i: nat, k: Stack, f: nat)
    requires CanRun(x, p, TBehind(n, b), BehindCode(n, b), opt, tt, fl, i, k)
    requires !Eval(TBehind(n, b), x.g, x.s, i, f).OutOfFuel?
    ensures Delivers(x, Run(p, i, k), p + |BehindCode(n, b)|, k, opt, fl, Eval(TBehind(n, b), x.g, x.s, i, f))
    decreases f, 4
  {
    hide Join, SlotOK, Placed, RuleAt, EnvOK, LaidFrom, First, CheckAux, HeadFailIn, Classify, Gen, Eval, Backtrack, OptExit, Closed, CheckLoops, Len;
    var back, c := if n > 0 then [IBehind(n)] else [], Gen(b, [], false, None, FullSet);
    var m := p + |back|;
    Split(x, p, back, c);
    EvalBehind(n, b, x.g, x.s, i, f);
    GoodBehind(n, b, x.g);
    if n > 0 { Do(x, p, back, i, k); } else { JoinRefl(x.code, x.s, Run(p, i, k)); }
    if n <= i {
      BehindRuns(x, m, n, b, i, k, f - 1);
      var r1 := Eval(b, [], x.s, i - n, f - 1);
      if r1.Match? {
        Trans(x, Run(p, i, k), Run(m, i - n, k), Run(m + |c|, i, k));
        DeliverEnd(x, Run(p, i, k), m + |c|, i, k, opt, fl);
      } else {
        Trans(x, Run(p, i, k), Run(m, i - n, k), Backtrack(k));
      }
    }
  }

  lemma GoodBehind(n: nat, b: Tree, g: Grammar)
    requires Good(TBehind(n, b), g)
    ensures Good(b, []) && Len(b, []) == n
  {
  }

  lemma {:induction false} BehindRuns(x: Frame, m: int, n: nat, b: Tree, i: nat, k: Stack, f: nat)
    requires Good(b, []) && Len(b, []) == n <= i <= |x.s|
    requires At(x, m, Gen(b, [], false, None, FullSet))
    requires !Eval(b, [], x.s, i - n, f).OutOfFuel?
    ensures Joins(x, Run(m, i - n, k),
                  if Eval(b, [], x.s, i - n, f).Match? then Run(m + |Gen(b, [], false, None, FullSet)|, i, k) else Backtrack(k))
    decreases f, 6
  {
    hide Join, SlotOK, Placed, RuleAt, LaidFrom, First, CheckAux, HeadFailIn, Classify, Gen, Eval, Backtrack, OptExit, Closed, CheckLoops, FixedLen;
    var c, y := Gen(b, [], false, None, FullSet), Frame(x.code, x.s, [], []);
    GenFine(b, [], false, None, FullSet);
    Reframe(x, [], [], m, c);
    GenCorrect(y, m, b, false, None, FullSet, i - n, k, f);
    if Eval(b, [], x.s, i - n, f).Match? {
      FixedLenSound(b, [], {}, x.s, i - n, f);
      Exactly(y, Run(m, i - n, k), m + |c|, k, i);
    }
  }

  /** A chain of jumps to a return and the return itself come to the same. */
  lemma {:induction false} ReturnJoin(x: Frame, i: int, n: nat, q: int, j: nat, k: Stack)
    requires JumpsToRet(x.code, i, n) && RetAt(x.code, q) && j <= |x.s|
    ensures Joins(x, Run(q, j, k), Run(i, j, k))
    decreases n
  {
    JoinStep(x.code, x.s, Run(i, j, k));
    JoinSym(x.code, x.s, Run(i, j, k), Step(x.code, x.s, Run(i, j, k)));
    if x.code[i].IRet? {
      JoinStep(x.code, x.s, Run(q, j, k));
      Trans(x, Run(q, j, k), Step(x.code, x.s, Run(q, j, k)), Run(i, j, k));
    } else {
      ReturnJoin(x, i + x.code[i].off, n - 1, q, j, k);
      Trans(x, Run(q, j, k), Run(i + x.code[i].off, j, k), Run(i, j, k));
    }
  }

  lemma {:induction false} CallCorrect(x: Frame, p: int, r: nat, site: nat, opt: bool, tt: Guard, fl: Charset, i: nat, k: Stack, f: nat)
    requires CanRun(x, p, TCall(r, site), Ins(IOpenCall(r)), opt, tt, fl, i, k)
    requires !Eval(TCall(r, site), x.g, x.s, i, f).OutOfFuel?
    ensures Delivers(x, Run(p, i, k), p + 2, k, opt, fl, Eval(TCall(r, site), x.g, x.s, i, f))
    decreases f, 4
  {
    hide Join, SlotOK, RuleAt, EnvOK, Gen, Eval, OptExit, CheckLoops, Backtrack;
    EvalCall(r, site, x.g, x.s, i, f);
    CallSlot(x, p, r);
    CalledRule(x.g, r);
    var r1 := Eval(x.g[r].body, x.g, x.s, i, f - 1);
    if x.code[p].ICall? { CallRuns(x, p, r, i, k, f - 1); } else { TailCallRuns(x, p, r, i, k, f - 1); }
    if r1.Match? { DeliverEnd(x, Run(p, i, k), p + 2, r1.pos, k, opt, fl); }
  }

  lemma CallSlot(x: Frame, p: int, r: nat)
    requires At(x, p, Ins(IOpenCall(r))) && r < |x.pos|
    ensures 0 <= p < |x.code|
    ensures || x.code[p] == ICall(x.pos[r] - p)
            || (x.code[p] == IJmp(x.pos[r] - p) && ReturnsFrom(x.code, p + 2))
  {
    assert SlotOK(x.code, x.pos, p + 0, Ins(IOpenCall(r))[0]);
  }

  lemma RuleBounds(x: Frame, r: nat)
    requires r < |x.g| && r < |x.pos| && RuleAt(x, r)
    ensures At(x, x.pos[r], Gen(x.g[r].body, x.g, false, None, FullSet))
    ensures RetAt(x.code, x.pos[r] + |Gen(x.g[r].body, x.g, false, None, FullSet)|)
  {
  }

  lemma {:induction false} CallRuns(x: Frame, p: int, r: nat, i: nat, k: Stack, f: nat)
    requires FrameOK(x) && r < |x.g| && Good(x.g[r].body, x.g) && i <= |x.s|
    requires 0 <= p < |x.code| && x.code[p] == ICall(x.pos[r] - p)
    requires !Eval(x.g[r].body, x.g, x.s, i, f).OutOfFuel?
    ensures var r1 := Eval(x.g[r].body, x.g, x.s, i, f);
            Joins(x, Run(p, i, k), if r1.Match? then Run(p + 2, r1.pos, k) else Backtrack(k))
    decreases f, 6
  {
    hide Join, SlotOK, Placed, RuleAt, EnvOK, LaidFrom, First, CheckAux, HeadFailIn, Classify, Gen, Eval, Backtrack, OptExit, Closed, CheckLoops, Len;
    var c, q, k1 := Run(p, i, k), x.pos[r] + |Gen(x.g[r].body, x.g, false, None, FullSet)|, Push(Return(p + 2), k);
    RuleBounds(x, r);
    BacktrackSaved(p + 2, 0, k);
    JoinStep(x.code, x.s, c);
    GenCorrect(x, x.pos[r], x.g[r].body, false, None, FullSet, i, k1, f);
    var r1 := Eval(x.g[r].body, x.g, x.s, i, f);
    DeliverFrom(x, c, Run(x.pos[r], i, k1), q, k1, false, FullSet, r1);
    if r1.Match? {
      Exactly(x, c, q, k1, r1.pos);
      JoinStep(x.code, x.s, Run(q, r1.pos, k1));
      Trans(x, c, Run(q, r1.pos, k1), Run(p + 2, r1.pos, k));
    }
  }

  lemma {:induction false} TailCallRuns(x: Frame, p: int, r: nat, i: nat, k: Stack, f: nat)
    requires FrameOK(x) && r < |x.g| && Good(x.g[r].body, x.g) && i <= |x.s|
    requires 0 <= p < |x.code| && x.code[p] == IJmp(x.pos[r] - p) && ReturnsFrom(x.code, p + 2)
    requires !Eval(x.g[r].body, x.g, x.s, i, f).OutOfFuel?
    ensures var r1 := Eval(x.g[r].body, x.g, x.s, i, f);
            Joins(x, Run(p, i, k), if r1.Match? then Run(p + 2, r1.pos, k) else Backtrack(k))
    decreases f, 6
  {
    hide Join, SlotOK, Placed, RuleAt, EnvOK, LaidFrom, First, CheckAux, HeadFailIn, Classify, Gen, Eval, Backtrack, OptExit, Closed, CheckLoops, Len;
    var c, q := Run(p, i, k), x.pos[r] + |Gen(x.g[r].body, x.g, false, None, FullSet)|;
    RuleBounds(x, r);
    JoinStep(x.code, x.s, c);
    GenCorrect(x, x.pos[r], x.g[r].body, false, None, FullSet, i, k, f);
    var r1 := Eval(x.g[r].body, x.g, x.s, i, f);
    DeliverFrom(x, c, Run(x.pos[r], i, k), q, k, false, FullSet, r1);
    if r1.Match? {
      Exactly(x, c, q, k, r1.pos);
      var n: nat :| JumpsToRet(x.code, p + 2, n);
      ReturnJoin(x, p + 2, n, q, r1.pos, k);
      Trans(x, c, Run(q, r1.pos, k), Run(p + 2, r1.pos, k));
    }
  }

  /** The grammar's own frame: its rules, at their positions in code that starts at p. */
  ghost function Inner(x: Frame, p: int, rs: Grammar): Frame
  {
    var pos := Positions(rs, rs, 4);
    Frame(x.code, x.s, rs, seq(|pos|, k requires 0 <= k < |pos| => if p < 0 then 0 else p + pos[k]))
  }

  lemma InnerOK(x: Frame, p: nat, rs: Grammar)
    requires FrameOK(x) && Closed(TGrammar(rs), x.g)
    requires At(x, p, CorrectCalls(RawGrammar(rs), Positions(rs, rs, 4), 4))
    ensures FrameOK(Inner(x, p, rs))
  {
    hide LaidFrom, Closed, GenRule, Positions, CorrectCalls, RawGrammar;
    var code, pos, y := CorrectCalls(RawGrammar(rs), Positions(rs, rs, 4), 4), Positions(rs, rs, 4), Inner(x, p, rs);
    FirstRule(rs, x.g);
    GrammarFine(rs, x.g);
    GrammarEmbeds(x, p, code);
    forall k | 0 <= k < |rs| ensures RuleAt(y, k) {
      GrammarSlots(rs, x.g, k);
      PlacedShift(code, x.code, p, pos, pos[k], GenRule(rs[k], rs));
    }
  }

  lemma GrammarEmbeds(x: Frame, p: int, code: Code)
    requires At(x, p, code) && CallsInto(code, [])
    ensures Embeds(code, x.code, p)
  {
    forall y | 0 <= y < |code| ensures 0 <= p + y < |x.code| && x.code[p + y] == code[y] {
      assert SlotOK(x.code, x.pos, p + y, code[y]);
    }
  }

  lemma RawHead(rs: Grammar)
    requires rs != []
    ensures |RawGrammar(rs)| >= 4 && RawGrammar(rs)[0] == ICall(4) && RawGrammar(rs)[2] == IJmp(|RawGrammar(rs)| - 2)
    ensures Positions(rs, rs, 4)[0] == 4
  {
    hide Gen, RulesCode, GenRule;
    RulesUnfold(rs, rs, 4);
    var r := RulesCode(rs, rs);
    assert RawGrammar(rs)[..4] == [ICall(4), Pad, IJmp(2 + |r|), Pad];
  }

  lemma GrammarHead(rs: Grammar)
    requires Closed(TGrammar(rs), [])
    ensures var code := CorrectCalls(RawGrammar(rs), Positions(rs, rs, 4), 4);
            |code| >= 4 && code[0] == ICall(4) && code[2] == IJmp(|code| - 2)
    ensures Positions(rs, rs, 4)[0] == 4
  {
    hide RawGrammar, Positions, LaidFrom, SlotOK, CorrectCalls;
    RawFine(rs, []);
    RawHead(rs);
    CorrectCallsSlots(RawGrammar(rs), Positions(rs, rs, 4), 4);
  }

  ghost function GrammarCode(rs: Grammar): Code
  {
    CorrectCalls(RawGrammar(rs), Positions(rs, rs, 4), 4)
  }

  lemma {:induction false} GrammarCorrect(x: Frame, p: int, rs: Grammar, opt: bool, tt: Guard, fl: Charset, i: nat, k: Stack, f: nat)
    requires CanRun(x, p, TGrammar(rs), GrammarCode(rs), opt, tt, fl, i, k)
    requires !Eval(TGrammar(rs), x.g, x.s, i, f).OutOfFuel?
    ensures Delivers(x, Run(p, i, k), p + |GrammarCode(rs)|, k, opt, fl, Eval(TGrammar(rs), x.g, x.s, i, f))
    decreases f, 4
  {
    hide Join, SlotOK, Placed, RuleAt, EnvOK, LaidFrom, First, CheckAux, HeadFailIn, Classify, Gen, Eval, Backtrack, OptExit, Closed, CheckLoops, Positions, CorrectCalls, RawGrammar;
    var code, c := GrammarCode(rs), Run(p, i, k);
    GrammarIn(x, p, rs);
    EvalGrammar(rs, x.g, x.s, i, f);
    CallRuns(Inner(x, p, rs), p, 0, i, k, f - 1);
    var r1 := Eval(rs[0].body, rs, x.s, i, f - 1);
    if r1.Match? {
      JoinStep(x.code, x.s, Run(p + 2, r1.pos, k));
      Trans(x, c, Run(p + 2, r1.pos, k), Run(p + |code|, r1.pos, k));
      DeliverEnd(x, c, p + |code|, r1.pos, k, opt, fl);
    }
  }

  /** The code of a grammar placed at p: a call of its first rule, and a jump to its end. */
  lemma GrammarIn(x: Frame, p: int, rs: Grammar)
    requires FrameOK(x) && Closed(TGrammar(rs), x.g) && At(x, p, GrammarCode(rs))
    ensures 0 <= p && p + 2 < |x.code| && |rs| > 0
    ensures FrameOK(Inner(x, p, rs)) && Good(rs[0].body, rs)
    ensures x.code[p] == ICall(Inner(x, p, rs).pos[0] - p)
    ensures x.code[p + 2] == IJmp(|GrammarCode(rs)| - 2)
  {
    hide LaidFrom, Positions, CorrectCalls, RawGrammar, RuleAt, Placed;
    assert Closed(TGrammar(rs), []);
    GrammarHead(rs);
    GrammarFine(rs, x.g);
    GrammarEmbeds(x, p, GrammarCode(rs));
    assert GrammarCode(rs)[0] == x.code[p + 0];
    InnerOK(x, p, rs);
    FirstRule(rs, x.g);
  }
}
