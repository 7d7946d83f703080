/** lptree.c, verifyrule and verifygrammar: the check against left recursion, what it promises, and
    the one branch in which the promise is not kept. */
module LpegVerify {
  import opened LpegTree
  import opened LpegAnalysis

  /** `Accepted(nb)` is the value verifyrule returns; the other two are its errors. */
  datatype Verdict =
    | Accepted(nb: bool)
    | LeftRecursive(rule: nat)
    | TooManyLeftCalls

  predicate Repeated(passed: seq<nat>, k: nat)
  {
    exists i, j :: 0 <= j < i < |passed| && passed[i] == k && passed[j] == k
  }

  /** lptree.c, verifyerror: the latest rule that was passed before, if there is one. */
  function VerifyError(passed: seq<nat>): (v: Verdict)
    ensures !v.Accepted?
    ensures v.LeftRecursive? ==> Repeated(passed, v.rule)
    ensures v.TooManyLeftCalls? ==> forall k :: !Repeated(passed, k)
  {
    if passed == [] then TooManyLeftCalls
    else
      var n := |passed| - 1;
      var last := passed[n];
      if last in passed[..n] then
        assert exists j :: 0 <= j < n && passed[j] == last;
        LeftRecursive(last)
      else
        var v := VerifyError(passed[..n]);
        assert v.LeftRecursive? ==> Repeated(passed[..n], v.rule) && Repeated(passed, v.rule);
        assert v.TooManyLeftCalls? ==> forall k | Repeated(passed, k) :: k == last || Repeated(passed[..n], k);
        v
  }

  /** verifyrule, with the rules passed so far.  `repaired` is false for the source; true stands for
      the same check with `nb` kept in the TGrammar case, which the source forgets. */
  ghost function VerifyRule(t: Tree, g: Grammar, passed: seq<nat>, nb: bool, repaired: bool): Verdict
    requires |passed| <= MAXRULES
    decreases MAXRULES - |passed|, t
  {
    match t
    case TChar(_) => Accepted(nb)
    case TSet(_) => Accepted(nb)
    case TAny => Accepted(nb)
    case TFalse => Accepted(nb)
    case TTrue => Accepted(true)
    case TBehind(_, _) => Accepted(true)
    case TNot(p) => VerifyRule(p, g, passed, true, repaired)
    case TAnd(p) => VerifyRule(p, g, passed, true, repaired)
    case TRep(p) => VerifyRule(p, g, passed, true, repaired)
    case TSeq(p1, p2) =>
      var v1 := VerifyRule(p1, g, passed, false, repaired);
      if !v1.Accepted? then v1
      else if !v1.nb then Accepted(nb)
      else VerifyRule(p2, g, passed, nb, repaired)
    case TChoice(p1, p2) =>
      var v1 := VerifyRule(p1, g, passed, nb, repaired);
      if !v1.Accepted? then v1 else VerifyRule(p2, g, passed, v1.nb, repaired)
    case TCall(k, _) =>
      if k >= |g| || |passed| >= MAXRULES then VerifyError(passed)
      else VerifyRule(g[k].body, g, passed + [k], nb, repaired)
    case TGrammar(_) => Accepted(Nullable(t, g) || (repaired && nb))
  }

  ghost predicate Accepts(t: Tree, g: Grammar, repaired: bool)
  {
    VerifyRule(t, g, [], false, repaired).Accepted?
  }

  /** verifygrammar: every used rule passes verifyrule and checkloops. */
  ghost predicate VerifyGrammar(g: Grammar, repaired: bool)
  {
    forall k :: 0 <= k < |g| && g[k].used ==> Accepts(g[k].body, g, repaired) && !CheckLoops(g[k].body, g)
  }

  /** No chain of left calls goes on for ever: the grammar is not left recursive. */
  ghost predicate NotLeftRecursive(g: Grammar)
  {
    forall k :: 0 <= k < |g| && g[k].used ==> exists d :: LeftBounded(g[k].body, g, d)
  }

  /** The repaired check accepts exactly the patterns whose left calls are bounded, and returns
      whether the pattern is nullable. */
  lemma {:induction false} RepairedExact(t: Tree, g: Grammar, passed: seq<nat>, nb: bool)
    requires |passed| <= MAXRULES
    ensures VerifyRule(t, g, passed, nb, true).Accepted? <==> LeftBounded(t, g, MAXRULES - |passed|)
    ensures VerifyRule(t, g, passed, nb, true).Accepted? ==>
              VerifyRule(t, g, passed, nb, true).nb == (nb || Nullable(t, g))
    decreases MAXRULES - |passed|, t
  {
    var d := MAXRULES - |passed|;
    match t {
      case TNot(p) => RepairedExact(p, g, passed, true);
      case TAnd(p) => RepairedExact(p, g, passed, true);
      case TRep(p) => RepairedExact(p, g, passed, true);
      case TSeq(p1, p2) =>
        RepairedExact(p1, g, passed, false);
        RepairedExact(p2, g, passed, nb);
      case TChoice(p1, p2) =>
        RepairedExact(p1, g, passed, nb);
        var v1 := VerifyRule(p1, g, passed, nb, true);
        RepairedExact(p2, g, passed, v1.Accepted? && v1.nb);
      case TCall(k, _) =>
        if k < |g| && d > 0 {
          RepairedExact(g[k].body, g, passed + [k], nb);
          if LeftBounded(g[k].body, g, d - 1) {
            CheckAuxExact(g[k].body, g, PEnullable, d - 1, BUDGET);
            if CheckAux(g[k].body, g, PEnullable, d - 1) {
              CheckAuxMono(g[k].body, g, PEnullable, d - 1, BUDGET - 1);
              CheckAuxMono(g[k].body, g, PEnullable, BUDGET - 1, BUDGET);
            } else if CheckAux(g[k].body, g, PEnullable, BUDGET - 1) {
              CheckAuxMono(g[k].body, g, PEnullable, BUDGET - 1, BUDGET);
            }
          }
        }
      case _ =>
    }
  }

  /** What the source rejects is really left recursive: the repaired check rejects it too, and the
      source never reports more nullable patterns. */
  lemma {:induction false} SourceRejectsLess(t: Tree, g: Grammar, passed: seq<nat>, nb: bool, nb': bool)
    requires |passed| <= MAXRULES && (nb ==> nb')
    requires VerifyRule(t, g, passed, nb', true).Accepted?
    ensures VerifyRule(t, g, passed, nb, false).Accepted?
    ensures VerifyRule(t, g, passed, nb, false).nb ==> VerifyRule(t, g, passed, nb', true).nb
    decreases MAXRULES - |passed|, t
  {
    match t {
      case TNot(p) => SourceRejectsLess(p, g, passed, true, true);
      case TAnd(p) => SourceRejectsLess(p, g, passed, true, true);
      case TRep(p) => SourceRejectsLess(p, g, passed, true, true);
      case TSeq(p1, p2) =>
        SourceRejectsLess(p1, g, passed, false, false);
        if VerifyRule(p1, g, passed, false, true).nb {
          SourceRejectsLess(p2, g, passed, nb, nb');
          RepairedExact(p2, g, passed, nb');
        }
      case TChoice(p1, p2) =>
        SourceRejectsLess(p1, g, passed, nb, nb');
        SourceRejectsLess(p2, g, passed, VerifyRule(p1, g, passed, nb, false).nb, VerifyRule(p1, g, passed, nb', true).nb);
      case TCall(k, _) => SourceRejectsLess(g[k].body, g, passed + [k], nb, nb');
      case _ =>
    }
  }

  lemma {:induction false} LeftBoundedMono(t: Tree, g: Grammar, d: nat, d': nat)
    requires LeftBounded(t, g, d) && d <= d'
    ensures LeftBounded(t, g, d')
    decreases d, t
  {
    match t {
      case TRep(p) => LeftBoundedMono(p, g, d, d');
      case TNot(p) => LeftBoundedMono(p, g, d, d');
      case TAnd(p) => LeftBoundedMono(p, g, d, d');
      case TSeq(p1, p2) =>
        LeftBoundedMono(p1, g, d, d');
        if Nullable(p1, g) { LeftBoundedMono(p2, g, d, d'); }
      case TChoice(p1, p2) => LeftBoundedMono(p1, g, d, d'); LeftBoundedMono(p2, g, d, d');
      case TCall(k, _) => LeftBoundedMono(g[k].body, g, d - 1, d' - 1);
      case _ =>
    }
  }

  /** The first n rules as far as a pattern bounded by d may call them. */
  ghost function CallableBelow(g: Grammar, d: nat, n: nat): set<nat>
    requires n <= |g|
  {
    set k: nat | k < n && d > 0 && LeftBounded(g[k].body, g, d - 1)
  }

  ghost function Callable(g: Grammar, d: nat): set<nat> { CallableBelow(g, d, |g|) }

  ghost function LeastBound(t: Tree, g: Grammar, d: nat): (m: nat)
    requires LeftBounded(t, g, d)
    ensures m <= d && LeftBounded(t, g, m) && (m > 0 ==> !LeftBounded(t, g, m - 1))
  {
    if d > 0 && LeftBounded(t, g, d - 1) then LeastBound(t, g, d - 1) else d
  }

  /** A chain of left calls that is bounded at all passes every rule at most once. */
  lemma {:induction false} EachRuleOnce(t: Tree, g: Grammar, d: nat)
    requires LeftBounded(t, g, d)
    ensures LeftBounded(t, g, |Callable(g, d)|)
    decreases d, t
  {
    match t {
      case TRep(p) => EachRuleOnce(p, g, d);
      case TNot(p) => EachRuleOnce(p, g, d);
      case TAnd(p) => EachRuleOnce(p, g, d);
      case TSeq(p1, p2) =>
        EachRuleOnce(p1, g, d);
        if Nullable(p1, g) { EachRuleOnce(p2, g, d); }
      case TChoice(p1, p2) => EachRuleOnce(p1, g, d); EachRuleOnce(p2, g, d);
      case TCall(k, _) =>
        var m := LeastBound(g[k].body, g, d - 1);
        EachRuleOnce(g[k].body, g, m);
        var all, below := Callable(g, d), Callable(g, m);
        assert k in all && k !in below;
        forall x | x in below ensures x in all - {k} {
          LeftBoundedMono(g[x].body, g, m - 1, d - 1);
        }
        Cardinality(below, all - {k});
        LeftBoundedMono(g[k].body, g, |below|, |all| - 1);
      case _ =>
    }
  }

  lemma {:induction false} Cardinality(a: set<nat>, b: set<nat>)
    requires a <= b
    ensures |a| <= |b|
  {
    if a != {} {
      var x :| x in a;
      Cardinality(a - {x}, b - {x});
    }
  }

  lemma {:induction false} CallableSize(g: Grammar, d: nat, n: nat)
    requires n <= |g|
    ensures |CallableBelow(g, d, n)| <= n
  {
    if n == 0 {
      assert CallableBelow(g, d, n) == {};
    } else {
      CallableSize(g, d, n - 1);
      var rest := CallableBelow(g, d, n - 1);
      Cardinality(CallableBelow(g, d, n), rest + {n - 1});
      assert n - 1 !in rest && |rest + {n - 1}| == |rest| + 1;
    }
  }

  /** MAXRULES is enough: a grammar of at most MAXRULES rules passes the repaired check exactly when
      it is not left recursive. */
  lemma RepairedRejectsLeftRecursion(g: Grammar, k: nat)
    requires |g| <= MAXRULES && k < |g|
    ensures Accepts(g[k].body, g, true) <==> exists d :: LeftBounded(g[k].body, g, d)
  {
    RepairedExact(g[k].body, g, [], false);
    if d: nat :| LeftBounded(g[k].body, g, d) {
      EachRuleOnce(g[k].body, g, d);
      CallableSize(g, d, |g|);
      LeftBoundedMono(g[k].body, g, |Callable(g, d)|, MAXRULES);
    }
  }

  /** A used rule that the source rejects is left recursive. */
  lemma RejectedIsLeftRecursive(g: Grammar, k: nat)
    requires |g| <= MAXRULES && k < |g| && !Accepts(g[k].body, g, false)
    ensures forall d :: !LeftBounded(g[k].body, g, d)
  {
    RepairedRejectsLeftRecursion(g, k);
    if Accepts(g[k].body, g, true) { SourceRejectsLess(g[k].body, g, [], false, false); }
  }

  /** Exactly when an accepted grammar is free of left recursion: when the check does not lose a
      pending `nb` in the TGrammar case. */
  lemma AcceptedNotLeftRecursive(g: Grammar)
    requires |g| <= MAXRULES && VerifyGrammar(g, false)
    ensures NotLeftRecursive(g) <==> VerifyGrammar(g, true)
  {
    forall k | 0 <= k < |g| && g[k].used
      ensures Accepts(g[k].body, g, true) <==> exists d :: LeftBounded(g[k].body, g, d)
    {
      RepairedRejectsLeftRecursion(g, k);
    }
  }

  /** The branch that loses `nb`: a sub-grammar that is not nullable, tried when what surrounds it
      already counts as nullable. */
  lemma LosesNb(rs: Grammar, g: Grammar, passed: seq<nat>, nb: bool)
    requires |passed| <= MAXRULES
    ensures VerifyRule(TGrammar(rs), g, passed, nb, false) == Accepted(nb || Nullable(TGrammar(rs), g))
            <==> (nb ==> Nullable(TGrammar(rs), g))
  {
  }

  /** Where no sub-grammar stands inside a rule, the source is exact. */
  ghost predicate NoSubGrammar(t: Tree)
  {
    match t
    case TRep(p) => NoSubGrammar(p)
    case TSeq(p1, p2) => NoSubGrammar(p1) && NoSubGrammar(p2)
    case TChoice(p1, p2) => NoSubGrammar(p1) && NoSubGrammar(p2)
    case TNot(p) => NoSubGrammar(p)
    case TAnd(p) => NoSubGrammar(p)
    case TGrammar(_) => false
    case _ => true
  }

  lemma {:induction false} ExactWithoutSubGrammars(t: Tree, g: Grammar, passed: seq<nat>, nb: bool)
    requires |passed| <= MAXRULES
    requires NoSubGrammar(t) && forall k :: 0 <= k < |g| ==> NoSubGrammar(g[k].body)
    ensures VerifyRule(t, g, passed, nb, false) == VerifyRule(t, g, passed, nb, true)
    decreases MAXRULES - |passed|, t
  {
    match t {
      case TNot(p) => ExactWithoutSubGrammars(p, g, passed, true);
      case TAnd(p) => ExactWithoutSubGrammars(p, g, passed, true);
      case TRep(p) => ExactWithoutSubGrammars(p, g, passed, true);
      case TSeq(p1, p2) =>
        ExactWithoutSubGrammars(p1, g, passed, false);
        ExactWithoutSubGrammars(p2, g, passed, nb);
      case TChoice(p1, p2) =>
        ExactWithoutSubGrammars(p1, g, passed, nb);
        var v1 := VerifyRule(p1, g, passed, nb, false);
        if v1.Accepted? { ExactWithoutSubGrammars(p2, g, passed, v1.nb); }
      case TCall(k, _) =>
        if k < |g| && |passed| < MAXRULES { ExactWithoutSubGrammars(g[k].body, g, passed + [k], nb); }
      case _ =>
    }
  }

  /** The family that slips through: rule A <- G* A, for any sub-grammar G that is not nullable. */
  function Hidden(sub: Grammar): Grammar
  {
    [Rule(true, TSeq(TRep(TGrammar(sub)), TCall(0, 0)))]
  }

  lemma NoLoops(sub: Grammar, g: Grammar)
    requires !Nullable(TGrammar(sub), g)
    ensures !CheckLoops(TSeq(TRep(TGrammar(sub)), TCall(0, 0)), g)
  {
    hide Nullable;
    var t1, t2 := TRep(TGrammar(sub)), TCall(0, 0);
    assert !CheckLoops(TGrammar(sub), g);
    assert !CheckLoops(t1, g);
    assert !CheckLoops(t2, g);
  }

  lemma HiddenAccepted(sub: Grammar)
    requires !Nullable(TGrammar(sub), Hidden(sub))
    ensures VerifyGrammar(Hidden(sub), false)
    ensures !VerifyGrammar(Hidden(sub), true) && !NotLeftRecursive(Hidden(sub))
  {
    var g := Hidden(sub);
    var body := g[0].body;
    assert body.p1.p == TGrammar(sub);
    assert VerifyRule(body.p1, g, [], false, false) == VerifyRule(TGrammar(sub), g, [], true, false) == Accepted(false);
    assert VerifyRule(body, g, [], false, false) == Accepted(false);
    assert body.p2 == TCall(0, 0);
    NoLoops(sub, g);
    forall d ensures !LeftBounded(body, g, d) { HiddenUnbounded(sub, d); }
    RepairedRejectsLeftRecursion(g, 0);
  }

  lemma {:induction false} HiddenUnbounded(sub: Grammar, d: nat)
    ensures !LeftBounded(Hidden(sub)[0].body, Hidden(sub), d)
  {
    var g := Hidden(sub);
    assert Nullable(g[0].body.p1, g);
    if d > 0 { HiddenUnbounded(sub, d - 1); }
    assert g[0].body.p2 == TCall(0, 0);
  }

  /** Such a grammar is accepted, and yet matching it at the end of any subject never finishes.  In the source
      neither does compiling it: codeseq1 asks for the first set of the call, and getfirst follows the call,
      through the repetition, which is nullable, to itself. */
  lemma {:induction false} HiddenDiverges(sub: Grammar, s: Subject, f: nat)
    requires Closed(TGrammar(sub), []) && !Nullable(TGrammar(sub), Hidden(sub))
    ensures Eval(Hidden(sub)[0].body, Hidden(sub), s, |s|, f).OutOfFuel?
  {
    var g := Hidden(sub);
    var body := g[0].body;
    if f > 1 {
      var r := Eval(body.p1, g, s, |s|, f - 1);
      assert body.p2 == TCall(0, 0) && g[0].body == body;
      if r.Match? {
        assert r.pos == |s|;
        assert Eval(body.p2, g, s, |s|, f - 1) == Eval(body, g, s, |s|, f - 2);
        HiddenDiverges(sub, s, f - 2);
      } else if r.Fail? {
        NoFailSound(body.p1, g, s, |s|, f - 1, 0);
        assert false;
      }
    }
  }

  /** A concrete member of the family: A <- { 'x' }* A. */
  lemma HiddenExample(s: Subject, f: nat)
    ensures var sub := [Rule(true, TChar(120))];
            VerifyGrammar(Hidden(sub), false) && Eval(Hidden(sub)[0].body, Hidden(sub), s, |s|, f).OutOfFuel?
  {
    var sub := [Rule(true, TChar(120))];
    assert !CheckAux(sub[0].body, sub, PEnullable, BUDGET);
    assert RuleClosed(sub[0], sub);
    HiddenAccepted(sub);
    HiddenDiverges(sub, s, f);
  }

  /** A grammar that is closed up to its left calls, and passes the check with `nb` kept, is sound. */
  lemma VerifiedIsSound(g: Grammar)
    requires 0 < |g| <= MAXRULES && g[0].used
    requires forall k :: 0 <= k < |g| ==> Closed(g[k].body, g)
    requires VerifyGrammar(g, true)
    ensures EnvOK(g)
  {
    forall k | 0 <= k < |g| ensures RuleClosed(g[k], g) {
      if g[k].used { RepairedExact(g[k].body, g, [], false); }
    }
  }

  /** What newgrammar has checked when it returns makes the grammar sound if and only if the check has not
      overlooked a left recursion. */
  lemma AcceptedIsSound(g: Grammar)
    requires 0 < |g| <= MAXRULES && g[0].used
    requires forall k :: 0 <= k < |g| ==> Closed(g[k].body, g)
    requires VerifyGrammar(g, false)
    ensures EnvOK(g) <==> NotLeftRecursive(g)
  {
    hide Closed, LeftBounded, CheckLoops, VerifyRule;
    AcceptedNotLeftRecursive(g);
    if VerifyGrammar(g, true) {
      VerifiedIsSound(g);
    }
    if EnvOK(g) {
      forall k | 0 <= k < |g| && g[k].used ensures exists d :: LeftBounded(g[k].body, g, d) { CalledRule(g, k); }
    }
  }

  /** It has not when no rule contains a sub-grammar. */
  lemma AcceptedWithoutSubGrammars(g: Grammar)
    requires 0 < |g| <= MAXRULES && g[0].used
    requires forall k :: 0 <= k < |g| ==> Closed(g[k].body, g) && NoSubGrammar(g[k].body)
    requires VerifyGrammar(g, false)
    ensures EnvOK(g) && NotLeftRecursive(g)
  {
    hide Closed, VerifyRule, NoSubGrammar;
    forall k | 0 <= k < |g| && g[k].used ensures Accepts(g[k].body, g, true) {
      ExactWithoutSubGrammars(g[k].body, g, [], false);
    }
    VerifiedIsSound(g);
    AcceptedIsSound(g);
  }

  /** Matching a well-formed pattern always finishes. */
  lemma {:induction false} Terminates(t: Tree, g: Grammar, s: Subject, i: nat, d: nat) returns (f: nat)
    requires WellFormed(t, g) && LeftBounded(t, g, d) && d <= BUDGET && i <= |s|
    ensures !Eval(t, g, s, i, f).OutOfFuel?
    decreases NestIn(t, g), |s| - i, d, t
  {
    hide WellFormed, LeftBounded, Eval, NestIn;
    match t {
      case TRep(p) => f := TerminatesRep(p, g, s, i, d);
      case TSeq(p1, p2) => f := TerminatesSeq(p1, p2, g, s, i, d);
      case TChoice(p1, p2) => f := TerminatesChoice(p1, p2, g, s, i, d);
      case TNot(p) => f := TerminatesAhead(t, p, g, s, i, d);
      case TAnd(p) => f := TerminatesAhead(t, p, g, s, i, d);
      case TCall(k, site) => f := TerminatesCall(k, site, g, s, i, d);
      case TGrammar(rs) => f := TerminatesGrammar(rs, g, s, i, d);
      case TBehind(n, p) => f := TerminatesBehind(n, p, g, s, i, d);
      case _ => f := 1; LeafTerminates(t, g, s, i);
    }
  }

  lemma LeafTerminates(t: Tree, g: Grammar, s: Subject, i: nat)
    requires (t.TSet? || t.TTrue? || t.TFalse? || t.TAny? || t.TChar?) && i <= |s|
    ensures !Eval(t, g, s, i, 1).OutOfFuel?
  {
  }

  lemma {:induction false} TerminatesAhead(t: Tree, p: Tree, g: Grammar, s: Subject, i: nat, d: nat) returns (f: nat)
    requires (t == TNot(p) || t == TAnd(p)) && WellFormed(t, g) && LeftBounded(t, g, d) && d <= BUDGET && i <= |s|
    ensures !Eval(t, g, s, i, f).OutOfFuel?
    decreases NestIn(t, g), |s| - i, d, t, 0
  {
    f := Terminates(p, g, s, i, d);
    f := f + 1;
  }

  lemma {:induction false} TerminatesBehind(n: nat, p: Tree, g: Grammar, s: Subject, i: nat, d: nat) returns (f: nat)
    requires WellFormed(TBehind(n, p), g) && i <= |s|
    ensures !Eval(TBehind(n, p), g, s, i, f).OutOfFuel?
    decreases NestIn(TBehind(n, p), g), |s| - i, d, TBehind(n, p), 0
  {
    f := 0;
    if n <= i {
      BudgetSuffices(p, []);
      f := Terminates(p, [], s, i - n, BUDGET);
    }
    f := f + 1;
  }

  lemma {:induction false} TerminatesChoice(p1: Tree, p2: Tree, g: Grammar, s: Subject, i: nat, d: nat) returns (f: nat)
    requires WellFormed(TChoice(p1, p2), g) && LeftBounded(TChoice(p1, p2), g, d) && d <= BUDGET && i <= |s|
    ensures !Eval(TChoice(p1, p2), g, s, i, f).OutOfFuel?
    decreases NestIn(TChoice(p1, p2), g), |s| - i, d, TChoice(p1, p2), 0
  {
    var f1 := Terminates(p1, g, s, i, d);
    var f2 := Terminates(p2, g, s, i, d);
    f := Max(f1, f2) + 1;
    MoreFuel(p1, g, s, i, f1, f - 1);
    MoreFuel(p2, g, s, i, f2, f - 1);
  }

  lemma {:induction false} TerminatesCall(k: nat, site: nat, g: Grammar, s: Subject, i: nat, d: nat) returns (f: nat)
    requires WellFormed(TCall(k, site), g) && LeftBounded(TCall(k, site), g, d) && d <= BUDGET && i <= |s|
    ensures !Eval(TCall(k, site), g, s, i, f).OutOfFuel?
    decreases NestIn(TCall(k, site), g), |s| - i, d, TCall(k, site), 0
  {
    hide Closed, CheckLoops;
    CallMeans(k, site, g);
    CalledRule(g, k);
    assert NestRule(g[k]) <= NestAll(g);
    f := Terminates(g[k].body, g, s, i, d - 1);
    f := f + 1;
  }

  lemma CallMeans(k: nat, site: nat, g: Grammar)
    requires Closed(TCall(k, site), g)
    ensures k < |g| && g[k].used
  {
  }

  lemma {:induction false} TerminatesGrammar(rs: Grammar, g: Grammar, s: Subject, i: nat, d: nat) returns (f: nat)
    requires WellFormed(TGrammar(rs), g) && i <= |s|
    ensures !Eval(TGrammar(rs), g, s, i, f).OutOfFuel?
    decreases NestIn(TGrammar(rs), g), |s| - i, d, TGrammar(rs), 0
  {
    FirstRule(rs, g);
    BudgetSuffices(rs[0].body, rs);
    assert NestRule(rs[0]) <= NestAll(rs);
    f := Terminates(rs[0].body, rs, s, i, BUDGET);
    f := f + 1;
  }

  lemma {:induction false} TerminatesSeq(p1: Tree, p2: Tree, g: Grammar, s: Subject, i: nat, d: nat) returns (f: nat)
    requires WellFormed(TSeq(p1, p2), g) && LeftBounded(TSeq(p1, p2), g, d) && d <= BUDGET && i <= |s|
    ensures !Eval(TSeq(p1, p2), g, s, i, f).OutOfFuel?
    decreases NestIn(TSeq(p1, p2), g), |s| - i, d, TSeq(p1, p2), 0
  {
    var f1 := Terminates(p1, g, s, i, d);
    var r := Eval(p1, g, s, i, f1);
    var f2 := 0;
    if r.Match? {
      if r.pos == i {
        NullableSound(p1, g, s, i, f1);
        f2 := Terminates(p2, g, s, i, d);
      } else {
        BudgetSuffices(p2, g);
        f2 := Terminates(p2, g, s, r.pos, BUDGET);
      }
      MoreFuel(p2, g, s, r.pos, f2, Max(f1, f2));
    }
    MoreFuel(p1, g, s, i, f1, Max(f1, f2));
    f := Max(f1, f2) + 1;
  }

  lemma {:induction false} TerminatesRep(p: Tree, g: Grammar, s: Subject, i: nat, d: nat) returns (f: nat)
    requires WellFormed(TRep(p), g) && LeftBounded(TRep(p), g, d) && d <= BUDGET && i <= |s|
    ensures !Eval(TRep(p), g, s, i, f).OutOfFuel?
    decreases NestIn(TRep(p), g), |s| - i, d, TRep(p), 0
  {
    var f1 := Terminates(p, g, s, i, d);
    var r := Eval(p, g, s, i, f1);
    var f2 := 0;
    if r.Match? {
      if r.pos == i { NullableSound(p, g, s, i, f1); assert false; }
      BudgetSuffices(TRep(p), g);
      f2 := Terminates(TRep(p), g, s, r.pos, BUDGET);
      MoreFuel(TRep(p), g, s, r.pos, f2, Max(f1, f2));
    }
    MoreFuel(p, g, s, i, f1, Max(f1, f2));
    f := Max(f1, f2) + 1;
  }

  /** The result of matching a well-formed pattern exists and is unique. */
  lemma Total(t: Tree, g: Grammar, s: Subject, i: nat) returns (r: Outcome)
    requires WellFormed(t, g) && i <= |s|
    ensures Yields(t, g, s, i, r)
    ensures forall r' :: Yields(t, g, s, i, r') ==> r' == r
  {
    BudgetSuffices(t, g);
    var f := Terminates(t, g, s, i, BUDGET);
    r := Eval(t, g, s, i, f);
    forall r' | Yields(t, g, s, i, r') ensures r' == r {
      var f' :| Eval(t, g, s, i, f') == r';
      MoreFuel(t, g, s, i, f, Max(f, f'));
      MoreFuel(t, g, s, i, f', Max(f, f'));
    }
  }
}
