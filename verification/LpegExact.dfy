/** How exact the analyses are: what nullable, nofail, fixedlen and checkloops of skynet/3rd/lpeg say no to. */
module LpegExact {
  import opened LpegTree
  import opened LpegAnalysis
  import opened LpegVerify

  // ---- Parts of a pattern ----

  /** Pattern u, inside the rules h, is a part of pattern t, inside the rules g; sub-grammars are not entered. */
  ghost predicate Occurs(u: Tree, h: Grammar, t: Tree, g: Grammar)
    decreases t
  {
    (u == t && h == g)
    || match t
       case TRep(p) => Occurs(u, h, p, g)
       case TSeq(p1, p2) => Occurs(u, h, p1, g) || Occurs(u, h, p2, g)
       case TChoice(p1, p2) => Occurs(u, h, p1, g) || Occurs(u, h, p2, g)
       case TNot(p) => Occurs(u, h, p, g)
       case TAnd(p) => Occurs(u, h, p, g)
       case TBehind(_, p) => Occurs(u, h, p, [])
       case _ => false
  }

  /** Some repetition in t has a nullable body. */
  ghost predicate HasLoop(t: Tree, g: Grammar)
  {
    exists p: Tree, h: Grammar :: Occurs(TRep(p), h, t, g) && Nullable(p, h)
  }

  /** checkloops finds exactly the repetitions of nullable patterns. */
  lemma {:induction false} LoopsExactly(t: Tree, g: Grammar)
    ensures CheckLoops(t, g) <==> HasLoop(t, g)
  {
    hide Nullable;
    if CheckLoops(t, g) {
      var p, h := FoundLoop(t, g);
    }
    if p: Tree, h: Grammar :| Occurs(TRep(p), h, t, g) && Nullable(p, h) {
      LoopIsFound(p, h, t, g);
    }
  }

  lemma {:induction false} FoundLoop(t: Tree, g: Grammar) returns (p: Tree, h: Grammar)
    requires CheckLoops(t, g)
    ensures Occurs(TRep(p), h, t, g) && Nullable(p, h)
    decreases t
  {
    hide Nullable;
    match t {
      case TRep(b) => if Nullable(b, g) { p, h := b, g; } else { p, h := FoundLoop(b, g); }
      case TSeq(p1, p2) => if CheckLoops(p1, g) { p, h := FoundLoop(p1, g); } else { p, h := FoundLoop(p2, g); }
      case TChoice(p1, p2) => if CheckLoops(p1, g) { p, h := FoundLoop(p1, g); } else { p, h := FoundLoop(p2, g); }
      case TNot(b) => p, h := FoundLoop(b, g);
      case TAnd(b) => p, h := FoundLoop(b, g);
      case TBehind(_, b) => p, h := FoundLoop(b, []);
    }
  }

  lemma {:induction false} LoopIsFound(p: Tree, h: Grammar, t: Tree, g: Grammar)
    requires Occurs(TRep(p), h, t, g) && Nullable(p, h)
    ensures CheckLoops(t, g)
    decreases t
  {
    hide Nullable;
    if t != TRep(p) || h != g {
      match t {
        case TRep(b) => LoopIsFound(p, h, b, g);
        case TSeq(p1, p2) => if Occurs(TRep(p), h, p1, g) { LoopIsFound(p, h, p1, g); } else { LoopIsFound(p, h, p2, g); }
        case TChoice(p1, p2) => if Occurs(TRep(p), h, p1, g) { LoopIsFound(p, h, p1, g); } else { LoopIsFound(p, h, p2, g); }
        case TNot(b) => LoopIsFound(p, h, b, g);
        case TAnd(b) => LoopIsFound(p, h, b, g);
        case TBehind(_, b) => LoopIsFound(p, h, b, []);
      }
    }
  }

  // ---- Patterns without predicates ----

  /** No predicates, and no sub-grammars; `ands`: positive predicates are allowed. */
  predicate Plain(t: Tree, ands: bool)
  {
    match t
    case TRep(p) => Plain(p, ands)
    case TSeq(p1, p2) => Plain(p1, ands) && Plain(p2, ands)
    case TChoice(p1, p2) => Plain(p1, ands) && Plain(p2, ands)
    case TAnd(p) => ands && Plain(p, ands)
    case TNot(_) => false
    case TBehind(_, _) => false
    case TGrammar(_) => false
    case _ => true
  }

  ghost predicate PlainRules(g: Grammar, ands: bool) { forall k :: 0 <= k < |g| ==> Plain(g[k].body, ands) }

  /** A nullable pattern of this kind does not fail at the end of a subject. */
  lemma {:induction false} NullableAtEnd(t: Tree, g: Grammar, s: Subject, f: nat, d: nat)
    requires Plain(t, false) && PlainRules(g, false) && CheckAux(t, g, PEnullable, d)
    ensures !Eval(t, g, s, |s|, f).Fail?
    decreases f
  {
    if f > 0 {
      match t {
        case TRep(p) =>
          var r := Eval(p, g, s, |s|, f - 1);
          if r.Match? { NullableAtEnd(t, g, s, f - 1, d); }
        case TSeq(p1, p2) =>
          NullableAtEnd(p1, g, s, f - 1, d);
          NullableAtEnd(p2, g, s, f - 1, d);
        case TChoice(p1, p2) =>
          if CheckAux(p2, g, PEnullable, d) { NullableAtEnd(p2, g, s, f - 1, d); }
          else { NullableAtEnd(p1, g, s, f - 1, d); }
        case TCall(k, _) => NullableAtEnd(g[k].body, g, s, f - 1, d - 1);
        case _ =>
      }
    }
  }

  /** A pattern of this kind is nullable if and only if it matches at the end of a subject. */
  lemma NullableExactly(t: Tree, g: Grammar, s: Subject)
    requires WellFormed(t, g) && Plain(t, false) && PlainRules(g, false)
    ensures Nullable(t, g) <==> Yields(t, g, s, |s|, Match(|s|))
    ensures Nullable(t, g) <==> !Yields(t, g, s, |s|, Fail)
  {
    hide Plain, WellFormed;
    var r := Total(t, g, s, |s|);
    var f: nat :| Eval(t, g, s, |s|, f) == r;
    if Nullable(t, g) { NullableAtEnd(t, g, s, f, BUDGET); }
    if r.Match? {
      WellFormedParts(t, g);
      NullableSound(t, g, s, |s|, f);
    }
  }

  lemma WellFormedParts(t: Tree, g: Grammar)
    requires WellFormed(t, g)
    ensures EnvOK(g) && Closed(t, g)
  {
  }

  /** A pattern that may fail does fail at the end of a subject; positive predicates included. */
  lemma {:induction false} MayFailAtEnd(t: Tree, g: Grammar, s: Subject, f: nat, d: nat)
    requires Plain(t, true) && PlainRules(g, true) && LeftBounded(t, g, d) && d <= BUDGET
    requires !CheckAux(t, g, PEnofail, d)
    ensures !Eval(t, g, s, |s|, f).Match?
    decreases f
  {
    if f > 0 {
      match t {
        case TAnd(p) => MayFailAtEnd(p, g, s, f - 1, d);
        case TSeq(p1, p2) =>
          if CheckAux(p1, g, PEnofail, d) {
            PassesNullable(p1, g, PEnofail, d);
            MayFailAtEnd(p2, g, s, f - 1, d);
          } else {
            MayFailAtEnd(p1, g, s, f - 1, d);
          }
        case TChoice(p1, p2) => MayFailAtEnd(p1, g, s, f - 1, d); MayFailAtEnd(p2, g, s, f - 1, d);
        case TCall(k, _) => MayFailAtEnd(g[k].body, g, s, f - 1, d - 1);
        case _ =>
      }
    }
  }

  /** A pattern of this kind is nofail if and only if it never fails, and else it fails at the end of every
      subject. */
  lemma NoFailExactly(t: Tree, g: Grammar, s: Subject)
    requires WellFormed(t, g) && Plain(t, true) && PlainRules(g, true)
    ensures !NoFail(t, g) <==> Yields(t, g, s, |s|, Fail)
    ensures NoFail(t, g) <==> forall i: nat :: i <= |s| ==> !Yields(t, g, s, i, Fail)
  {
    hide Plain, WellFormed, CheckAux;
    WellFormedParts(t, g);
    BudgetSuffices(t, g);
    var r := Total(t, g, s, |s|);
    var f: nat :| Eval(t, g, s, |s|, f) == r;
    if NoFail(t, g) {
      forall i: nat, e: nat | i <= |s| ensures !Eval(t, g, s, i, e).Fail? { NoFailSound(t, g, s, i, e, BUDGET); }
    } else {
      MayFailAtEnd(t, g, s, f, BUDGET);
    }
  }

  // ---- Endless loops ----

  /** At the end of a subject, whatever it is, this repetition does not end. */
  ghost predicate Endless(p: Tree, g: Grammar) { forall s: Subject, f: nat :: Eval(TRep(p), g, s, |s|, f).OutOfFuel? }

  lemma {:induction false} NullableIsEndless(p: Tree, g: Grammar, s: Subject, f: nat)
    requires Plain(p, false) && PlainRules(g, false) && Nullable(p, g)
    ensures Eval(TRep(p), g, s, |s|, f).OutOfFuel?
    decreases f
  {
    if f > 0 {
      NullableAtEnd(p, g, s, f - 1, BUDGET);
      NullableIsEndless(p, g, s, f - 1);
    }
  }

  lemma {:induction false} PartIsPlain(u: Tree, h: Grammar, t: Tree, g: Grammar)
    requires Occurs(u, h, t, g) && Plain(t, false)
    ensures Plain(u, false) && h == g
    decreases t
  {
    if u != t || h != g {
      match t {
        case TRep(p) => PartIsPlain(u, h, p, g);
        case TSeq(p1, p2) => if Occurs(u, h, p1, g) { PartIsPlain(u, h, p1, g); } else { PartIsPlain(u, h, p2, g); }
        case TChoice(p1, p2) => if Occurs(u, h, p1, g) { PartIsPlain(u, h, p1, g); } else { PartIsPlain(u, h, p2, g); }
      }
    }
  }

  lemma {:induction false} PartIsFormed(u: Tree, t: Tree, g: Grammar)
    requires Occurs(u, g, t, g) && Plain(t, false) && Closed(t, g) && !CheckLoops(t, g)
    ensures Closed(u, g) && !CheckLoops(u, g)
    decreases t
  {
    if u != t {
      match t {
        case TRep(p) => PartIsFormed(u, p, g);
        case TSeq(p1, p2) => if Occurs(u, g, p1, g) { PartIsFormed(u, p1, g); } else { PartIsFormed(u, p2, g); }
        case TChoice(p1, p2) => if Occurs(u, g, p1, g) { PartIsFormed(u, p1, g); } else { PartIsFormed(u, p2, g); }
      }
    }
  }

  /** Without predicates, a pattern that checkloops rejects has a repetition that does not end, and does not at
      the end of any subject. */
  lemma RejectedIsEndless(t: Tree, g: Grammar) returns (p: Tree)
    requires CheckLoops(t, g) && Plain(t, false) && PlainRules(g, false)
    ensures Occurs(TRep(p), g, t, g) && Endless(p, g)
  {
    hide Nullable, PlainRules, Endless;
    var h;
    p, h := FoundLoop(t, g);
    PartIsPlain(TRep(p), h, t, g);
    LoopIsEndless(p, g);
  }

  /** In a sound grammar it rejects no others. */
  lemma RejectsEndless(t: Tree, g: Grammar)
    requires EnvOK(g) && Closed(t, g) && Plain(t, false) && PlainRules(g, false)
    ensures CheckLoops(t, g) <==> exists p: Tree :: Occurs(TRep(p), g, t, g) && Endless(p, g)
  {
    hide Nullable, Closed, EnvOK, PlainRules, Endless;
    if CheckLoops(t, g) {
      var p := RejectedIsEndless(t, g);
    } else if p: Tree :| Occurs(TRep(p), g, t, g) && Endless(p, g) {
      PartIsFormed(TRep(p), t, g);
      EndsSomewhere(p, g);
    }
  }

  lemma LoopIsEndless(p: Tree, g: Grammar)
    requires Plain(p, false) && PlainRules(g, false) && Nullable(p, g)
    ensures Endless(p, g)
  {
    forall s: Subject, f: nat ensures Eval(TRep(p), g, s, |s|, f).OutOfFuel? { NullableIsEndless(p, g, s, f); }
  }

  lemma EndsSomewhere(p: Tree, g: Grammar)
    requires WellFormed(TRep(p), g)
    ensures !Endless(p, g)
  {
    var s: Subject := [];
    var r := Total(TRep(p), g, s, |s|);
    var f: nat :| Eval(TRep(p), g, s, |s|, f) == r;
  }

  // ---- Lengths ----

  /** No calls and no sub-grammars, as in the body of a look-behind. */
  predicate CallFree(t: Tree)
  {
    match t
    case TRep(p) => CallFree(p)
    case TSeq(p1, p2) => CallFree(p1) && CallFree(p2)
    case TChoice(p1, p2) => CallFree(p1) && CallFree(p2)
    case TNot(p) => CallFree(p)
    case TAnd(p) => CallFree(p)
    case TBehind(_, p) => CallFree(p)
    case TCall(_, _) => false
    case TGrammar(_) => false
    case _ => true
  }

  /** Some way through t takes n characters; a repetition may take any number, and a predicate none. */
  ghost predicate Takes(t: Tree, n: nat)
  {
    match t
    case TChar(_) => n == 1
    case TSet(_) => n == 1
    case TAny => n == 1
    case TRep(_) => true
    case TSeq(p1, p2) => exists k: nat :: k <= n && Takes(p1, k) && Takes(p2, n - k)
    case TChoice(p1, p2) => Takes(p1, n) || Takes(p2, n)
    case _ => n == 0
  }

  lemma {:induction false} TakesFixed(t: Tree, g: Grammar, v: set<nat>, n: nat)
    requires CallFree(t) && FixedLen(t, g, v) >= 0
    ensures Takes(t, n) <==> n == FixedLen(t, g, v)
    decreases t
  {
    match t {
      case TSeq(p1, p2) =>
        var n1: nat, n2: nat := FixedLen(p1, g, v), FixedLen(p2, g, v);
        TakesFixed(p1, g, v, n1);
        TakesFixed(p2, g, v, n2);
        if n == n1 + n2 {
          assert Takes(p1, n1) && Takes(p2, n - n1);
        } else if k: nat :| k <= n && Takes(p1, k) && Takes(p2, n - k) {
          TakesFixed(p1, g, v, k);
          TakesFixed(p2, g, v, n - k);
        }
      case TChoice(p1, p2) => TakesFixed(p1, g, v, n); TakesFixed(p2, g, v, n);
      case _ =>
    }
  }

  /** Two ways of different lengths. */
  lemma {:induction false} TakesTwo(t: Tree, g: Grammar, v: set<nat>) returns (m: nat, n: nat)
    requires CallFree(t) && FixedLen(t, g, v) < 0
    ensures m != n && Takes(t, m) && Takes(t, n)
    decreases t
  {
    match t {
      case TRep(_) => m, n := 0, 1;
      case TSeq(p1, p2) =>
        if FixedLen(p1, g, v) < 0 {
          var m1, n1 := TakesTwo(p1, g, v);
          var k := TakesOne(p2, g, v);
          m, n := m1 + k, n1 + k;
          assert Takes(p1, m1) && Takes(p2, m - m1) && Takes(p1, n1) && Takes(p2, n - n1);
        } else {
          var k := TakesOne(p1, g, v);
          var m2, n2 := TakesTwo(p2, g, v);
          m, n := k + m2, k + n2;
          assert Takes(p1, k) && Takes(p2, m - k) && Takes(p2, n - k);
        }
      case TChoice(p1, p2) =>
        if FixedLen(p1, g, v) < 0 { m, n := TakesTwo(p1, g, v); }
        else if FixedLen(p2, g, v) < 0 { m, n := TakesTwo(p2, g, v); }
        else { m := TakesOne(p1, g, v); n := TakesOne(p2, g, v); TakesFixed(p1, g, v, m); TakesFixed(p2, g, v, n); }
    }
  }

  lemma {:induction false} TakesOne(t: Tree, g: Grammar, v: set<nat>) returns (n: nat)
    requires CallFree(t)
    ensures Takes(t, n)
    decreases t, 1
  {
    match t {
      case TSeq(p1, p2) =>
        var a := TakesOne(p1, g, v);
        var b := TakesOne(p2, g, v);
        n := a + b;
        assert Takes(p1, a) && Takes(p2, n - a);
      case TChoice(p1, _) => n := TakesOne(p1, g, v);
      case TChar(_) => n := 1;
      case TSet(_) => n := 1;
      case TAny => n := 1;
      case _ => n := 0;
    }
  }

  /** fixedlen is the one length that all ways through a pattern have, and -1 if they have several. */
  lemma FixedLenExactly(t: Tree, g: Grammar)
    requires CallFree(t)
    ensures if Len(t, g) >= 0 then forall n: nat :: Takes(t, n) <==> n == Len(t, g)
            else Len(t, g) == -1 && exists m: nat, n: nat :: m != n && Takes(t, m) && Takes(t, n)
  {
    if Len(t, g) >= 0 {
      forall n: nat ensures Takes(t, n) <==> n == Len(t, g) { TakesFixed(t, g, {}, n); }
    } else {
      var m, n := TakesTwo(t, g, {});
      NoLength(t, g, {});
    }
  }

  lemma {:induction false} NoLength(t: Tree, g: Grammar, v: set<nat>)
    requires CallFree(t)
    ensures FixedLen(t, g, v) >= -1
    decreases t
  {
    match t {
      case TSeq(p1, p2) => NoLength(p1, g, v); NoLength(p2, g, v);
      case TChoice(p1, p2) => NoLength(p1, g, v); NoLength(p2, g, v);
      case _ =>
    }
  }
}
