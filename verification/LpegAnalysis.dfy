/** The static analyses of skynet/3rd/lpeg/lpcode.c and the checks that
    skynet/3rd/lpeg/lptree.c makes on a grammar, and what their answers mean.

    The analyses follow calls.  In the source nothing bounds that recursion except that the grammar
    was verified, so here they carry a budget `d` of calls; an exhausted budget gives the
    conservative answer, and on verified grammars BUDGET calls are always enough. */
module LpegAnalysis {
  import opened LpegTree

  const MAXRULES: nat := 250
  const MAXBEHIND: nat := 255
  const BUDGET: nat := MAXRULES + 1

  datatype Pred = PEnullable | PEnofail

  /** lpcode.c, checkaux. */
  predicate CheckAux(t: Tree, g: Grammar, pred: Pred, d: nat)
    decreases NestIn(t, g), d, t
  {
    match t
    case TChar(_) => false
    case TSet(_) => false
    case TAny => false
    case TFalse => false
    case TRep(_) => true
    case TTrue => true
    case TNot(_) => pred == PEnullable
    case TBehind(_, _) => pred == PEnullable
    case TAnd(p) => pred == PEnullable || CheckAux(p, g, pred, d)
    case TSeq(p1, p2) => CheckAux(p1, g, pred, d) && CheckAux(p2, g, pred, d)
    case TChoice(p1, p2) => CheckAux(p2, g, pred, d) || CheckAux(p1, g, pred, d)
    case TGrammar(rs) =>
      |rs| > 0 && (assert NestRule(rs[0]) <= NestAll(rs); CheckAux(rs[0].body, rs, pred, BUDGET))
    case TCall(k, _) =>
      k < |g| && d > 0 && (assert NestRule(g[k]) <= NestAll(g); CheckAux(g[k].body, g, pred, d - 1))
  }

  predicate Nullable(t: Tree, g: Grammar) { CheckAux(t, g, PEnullable, BUDGET) }
  predicate NoFail(t: Tree, g: Grammar) { CheckAux(t, g, PEnofail, BUDGET) }

  /** The call nodes that belong to a tree (not to the grammars inside it). */
  ghost function Sites(t: Tree): set<nat>
  {
    match t
    case TRep(p) => Sites(p)
    case TSeq(p1, p2) => Sites(p1) + Sites(p2)
    case TChoice(p1, p2) => Sites(p1) + Sites(p2)
    case TNot(p) => Sites(p)
    case TAnd(p) => Sites(p)
    case TCall(_, site) => {site}
    case _ => {}
  }

  ghost function SitesAll(g: Grammar): (r: set<nat>)
    ensures forall k :: 0 <= k < |g| ==> Sites(g[k].body) <= r
  {
    if g == [] then {}
    else
      assert forall k :: 1 <= k < |g| ==> g[k] == g[1..][k - 1];
      Sites(g[0].body) + SitesAll(g[1..])
  }

  /** lpcode.c, fixedlen: how many characters every match of t consumes, or -1.  `visited` holds the
      call nodes being visited, which the source marks by clearing their key. */
  function FixedLen(t: Tree, g: Grammar, visited: set<nat>): int
    decreases NestIn(t, g), (SitesAll(g) + Sites(t)) - visited, t
  {
    match t
    case TChar(_) => 1
    case TSet(_) => 1
    case TAny => 1
    case TFalse => 0
    case TTrue => 0
    case TNot(_) => 0
    case TAnd(_) => 0
    case TBehind(_, _) => 0
    case TRep(_) => -1
    case TGrammar(rs) =>
      if |rs| > 0 then assert NestRule(rs[0]) <= NestAll(rs); FixedLen(rs[0].body, rs, visited) else -1
    case TCall(k, site) =>
      if k >= |g| || site in visited then -1
      else
        assert NestRule(g[k]) <= NestAll(g);
        assert site in (SitesAll(g) + Sites(t)) - visited;
        assert site !in (SitesAll(g) + Sites(g[k].body)) - (visited + {site});
        FixedLen(g[k].body, g, visited + {site})
    case TSeq(p1, p2) =>
      var n1 := FixedLen(p1, g, visited);
      if n1 < 0 then -1
      else
        var n2 := FixedLen(p2, g, visited);
        if n2 < 0 then -1 else n1 + n2
    case TChoice(p1, p2) =>
      var n1 := FixedLen(p1, g, visited);
      var n2 := FixedLen(p2, g, visited);
      if n1 != n2 || n1 < 0 then -1 else n1
  }

  function Len(t: Tree, g: Grammar): int { FixedLen(t, g, {}) }

  datatype Option<T> = None | Some(value: T)

  /** lpcode.c, tocharset. */
  function ToCharset(t: Tree): Option<Charset>
  {
    match t
    case TSet(cs) => Some(cs)
    case TChar(c) => Some({c})
    case TAny => Some(FullSet)
    case _ => None
  }

  /** lpcode.c, getfirst: the first set, and whether the pattern may accept the empty string (in
      which case a test cannot replace it).  Run-time captures are left out. */
  datatype Firsts = Firsts(cs: Charset, e: bool)

  function First(t: Tree, g: Grammar, follow: Charset, d: nat): Firsts
    decreases NestIn(t, g), d, t
  {
    match t
    case TChar(c) => Firsts({c}, false)
    case TSet(cs) => Firsts(cs, false)
    case TAny => Firsts(FullSet, false)
    case TTrue => Firsts(follow, true)
    case TFalse => Firsts({}, false)
    case TChoice(p1, p2) =>
      var f1 := First(p1, g, follow, d);
      var f2 := First(p2, g, follow, d);
      Firsts(f1.cs + f2.cs, f1.e || f2.e)
    case TSeq(p1, p2) =>
      if !Nullable(p1, g) then First(p1, g, FullSet, d)
      else
        var f2 := First(p2, g, follow, d);
        var f1 := First(p1, g, f2.cs, d);
        Firsts(f1.cs, f1.e && f2.e)
    case TRep(p) => Firsts(First(p, g, follow, d).cs + follow, true)
    case TGrammar(rs) =>
      if |rs| > 0 then assert NestRule(rs[0]) <= NestAll(rs); First(rs[0].body, rs, follow, BUDGET)
      else Firsts(FullSet, true)
    case TCall(k, _) =>
      if k < |g| && d > 0 then assert NestRule(g[k]) <= NestAll(g); First(g[k].body, g, follow, d - 1)
      else Firsts(FullSet, true)
    case TAnd(p) =>
      var f := First(p, g, follow, d);
      Firsts(f.cs * follow, f.e)
    case TNot(p) =>
      (match ToCharset(p)
       case Some(cs) => Firsts(FullSet - cs, true)
       case None => Firsts(follow, true))
    case TBehind(_, _) => Firsts(follow, true)
  }

  function GetFirst(t: Tree, g: Grammar, follow: Charset): Firsts { First(t, g, follow, BUDGET) }

  /** lpcode.c, headfail. */
  predicate HeadFailIn(t: Tree, g: Grammar, d: nat)
    decreases NestIn(t, g), d, t
  {
    match t
    case TChar(_) => true
    case TSet(_) => true
    case TAny => true
    case TFalse => true
    case TAnd(p) => HeadFailIn(p, g, d)
    case TGrammar(rs) =>
      |rs| > 0 && (assert NestRule(rs[0]) <= NestAll(rs); HeadFailIn(rs[0].body, rs, BUDGET))
    case TCall(k, _) =>
      k < |g| && d > 0 && (assert NestRule(g[k]) <= NestAll(g); HeadFailIn(g[k].body, g, d - 1))
    case TSeq(p1, p2) => NoFail(p2, g) && HeadFailIn(p1, g, d)
    case TChoice(p1, p2) => HeadFailIn(p1, g, d) && HeadFailIn(p2, g, d)
    case _ => false
  }

  predicate HeadFail(t: Tree, g: Grammar) { HeadFailIn(t, g, BUDGET) }

  /** lpcode.c, needfollow. */
  predicate NeedFollow(t: Tree)
  {
    match t
    case TChoice(_, _) => true
    case TRep(_) => true
    case TSeq(_, p2) => NeedFollow(p2)
    case _ => false
  }

  /** lptree.c, checkloops. */
  predicate CheckLoops(t: Tree, g: Grammar)
  {
    match t
    case TRep(p) => Nullable(p, g) || CheckLoops(p, g)
    case TSeq(p1, p2) => CheckLoops(p1, g) || CheckLoops(p2, g)
    case TChoice(p1, p2) => CheckLoops(p1, g) || CheckLoops(p2, g)
    case TNot(p) => CheckLoops(p, g)
    case TAnd(p) => CheckLoops(p, g)
    case TBehind(_, p) => CheckLoops(p, [])
    case _ => false
  }

  /** The calls reachable from t without consuming input nest at most d deep. */
  ghost predicate LeftBounded(t: Tree, g: Grammar, d: nat)
    decreases d, t
  {
    match t
    case TRep(p) => LeftBounded(p, g, d)
    case TNot(p) => LeftBounded(p, g, d)
    case TAnd(p) => LeftBounded(p, g, d)
    case TSeq(p1, p2) => LeftBounded(p1, g, d) && (Nullable(p1, g) ==> LeftBounded(p2, g, d))
    case TChoice(p1, p2) => LeftBounded(p1, g, d) && LeftBounded(p2, g, d)
    case TCall(k, _) => k < |g| && d > 0 && LeftBounded(g[k].body, g, d - 1)
    case _ => true
  }

  /** What the constructors of lptree.c guarantee about a finished tree: calls go to used rules of
      the enclosing grammar, look-behinds carry the fixed length of a body without outer calls, and
      every grammar inside is sound. */
  ghost predicate Closed(t: Tree, g: Grammar)
    decreases t, 0
  {
    match t
    case TRep(p) => Closed(p, g)
    case TSeq(p1, p2) => Closed(p1, g) && Closed(p2, g)
    case TChoice(p1, p2) => Closed(p1, g) && Closed(p2, g)
    case TNot(p) => Closed(p, g)
    case TAnd(p) => Closed(p, g)
    case TCall(k, _) => k < |g| && g[k].used
    case TGrammar(rs) =>
      && 0 < |rs| <= MAXRULES
      && rs[0].used
      && forall k :: 0 <= k < |rs| ==> RuleClosed(rs[k], rs)
    case TBehind(n, p) => Closed(p, []) && n == Len(p, []) && n <= MAXBEHIND
    case _ => true
  }

  ghost predicate RuleClosed(r: Rule, rs: Grammar)
    decreases r, 1
  {
    && Closed(r.body, rs)
    && (r.used ==> LeftBounded(r.body, rs, MAXRULES) && !CheckLoops(r.body, rs))
  }

  /** The grammar around a pattern: none at all, or a sound one. */
  ghost predicate EnvOK(g: Grammar) { g == [] || Closed(TGrammar(g), []) }

  /** A pattern that can be matched: everything lptree.c checks. */
  ghost predicate WellFormed(t: Tree, g: Grammar)
  {
    EnvOK(g) && Closed(t, g) && !CheckLoops(t, g)
  }

  lemma CalledRule(g: Grammar, k: nat)
    requires EnvOK(g) && k < |g|
    ensures Closed(g[k].body, g)
    ensures g[k].used ==> LeftBounded(g[k].body, g, MAXRULES) && WellFormed(g[k].body, g)
  {
    assert RuleClosed(g[k], g);
  }

  lemma FirstRule(rs: Grammar, g: Grammar)
    requires Closed(TGrammar(rs), g)
    ensures EnvOK(rs) && WellFormed(rs[0].body, rs)
  {
    assert Closed(TGrammar(rs), []);
    CalledRule(rs, 0);
  }

  /** Inside a sound grammar the budget is enough for any pattern. */
  lemma {:induction false} BudgetSuffices(t: Tree, g: Grammar)
    requires EnvOK(g) && Closed(t, g)
    ensures LeftBounded(t, g, BUDGET)
  {
    match t {
      case TRep(p) => BudgetSuffices(p, g);
      case TNot(p) => BudgetSuffices(p, g);
      case TAnd(p) => BudgetSuffices(p, g);
      case TSeq(p1, p2) => BudgetSuffices(p1, g); BudgetSuffices(p2, g);
      case TChoice(p1, p2) => BudgetSuffices(p1, g); BudgetSuffices(p2, g);
      case TCall(k, _) => CalledRule(g, k);
      case _ =>
    }
  }

  /** A larger budget only turns answers from no to yes. */
  lemma {:induction false} CheckAuxMono(t: Tree, g: Grammar, pred: Pred, d: nat, d': nat)
    requires CheckAux(t, g, pred, d) && d <= d'
    ensures CheckAux(t, g, pred, d')
    decreases d, t
  {
    match t {
      case TAnd(p) => if pred == PEnofail { CheckAuxMono(p, g, pred, d, d'); }
      case TSeq(p1, p2) => CheckAuxMono(p1, g, pred, d, d'); CheckAuxMono(p2, g, pred, d, d');
      case TChoice(p1, p2) =>
        if CheckAux(p2, g, pred, d) { CheckAuxMono(p2, g, pred, d, d'); }
        else { CheckAuxMono(p1, g, pred, d, d'); }
      case TCall(k, _) => CheckAuxMono(g[k].body, g, pred, d - 1, d' - 1);
      case _ =>
    }
  }

  /** nofail implies nullable. */
  lemma {:induction false} NoFailNullable(t: Tree, g: Grammar, d: nat)
    requires CheckAux(t, g, PEnofail, d)
    ensures CheckAux(t, g, PEnullable, d)
    decreases NestIn(t, g), d, t
  {
    match t {
      case TSeq(p1, p2) => NoFailNullable(p1, g, d); NoFailNullable(p2, g, d);
      case TChoice(p1, p2) =>
        if CheckAux(p2, g, PEnofail, d) { NoFailNullable(p2, g, d); } else { NoFailNullable(p1, g, d); }
      case TGrammar(rs) => assert NestRule(rs[0]) <= NestAll(rs); NoFailNullable(rs[0].body, rs, BUDGET);
      case TCall(k, _) => assert NestRule(g[k]) <= NestAll(g); NoFailNullable(g[k].body, g, d - 1);
      case _ =>
    }
  }

  // ---- The budget does not matter ----

  /** When left calls nest at most d deep, following more calls than d changes no verdict of checkaux. */
  lemma {:induction false} CheckAuxExact(t: Tree, g: Grammar, pred: Pred, d: nat, d': nat)
    requires LeftBounded(t, g, d) && d <= BUDGET && d <= d'
    ensures CheckAux(t, g, pred, d') <==> CheckAux(t, g, pred, d)
    decreases d, t
  {
    match t {
      case TAnd(p) => CheckAuxExact(p, g, pred, d, d');
      case TSeq(p1, p2) =>
        CheckAuxExact(p1, g, pred, d, d');
        if CheckAux(p1, g, pred, d) {
          PassesNullable(p1, g, pred, d);
          CheckAuxExact(p2, g, pred, d, d');
        }
      case TChoice(p1, p2) => CheckAuxExact(p1, g, pred, d, d'); CheckAuxExact(p2, g, pred, d, d');
      case TCall(k, _) => CheckAuxExact(g[k].body, g, pred, d - 1, d' - 1);
      case _ =>
    }
  }

  lemma PassesNullable(t: Tree, g: Grammar, pred: Pred, d: nat)
    requires CheckAux(t, g, pred, d) && d <= BUDGET
    ensures Nullable(t, g)
  {
    if pred == PEnofail { NoFailNullable(t, g, d); }
    CheckAuxMono(t, g, PEnullable, d, BUDGET);
  }

  /** Nor does it change the result of getfirst. */
  lemma {:induction false} FirstExact(t: Tree, g: Grammar, follow: Charset, d: nat, d': nat)
    requires LeftBounded(t, g, d) && d <= d'
    ensures First(t, g, follow, d') == First(t, g, follow, d)
    decreases d, t
  {
    hide CheckAux;
    match t {
      case TRep(p) => FirstExact(p, g, follow, d, d');
      case TAnd(p) => FirstExact(p, g, follow, d, d');
      case TSeq(p1, p2) =>
        if Nullable(p1, g) {
          FirstExact(p2, g, follow, d, d');
          FirstExact(p1, g, First(p2, g, follow, d).cs, d, d');
        } else {
          FirstExact(p1, g, FullSet, d, d');
        }
      case TChoice(p1, p2) => FirstExact(p1, g, follow, d, d'); FirstExact(p2, g, follow, d, d');
      case TCall(k, _) => FirstExact(g[k].body, g, follow, d - 1, d' - 1);
      case _ =>
    }
  }

  /** Nor the verdict of headfail. */
  lemma {:induction false} HeadFailExact(t: Tree, g: Grammar, d: nat, d': nat)
    requires LeftBounded(t, g, d) && d <= d'
    ensures HeadFailIn(t, g, d') <==> HeadFailIn(t, g, d)
    decreases d, t
  {
    hide CheckAux;
    match t {
      case TAnd(p) => HeadFailExact(p, g, d, d');
      case TSeq(p1, _) => HeadFailExact(p1, g, d, d');
      case TChoice(p1, p2) => HeadFailExact(p1, g, d, d'); HeadFailExact(p2, g, d, d');
      case TCall(k, _) => HeadFailExact(g[k].body, g, d - 1, d' - 1);
      case _ =>
    }
  }

  /** So in a sound grammar, the analyses say what they would if they followed calls without a limit. */
  lemma BudgetIsEnough(t: Tree, g: Grammar, pred: Pred, follow: Charset, d: nat)
    requires EnvOK(g) && Closed(t, g) && d >= BUDGET
    ensures CheckAux(t, g, pred, d) <==> CheckAux(t, g, pred, BUDGET)
    ensures First(t, g, follow, d) == GetFirst(t, g, follow)
    ensures HeadFailIn(t, g, d) <==> HeadFail(t, g)
  {
    hide CheckAux, First, HeadFailIn, LeftBounded;
    BudgetSuffices(t, g);
    CheckAuxExact(t, g, pred, BUDGET, d);
    FirstExact(t, g, follow, BUDGET, d);
    HeadFailExact(t, g, BUDGET, d);
  }

  // ---- Soundness ----

  /** A pattern that matches the empty string is nullable. */
  lemma {:induction false} NullableIn(t: Tree, g: Grammar, s: Subject, i: nat, f: nat, d: nat)
    requires EnvOK(g) && Closed(t, g) && LeftBounded(t, g, d) && d <= BUDGET
    requires i <= |s| && Eval(t, g, s, i, f) == Match(i)
    ensures CheckAux(t, g, PEnullable, d)
    decreases f
  {
    match t {
      case TSeq(p1, p2) =>
        NullableIn(p1, g, s, i, f - 1, d);
        CheckAuxMono(p1, g, PEnullable, d, BUDGET);
        NullableIn(p2, g, s, i, f - 1, d);
      case TChoice(p1, p2) =>
        if Eval(p1, g, s, i, f - 1).Match? { NullableIn(p1, g, s, i, f - 1, d); }
        else { NullableIn(p2, g, s, i, f - 1, d); }
      case TCall(k, _) =>
        CalledRule(g, k);
        NullableIn(g[k].body, g, s, i, f - 1, d - 1);
      case TGrammar(rs) =>
        FirstRule(rs, g);
        BudgetSuffices(rs[0].body, rs);
        NullableIn(rs[0].body, rs, s, i, f - 1, BUDGET);
      case _ =>
    }
  }

  lemma NullableSound(t: Tree, g: Grammar, s: Subject, i: nat, f: nat)
    requires EnvOK(g) && Closed(t, g)
    requires i <= |s| && Eval(t, g, s, i, f) == Match(i)
    ensures Nullable(t, g)
  {
    BudgetSuffices(t, g);
    NullableIn(t, g, s, i, f, BUDGET);
  }

  /** A nofail pattern never fails. */
  lemma {:induction false} NoFailSound(t: Tree, g: Grammar, s: Subject, i: nat, f: nat, d: nat)
    requires CheckAux(t, g, PEnofail, d) && i <= |s|
    ensures !Eval(t, g, s, i, f).Fail?
    decreases f
  {
    if f > 0 {
      match t {
        case TRep(p) =>
          var r := Eval(p, g, s, i, f - 1);
          if r.Match? { NoFailSound(t, g, s, r.pos, f - 1, d); }
        case TAnd(p) => NoFailSound(p, g, s, i, f - 1, d);
        case TSeq(p1, p2) =>
          NoFailSound(p1, g, s, i, f - 1, d);
          var r := Eval(p1, g, s, i, f - 1);
          if r.Match? { NoFailSound(p2, g, s, r.pos, f - 1, d); }
        case TChoice(p1, p2) =>
          if CheckAux(p2, g, PEnofail, d) { NoFailSound(p2, g, s, i, f - 1, d); }
          else { NoFailSound(p1, g, s, i, f - 1, d); }
        case TGrammar(rs) => NoFailSound(rs[0].body, rs, s, i, f - 1, BUDGET);
        case TCall(k, _) => NoFailSound(g[k].body, g, s, i, f - 1, d - 1);
        case _ =>
      }
    }
  }

  /** Every match of a pattern of fixed length n consumes exactly n characters. */
  lemma {:induction false} FixedLenSound(t: Tree, g: Grammar, visited: set<nat>, s: Subject, i: nat, f: nat)
    requires FixedLen(t, g, visited) >= 0
    requires i <= |s| && Eval(t, g, s, i, f).Match?
    ensures Eval(t, g, s, i, f).pos == i + FixedLen(t, g, visited)
    decreases f
  {
    match t {
      case TSeq(p1, p2) =>
        FixedLenSound(p1, g, visited, s, i, f - 1);
        FixedLenSound(p2, g, visited, s, Eval(p1, g, s, i, f - 1).pos, f - 1);
      case TChoice(p1, p2) =>
        if Eval(p1, g, s, i, f - 1).Match? { FixedLenSound(p1, g, visited, s, i, f - 1); }
        else { FixedLenSound(p2, g, visited, s, i, f - 1); }
      case TGrammar(rs) => FixedLenSound(rs[0].body, rs, visited, s, i, f - 1);
      case TCall(k, site) => FixedLenSound(g[k].body, g, visited + {site}, s, i, f - 1);
      case _ =>
    }
  }

  /** What a first set promises about one match attempt that ended in r: a match whose follow is
      respected starts with a character of the set, unless it ends at the end of the subject, where
      it needs `e`. */
  ghost predicate FirstHolds(fs: Firsts, follow: Charset, s: Subject, i: nat, r: Outcome)
    requires i <= |s|
  {
    r.Match? ==>
      && (i < |s| && (r.pos == i ==> s[i] in follow) ==> s[i] in fs.cs)
      && (i == |s| ==> fs.e)
  }

  lemma {:induction false} FirstSound(t: Tree, g: Grammar, follow: Charset, s: Subject, i: nat, f: nat, d: nat)
    requires EnvOK(g) && Closed(t, g) && i <= |s|
    ensures FirstHolds(First(t, g, follow, d), follow, s, i, Eval(t, g, s, i, f))
    decreases f
  {
    if f > 0 && Eval(t, g, s, i, f).Match? {
      match t {
        case TChoice(p1, p2) =>
          FirstSound(p1, g, follow, s, i, f - 1, d);
          FirstSound(p2, g, follow, s, i, f - 1, d);
        case TSeq(p1, p2) => FirstSoundSeq(p1, p2, g, follow, s, i, f, d);
        case TRep(p) =>
          FirstSound(p, g, follow, s, i, f - 1, d);
          if Eval(p, g, s, i, f - 1) == Match(i) { FirstSound(t, g, follow, s, i, f - 1, d); }
        case TGrammar(rs) => FirstRule(rs, g); FirstSound(rs[0].body, rs, follow, s, i, f - 1, BUDGET);
        case TCall(k, _) =>
          CalledRule(g, k);
          if d > 0 { FirstSound(g[k].body, g, follow, s, i, f - 1, d - 1); }
        case TAnd(p) => FirstSound(p, g, follow, s, i, f - 1, d);
        case TNot(p) =>
          assert Eval(p, g, s, i, f - 1).Fail?;
          CharsetMeaning(p, g, s, i, f - 1);
        case _ =>
      }
    }
  }

  lemma {:induction false} FirstSoundSeq(p1: Tree, p2: Tree, g: Grammar, follow: Charset, s: Subject, i: nat, f: nat, d: nat)
    requires EnvOK(g) && Closed(p1, g) && Closed(p2, g) && i <= |s| && f > 0
    requires Eval(TSeq(p1, p2), g, s, i, f).Match?
    ensures FirstHolds(First(TSeq(p1, p2), g, follow, d), follow, s, i, Eval(TSeq(p1, p2), g, s, i, f))
    decreases f, 0
  {
    var r1 := Eval(p1, g, s, i, f - 1);
    if !Nullable(p1, g) {
      if r1.pos == i { NullableSound(p1, g, s, i, f - 1); }
      FirstSound(p1, g, FullSet, s, i, f - 1, d);
    } else {
      FirstSound(p2, g, follow, s, r1.pos, f - 1, d);
      FirstSound(p1, g, First(p2, g, follow, d).cs, s, i, f - 1, d);
    }
  }

  /** A character pattern matches exactly one character of its set. */
  lemma CharsetMeaning(t: Tree, g: Grammar, s: Subject, i: nat, f: nat)
    requires i <= |s| && f > 0
    ensures ToCharset(t).Some? ==>
              Eval(t, g, s, i, f) == if i < |s| && s[i] in ToCharset(t).value then Match(i + 1) else Fail
  {
    if t.TAny? && i < |s| { assert s[i] in FullSet; }
  }

  /** The first set of a nofail pattern, with nothing known about what follows, is full. */
  lemma {:induction false} NoFailFirst(t: Tree, g: Grammar, d: nat, d': nat)
    requires CheckAux(t, g, PEnofail, d') && d' <= BUDGET
    ensures First(t, g, FullSet, d).cs == FullSet
    decreases NestIn(t, g), d', t
  {
    match t {
      case TAnd(p) => NoFailFirst(p, g, d, d');
      case TSeq(p1, p2) =>
        NoFailNullable(p1, g, d');
        CheckAuxMono(p1, g, PEnullable, d', BUDGET);
        NoFailFirst(p2, g, d, d');
        NoFailFirst(p1, g, d, d');
      case TChoice(p1, p2) =>
        FirstInFull(p1, g, FullSet, d);
        FirstInFull(p2, g, FullSet, d);
        if CheckAux(p2, g, PEnofail, d') { NoFailFirst(p2, g, d, d'); } else { NoFailFirst(p1, g, d, d'); }
      case TRep(p) => FirstInFull(p, g, FullSet, d);
      case TGrammar(rs) =>
        assert NestRule(rs[0]) <= NestAll(rs);
        NoFailFirst(rs[0].body, rs, BUDGET, BUDGET);
      case TCall(k, _) =>
        assert NestRule(g[k]) <= NestAll(g);
        if d > 0 { NoFailFirst(g[k].body, g, d - 1, d' - 1); }
      case _ =>
    }
  }

  lemma FirstInFull(t: Tree, g: Grammar, follow: Charset, d: nat)
    ensures First(t, g, follow, d).cs <= FullSet
  {
    forall c: Byte ensures c in FullSet {}
  }

  /** A headfail pattern succeeds exactly when there is a next character and it is in the first
      set; in particular it never accepts the empty string. */
  lemma {:induction false} HeadFailSound(t: Tree, g: Grammar, s: Subject, i: nat, f: nat, d: nat)
    requires HeadFailIn(t, g, d)
    requires i <= |s| && !Eval(t, g, s, i, f).OutOfFuel?
    ensures Eval(t, g, s, i, f).Match? <==> i < |s| && s[i] in First(t, g, FullSet, d).cs
    decreases f
  {
    match t {
      case TAny => CharsetMeaning(t, g, s, i, f);
      case TAnd(p) =>
        HeadFailSound(p, g, s, i, f - 1, d);
        FirstInFull(p, g, FullSet, d);
      case TGrammar(rs) => HeadFailSound(rs[0].body, rs, s, i, f - 1, BUDGET);
      case TCall(k, _) => HeadFailSound(g[k].body, g, s, i, f - 1, d - 1);
      case TSeq(p1, p2) =>
        HeadFailSound(p1, g, s, i, f - 1, d);
        var r1 := Eval(p1, g, s, i, f - 1);
        if r1.Match? { NoFailSound(p2, g, s, r1.pos, f - 1, BUDGET); }
        NoFailFirst(p2, g, d, BUDGET);
      case TChoice(p1, p2) =>
        HeadFailSound(p1, g, s, i, f - 1, d);
        if Eval(p1, g, s, i, f - 1).Fail? { HeadFailSound(p2, g, s, i, f - 1, d); }
      case _ =>
    }
  }

  /** The first set of a headfail pattern may be tested: it does not claim the empty string. */
  lemma {:induction false} HeadFailNotEmpty(t: Tree, g: Grammar, follow: Charset, d: nat)
    requires HeadFailIn(t, g, d)
    ensures !First(t, g, follow, d).e
    decreases NestIn(t, g), d, t
  {
    match t {
      case TAnd(p) => HeadFailNotEmpty(p, g, follow, d);
      case TGrammar(rs) => assert NestRule(rs[0]) <= NestAll(rs); HeadFailNotEmpty(rs[0].body, rs, follow, BUDGET);
      case TCall(k, _) => assert NestRule(g[k]) <= NestAll(g); HeadFailNotEmpty(g[k].body, g, follow, d - 1);
      case TSeq(p1, p2) =>
        if Nullable(p1, g) { HeadFailNotEmpty(p1, g, First(p2, g, follow, d).cs, d); }
        else { HeadFailNotEmpty(p1, g, FullSet, d); }
      case TChoice(p1, p2) => HeadFailNotEmpty(p1, g, follow, d); HeadFailNotEmpty(p2, g, follow, d);
      case _ =>
    }
  }
}
