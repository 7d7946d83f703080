/** How skynet/3rd/lpeg/lptree.c builds sequences, choices and repetitions: the shortcuts that its operators take,
    and the order in which nested sequences and choices are put, do not change what a pattern means. */
module LpegShortcuts {
  import opened LpegTree
  import opened LpegAnalysis

  /** Two patterns mean the same: the same result, or none, on every subject. */
  ghost predicate Alike(t: Tree, u: Tree, g: Grammar)
  {
    forall s: Subject, i: nat, r: Outcome :: i <= |s| ==> (Yields(t, g, s, i, r) <==> Yields(u, g, s, i, r))
  }

  // ---- Results of sequences, choices and repetitions ----

  lemma MatchInside(t: Tree, g: Grammar, s: Subject, i: nat, r: Outcome)
    requires i <= |s| && Yields(t, g, s, i, r)
    ensures r.Match? ==> i <= r.pos <= |s|
  {
  }

  /** A result q of t1 from i, followed by a result r of t2 from where q ended. */
  ghost predicate Then(t2: Tree, g: Grammar, s: Subject, q: Outcome, r: Outcome)
  {
    match q
    case Fail => r == Fail
    case Match(j) => j <= |s| && Yields(t2, g, s, j, r)
    case OutOfFuel => false
  }

  lemma SeqYields(t1: Tree, t2: Tree, g: Grammar, s: Subject, i: nat, r: Outcome)
    requires i <= |s|
    ensures Yields(TSeq(t1, t2), g, s, i, r) <==> exists q :: Yields(t1, g, s, i, q) && Then(t2, g, s, q, r)
  {
    if Yields(TSeq(t1, t2), g, s, i, r) {
      var f: nat :| Eval(TSeq(t1, t2), g, s, i, f) == r;
      var less: nat := f - 1;
      var q := Eval(t1, g, s, i, less);
      if q.Match? { assert Eval(t2, g, s, q.pos, less) == r; }
      assert Yields(t1, g, s, i, q) && Then(t2, g, s, q, r);
    }
    if q :| Yields(t1, g, s, i, q) && Then(t2, g, s, q, r) {
      var f: nat :| Eval(t1, g, s, i, f) == q;
      if q.Match? {
        var f': nat :| Eval(t2, g, s, q.pos, f') == r;
        MoreFuel(t1, g, s, i, f, Max(f, f'));
        MoreFuel(t2, g, s, q.pos, f', Max(f, f'));
        assert Eval(TSeq(t1, t2), g, s, i, Max(f, f') + 1) == r;
      } else {
        assert Eval(TSeq(t1, t2), g, s, i, f + 1) == r;
      }
    }
  }

  lemma ChoiceYields(t1: Tree, t2: Tree, g: Grammar, s: Subject, i: nat, r: Outcome)
    requires i <= |s|
    ensures Yields(TChoice(t1, t2), g, s, i, r)
            <==> (r.Match? && Yields(t1, g, s, i, r)) || (Yields(t1, g, s, i, Fail) && Yields(t2, g, s, i, r))
  {
    if Yields(TChoice(t1, t2), g, s, i, r) {
      var f: nat :| Eval(TChoice(t1, t2), g, s, i, f) == r;
      var less: nat := f - 1;
      if Eval(t1, g, s, i, less).Fail? { assert Eval(t2, g, s, i, less) == r; } else { assert Eval(t1, g, s, i, less) == r; }
    }
    if r.Match? && Yields(t1, g, s, i, r) {
      var f: nat :| Eval(t1, g, s, i, f) == r;
      assert Eval(TChoice(t1, t2), g, s, i, f + 1) == r;
    }
    if Yields(t1, g, s, i, Fail) && Yields(t2, g, s, i, r) {
      var f: nat :| Eval(t1, g, s, i, f) == Fail;
      var f': nat :| Eval(t2, g, s, i, f') == r;
      MoreFuel(t1, g, s, i, f, Max(f, f'));
      MoreFuel(t2, g, s, i, f', Max(f, f'));
      assert Eval(TChoice(t1, t2), g, s, i, Max(f, f') + 1) == r;
    }
  }

  lemma LeafYields(t: Tree, g: Grammar, s: Subject, i: nat, r: Outcome)
    requires i <= |s|
    ensures Yields(TTrue, g, s, i, r) <==> r == Match(i)
    ensures Yields(TFalse, g, s, i, r) <==> r == Fail
  {
    assert Eval(TTrue, g, s, i, 1) == Match(i) && Eval(TFalse, g, s, i, 1) == Fail;
  }

  // ---- The operators ----

  /** lp_seq. */
  function Seq(t1: Tree, t2: Tree): Tree
  {
    if t1.TFalse? || t2.TTrue? then t1 else if t1.TTrue? then t2 else TSeq(t1, t2)
  }

  /** false . x is false, x . true is x, and true . x is x. */
  lemma SeqAlike(t1: Tree, t2: Tree, g: Grammar)
    ensures Alike(Seq(t1, t2), TSeq(t1, t2), g)
  {
    forall s: Subject, i: nat, r: Outcome | i <= |s|
      ensures Yields(Seq(t1, t2), g, s, i, r) <==> Yields(TSeq(t1, t2), g, s, i, r)
    {
      SeqYields(t1, t2, g, s, i, r);
      SeqCases(t1, t2, g, s, i, r);
    }
  }

  lemma SeqCases(t1: Tree, t2: Tree, g: Grammar, s: Subject, i: nat, r: Outcome)
    requires i <= |s|
    ensures t1.TFalse? || t2.TTrue? ==>
              (Yields(t1, g, s, i, r) <==> exists q :: Yields(t1, g, s, i, q) && Then(t2, g, s, q, r))
    ensures t1.TTrue? ==> (Yields(t2, g, s, i, r) <==> exists q :: Yields(t1, g, s, i, q) && Then(t2, g, s, q, r))
  {
    hide Eval;
    forall q: Outcome ensures Yields(t1, g, s, i, q) && q.Match? && t2.TTrue? ==> (Then(t2, g, s, q, r) <==> r == q) {
      if Yields(t1, g, s, i, q) && q.Match? {
        MatchBounds(t1, g, s, i, q);
        LeafYields(t1, g, s, q.pos, r);
      }
    }
    forall q: Outcome ensures (t1.TTrue? ==> (Yields(t1, g, s, i, q) <==> q == Match(i))) && (t1.TFalse? ==> (Yields(t1, g, s, i, q) <==> q == Fail)) {
      LeafYields(t1, g, s, i, q);
    }
    if Yields(t1, g, s, i, r) && (t1.TFalse? || t2.TTrue?) { assert Then(t2, g, s, r, r); }
    if t1.TTrue? && Yields(t2, g, s, i, r) { assert Then(t2, g, s, Match(i), r); }
  }

  lemma MatchBounds(t: Tree, g: Grammar, s: Subject, i: nat, q: Outcome)
    requires i <= |s| && Yields(t, g, s, i, q) && q.Match?
    ensures i <= q.pos <= |s|
  {
    MatchInside(t, g, s, i, q);
  }

  /** lp_choice. */
  ghost function Choice(t1: Tree, t2: Tree, g: Grammar): Tree
  {
    if ToCharset(t1).Some? && ToCharset(t2).Some? then TSet(ToCharset(t1).value + ToCharset(t2).value)
    else if NoFail(t1, g) || t2.TFalse? then t1
    else if t1.TFalse? then t2
    else TChoice(t1, t2)
  }

  /** A choice of two sets is their union, true / x is true, x / false is x, and false / x is x. */
  lemma ChoiceAlike(t1: Tree, t2: Tree, g: Grammar)
    ensures Alike(Choice(t1, t2, g), TChoice(t1, t2), g)
  {
    hide Eval, Yields, NoFail;
    forall s: Subject, i: nat, r: Outcome | i <= |s|
      ensures Yields(Choice(t1, t2, g), g, s, i, r) <==> Yields(TChoice(t1, t2), g, s, i, r)
    {
      ChoiceYields(t1, t2, g, s, i, r);
      if ToCharset(t1).Some? && ToCharset(t2).Some? {
        SetsYield(t1, t2, g, s, i, r);
      } else if NoFail(t1, g) {
        NeverFails(t1, g, s, i);
        FailOrMatch(t1, g, s, i, r);
      } else {
        LeafYields(t1, g, s, i, r);
        LeafYields(t1, g, s, i, Fail);
        FailOrMatch(t1, g, s, i, r);
      }
    }
  }

  lemma FailOrMatch(t: Tree, g: Grammar, s: Subject, i: nat, r: Outcome)
    requires i <= |s|
    ensures Yields(t, g, s, i, r) ==> r == Fail || r.Match?
  {
  }

  lemma NeverFails(t: Tree, g: Grammar, s: Subject, i: nat)
    requires i <= |s| && NoFail(t, g)
    ensures !Yields(t, g, s, i, Fail)
  {
    hide CheckAux;
    forall f: nat ensures Eval(t, g, s, i, f) != Fail { NoFailSound(t, g, s, i, f, BUDGET); }
  }

  /** What a pattern that is a set yields. */
  lemma SetYields(t: Tree, g: Grammar, s: Subject, i: nat, r: Outcome)
    requires i <= |s| && ToCharset(t).Some?
    ensures Yields(t, g, s, i, r) <==> r == if i < |s| && s[i] in ToCharset(t).value then Match(i + 1) else Fail
  {
    hide ToCharset;
    forall f: nat | f > 0 ensures Eval(t, g, s, i, f) == Eval(t, g, s, i, 1) {
      CharsetMeaning(t, g, s, i, f);
      CharsetMeaning(t, g, s, i, 1);
    }
    CharsetMeaning(t, g, s, i, 1);
    NoFuel(t, g, s, i);
  }

  lemma NoFuel(t: Tree, g: Grammar, s: Subject, i: nat)
    requires i <= |s|
    ensures Eval(t, g, s, i, 0) == OutOfFuel
  {
  }

  lemma SetsYield(t1: Tree, t2: Tree, g: Grammar, s: Subject, i: nat, r: Outcome)
    requires i <= |s| && ToCharset(t1).Some? && ToCharset(t2).Some?
    ensures Yields(TSet(ToCharset(t1).value + ToCharset(t2).value), g, s, i, r)
            <==> (r.Match? && Yields(t1, g, s, i, r)) || (Yields(t1, g, s, i, Fail) && Yields(t2, g, s, i, r))
  {
    hide Yields;
    SetYields(t1, g, s, i, r);
    SetYields(t1, g, s, i, Fail);
    SetYields(t2, g, s, i, r);
    SetYields(TSet(ToCharset(t1).value + ToCharset(t2).value), g, s, i, r);
  }

  // ---- Associativity ----

  /** correctassociativity, for sequences: the loop moves what is nested on the left to the right. */
  method CorrectSeq(tree: Tree, ghost g: Grammar) returns (t: Tree)
    requires tree.TSeq?
    ensures t.TSeq? && !t.p1.TSeq? && Alike(t, tree, g)
  {
    hide Yields;
    t := tree;
    while t.p1.TSeq?
      invariant t.TSeq? && Alike(t, tree, g)
      decreases t.p1
    {
      SeqRotates(t.p1.p1, t.p1.p2, t.p2, g);
      t := TSeq(t.p1.p1, TSeq(t.p1.p2, t.p2));
    }
  }

  lemma SeqRotates(a: Tree, b: Tree, c: Tree, g: Grammar)
    ensures Alike(TSeq(TSeq(a, b), c), TSeq(a, TSeq(b, c)), g)
  {
    forall s: Subject, i: nat, r: Outcome | i <= |s|
      ensures Yields(TSeq(TSeq(a, b), c), g, s, i, r) <==> Yields(TSeq(a, TSeq(b, c)), g, s, i, r)
    {
      if Yields(TSeq(TSeq(a, b), c), g, s, i, r) { SeqRight(a, b, c, g, s, i, r); }
      SeqLeft(a, b, c, g, s, i, r);
    }
  }

  lemma SeqRight(a: Tree, b: Tree, c: Tree, g: Grammar, s: Subject, i: nat, r: Outcome)
    requires i <= |s| && Yields(TSeq(TSeq(a, b), c), g, s, i, r)
    ensures Yields(TSeq(a, TSeq(b, c)), g, s, i, r)
  {
    hide Yields;
    SeqYields(TSeq(a, b), c, g, s, i, r);
    var q :| Yields(TSeq(a, b), g, s, i, q) && Then(c, g, s, q, r);
    SeqYields(a, b, g, s, i, q);
    var p :| Yields(a, g, s, i, p) && Then(b, g, s, p, q);
    if p.Match? {
      SeqYields(b, c, g, s, p.pos, r);
    }
    assert Then(TSeq(b, c), g, s, p, r);
    SeqYields(a, TSeq(b, c), g, s, i, r);
  }

  lemma SeqLeft(a: Tree, b: Tree, c: Tree, g: Grammar, s: Subject, i: nat, r: Outcome)
    requires i <= |s|
    ensures Yields(TSeq(a, TSeq(b, c)), g, s, i, r) ==> Yields(TSeq(TSeq(a, b), c), g, s, i, r)
  {
    hide Yields;
    if Yields(TSeq(a, TSeq(b, c)), g, s, i, r) {
      SeqYields(a, TSeq(b, c), g, s, i, r);
      var p :| Yields(a, g, s, i, p) && Then(TSeq(b, c), g, s, p, r);
      var q := p;
      if p.Match? {
        SeqYields(b, c, g, s, p.pos, r);
        q :| Yields(b, g, s, p.pos, q) && Then(c, g, s, q, r);
      }
      assert Then(b, g, s, p, q);
      SeqYields(a, b, g, s, i, q);
      SeqYields(TSeq(a, b), c, g, s, i, r);
    }
  }

  /** correctassociativity, for choices. */
  method CorrectChoice(tree: Tree, ghost g: Grammar) returns (t: Tree)
    requires tree.TChoice?
    ensures t.TChoice? && !t.p1.TChoice? && Alike(t, tree, g)
  {
    hide Yields;
    t := tree;
    while t.p1.TChoice?
      invariant t.TChoice? && Alike(t, tree, g)
      decreases t.p1
    {
      ChoiceRotates(t.p1.p1, t.p1.p2, t.p2, g);
      t := TChoice(t.p1.p1, TChoice(t.p1.p2, t.p2));
    }
  }

  lemma ChoiceRotates(a: Tree, b: Tree, c: Tree, g: Grammar)
    ensures Alike(TChoice(TChoice(a, b), c), TChoice(a, TChoice(b, c)), g)
  {
    hide Yields;
    forall s: Subject, i: nat, r: Outcome | i <= |s|
      ensures Yields(TChoice(TChoice(a, b), c), g, s, i, r) <==> Yields(TChoice(a, TChoice(b, c)), g, s, i, r)
    {
      ChoiceYields(TChoice(a, b), c, g, s, i, r);
      ChoiceYields(a, b, g, s, i, r);
      ChoiceYields(a, b, g, s, i, Fail);
      ChoiceYields(b, c, g, s, i, r);
      ChoiceYields(a, TChoice(b, c), g, s, i, r);
    }
  }

  // ---- Repetitions ----

  /** p matches k times in a row, from i to j. */
  ghost predicate Times(p: Tree, g: Grammar, s: Subject, i: nat, k: nat, j: nat)
    decreases k
  {
    i <= |s| && if k == 0 then j == i else exists m: nat :: Yields(p, g, s, i, Match(m)) && Times(p, g, s, m, k - 1, j)
  }

  /** One more repetition. */
  lemma RepGoesOn(p: Tree, g: Grammar, s: Subject, i: nat, m: nat, r: Outcome)
    requires i <= |s| && Yields(p, g, s, i, Match(m)) && Then(TRep(p), g, s, Match(m), r)
    ensures Yields(TRep(p), g, s, i, r)
  {
    var f: nat :| Eval(p, g, s, i, f) == Match(m);
    var f': nat :| Eval(TRep(p), g, s, m, f') == r;
    MoreFuel(p, g, s, i, f, Max(f, f'));
    MoreFuel(TRep(p), g, s, m, f', Max(f, f'));
    assert Eval(TRep(p), g, s, i, Max(f, f') + 1) == r;
  }

  /** No more repetition. */
  lemma RepAtOnce(p: Tree, g: Grammar, s: Subject, i: nat)
    requires i <= |s| && Yields(p, g, s, i, Fail)
    ensures Yields(TRep(p), g, s, i, Match(i))
  {
    var f: nat :| Eval(p, g, s, i, f) == Fail;
    assert Eval(TRep(p), g, s, i, f + 1) == Match(i);
  }

  /** A repetition stops or goes on. */
  lemma RepEither(p: Tree, g: Grammar, s: Subject, i: nat, r: Outcome)
    requires i <= |s| && Yields(TRep(p), g, s, i, r)
    ensures (r == Match(i) && Yields(p, g, s, i, Fail))
            || exists m: nat :: Yields(p, g, s, i, Match(m)) && Then(TRep(p), g, s, Match(m), r)
  {
    var f: nat :| Eval(TRep(p), g, s, i, f) == r;
    var less: nat := f - 1;
    var q := Eval(p, g, s, i, less);
    if q.Match? {
      assert Eval(TRep(p), g, s, q.pos, less) == r;
      assert Yields(p, g, s, i, Match(q.pos)) && Then(TRep(p), g, s, Match(q.pos), r);
    }
  }

  lemma RepYields(p: Tree, g: Grammar, s: Subject, i: nat, r: Outcome)
    requires i <= |s|
    ensures Yields(TRep(p), g, s, i, r)
            <==> (r == Match(i) && Yields(p, g, s, i, Fail))
                 || exists m: nat :: Yields(p, g, s, i, Match(m)) && Then(TRep(p), g, s, Match(m), r)
  {
    hide Yields, Then;
    if Yields(TRep(p), g, s, i, r) { RepEither(p, g, s, i, r); }
    if r == Match(i) && Yields(p, g, s, i, Fail) { RepAtOnce(p, g, s, i); }
    if m: nat :| Yields(p, g, s, i, Match(m)) && Then(TRep(p), g, s, Match(m), r) { RepGoesOn(p, g, s, i, m, r); }
  }

  /** A repetition matches as often as it can, and then ends where its body fails. */
  lemma RepMeans(p: Tree, g: Grammar, s: Subject, i: nat, j: nat)
    requires i <= |s|
    ensures Yields(TRep(p), g, s, i, Match(j)) <==> exists k: nat :: Stops(p, g, s, i, k, j)
    ensures !Yields(TRep(p), g, s, i, Fail)
  {
    if Yields(TRep(p), g, s, i, Match(j)) {
      var f: nat :| Eval(TRep(p), g, s, i, f) == Match(j);
      var k := RepStops(p, g, s, i, j, f);
    }
    if k: nat :| Stops(p, g, s, i, k, j) { StopsRep(p, g, s, i, j, k); }
    forall f: nat ensures Eval(TRep(p), g, s, i, f) != Fail { RepNeverFails(p, g, s, i, f); }
  }

  /** p matches k times from i to j, and fails there. */
  ghost predicate Stops(p: Tree, g: Grammar, s: Subject, i: nat, k: nat, j: nat)
  {
    j <= |s| && Times(p, g, s, i, k, j) && Yields(p, g, s, j, Fail)
  }

  lemma {:induction false} RepStops(p: Tree, g: Grammar, s: Subject, i: nat, j: nat, f: nat) returns (k: nat)
    requires i <= |s| && Eval(TRep(p), g, s, i, f) == Match(j)
    ensures Stops(p, g, s, i, k, j)
    decreases f
  {
    var q := Eval(p, g, s, i, f - 1);
    if q.Match? {
      var k' := RepStops(p, g, s, q.pos, j, f - 1);
      k := k' + 1;
      assert Yields(p, g, s, i, Match(q.pos)) && Times(p, g, s, q.pos, k - 1, j);
    } else {
      k := 0;
      assert Yields(p, g, s, i, Fail);
    }
  }

  lemma {:induction false} StopsRep(p: Tree, g: Grammar, s: Subject, i: nat, j: nat, k: nat)
    requires i <= |s| && Stops(p, g, s, i, k, j)
    ensures Yields(TRep(p), g, s, i, Match(j))
    decreases k
  {
    hide Yields;
    RepYields(p, g, s, i, Match(j));
    if k > 0 {
      var m: nat :| Yields(p, g, s, i, Match(m)) && Times(p, g, s, m, k - 1, j);
      StopsRep(p, g, s, m, j, k - 1);
      assert Then(TRep(p), g, s, Match(m), Match(j));
    }
  }

  lemma {:induction false} RepNeverFails(p: Tree, g: Grammar, s: Subject, i: nat, f: nat)
    requires i <= |s|
    ensures Eval(TRep(p), g, s, i, f) != Fail
    decreases f
  {
    if f > 0 && Eval(p, g, s, i, f - 1).Match? { RepNeverFails(p, g, s, Eval(p, g, s, i, f - 1).pos, f - 1); }
  }

  /** lp_star, for n >= 0: n copies and a repetition. */
  function AtLeast(p: Tree, n: nat): Tree
  {
    if n == 0 then TRep(p) else TSeq(p, AtLeast(p, n - 1))
  }

  /** lp_star, for -n: at most n copies. */
  function AtMost(p: Tree, n: nat): Tree
    requires n > 0
  {
    TChoice(if n == 1 then p else TSeq(p, AtMost(p, n - 1)), TTrue)
  }

  /** p^n matches as often as it can, if that is at least n times; else it fails. */
  lemma {:induction false} AtLeastMeans(p: Tree, g: Grammar, s: Subject, i: nat, n: nat)
    requires i <= |s|
    ensures forall j: nat :: Yields(AtLeast(p, n), g, s, i, Match(j)) <==> exists k: nat :: k >= n && Stops(p, g, s, i, k, j)
    ensures Yields(AtLeast(p, n), g, s, i, Fail) <==> exists k: nat, j: nat :: k < n && Stops(p, g, s, i, k, j)
    decreases n
  {
    hide Yields;
    if n == 0 {
      forall j: nat ensures Yields(TRep(p), g, s, i, Match(j)) <==> exists k: nat :: Stops(p, g, s, i, k, j) { RepMeans(p, g, s, i, j); }
      RepMeans(p, g, s, i, 0);
    } else {
      forall j: nat ensures Yields(AtLeast(p, n), g, s, i, Match(j)) <==> exists k: nat :: k >= n && Stops(p, g, s, i, k, j) {
        SeqYields(p, AtLeast(p, n - 1), g, s, i, Match(j));
        OneMore(p, g, s, i, n, j);
      }
      SeqYields(p, AtLeast(p, n - 1), g, s, i, Fail);
      OneLess(p, g, s, i, n);
    }
  }

  lemma StopsNext(p: Tree, g: Grammar, s: Subject, i: nat, m: nat, k: nat, j: nat)
    requires i <= |s| && Yields(p, g, s, i, Match(m)) && Stops(p, g, s, m, k, j)
    ensures Stops(p, g, s, i, k + 1, j)
  {
    hide Yields;
    assert Times(p, g, s, m, k + 1 - 1, j);
  }

  lemma StopsFirst(p: Tree, g: Grammar, s: Subject, i: nat, k: nat, j: nat) returns (m: nat)
    requires Stops(p, g, s, i, k, j) && k > 0
    ensures m <= |s| && Yields(p, g, s, i, Match(m)) && Stops(p, g, s, m, k - 1, j)
  {
    hide Yields;
    m :| Yields(p, g, s, i, Match(m)) && Times(p, g, s, m, k - 1, j);
    TimesInside(p, g, s, m, k - 1, j);
  }

  lemma {:induction false} OneMore(p: Tree, g: Grammar, s: Subject, i: nat, n: nat, j: nat)
    requires i <= |s| && n > 0
    ensures (exists q :: Yields(p, g, s, i, q) && Then(AtLeast(p, n - 1), g, s, q, Match(j)))
            <==> exists k: nat :: k >= n && Stops(p, g, s, i, k, j)
    decreases n, 0
  {
    hide Yields, Stops;
    if q :| Yields(p, g, s, i, q) && Then(AtLeast(p, n - 1), g, s, q, Match(j)) {
      AtLeastMeans(p, g, s, q.pos, n - 1);
      var k: nat :| k >= n - 1 && Stops(p, g, s, q.pos, k, j);
      StopsNext(p, g, s, i, q.pos, k, j);
    }
    if k: nat :| k >= n && Stops(p, g, s, i, k, j) {
      var m := StopsFirst(p, g, s, i, k, j);
      AtLeastMeans(p, g, s, m, n - 1);
      assert Then(AtLeast(p, n - 1), g, s, Match(m), Match(j));
    }
  }

  lemma TimesInside(p: Tree, g: Grammar, s: Subject, i: nat, k: nat, j: nat)
    requires Times(p, g, s, i, k, j)
    ensures i <= |s|
  {
  }

  lemma {:induction false} OneLess(p: Tree, g: Grammar, s: Subject, i: nat, n: nat)
    requires i <= |s| && n > 0
    ensures (exists q :: Yields(p, g, s, i, q) && Then(AtLeast(p, n - 1), g, s, q, Fail))
            <==> exists k: nat, j: nat :: k < n && Stops(p, g, s, i, k, j)
    decreases n, 0
  {
    hide Yields;
    if q :| Yields(p, g, s, i, q) && Then(AtLeast(p, n - 1), g, s, q, Fail) {
      if q.Match? {
        AtLeastMeans(p, g, s, q.pos, n - 1);
        var k: nat, j: nat :| k < n - 1 && Stops(p, g, s, q.pos, k, j);
        StopsNext(p, g, s, i, q.pos, k, j);
      } else {
        assert Stops(p, g, s, i, 0, i);
      }
    }
    if k: nat, j: nat :| k < n && Stops(p, g, s, i, k, j) {
      if k == 0 {
        assert Then(AtLeast(p, n - 1), g, s, Fail, Fail);
      } else {
        var m := StopsFirst(p, g, s, i, k, j);
        AtLeastMeans(p, g, s, m, n - 1);
        assert Then(AtLeast(p, n - 1), g, s, Match(m), Fail);
      }
    }
  }

  /** p matched k times from i to j, and k is n or p fails there. */
  ghost predicate StopsAt(p: Tree, g: Grammar, s: Subject, i: nat, n: nat, k: nat, j: nat)
  {
    k <= n && j <= |s| && Times(p, g, s, i, k, j) && (k == n || Yields(p, g, s, j, Fail))
  }

  /** p^-n matches as often as it can, but at most n times; it never fails. */
  lemma {:induction false} AtMostMeans(p: Tree, g: Grammar, s: Subject, i: nat, n: nat, j: nat)
    requires i <= |s| && n > 0
    ensures Yields(AtMost(p, n), g, s, i, Match(j)) <==> exists k: nat :: StopsAt(p, g, s, i, n, k, j)
    ensures !Yields(AtMost(p, n), g, s, i, Fail)
    decreases n
  {
    hide Yields;
    var body := if n == 1 then p else TSeq(p, AtMost(p, n - 1));
    ChoiceYields(body, TTrue, g, s, i, Match(j));
    ChoiceYields(body, TTrue, g, s, i, Fail);
    LeafYields(body, g, s, i, Match(j));
    LeafYields(body, g, s, i, Fail);
    BodyFails(p, g, s, i, n);
    BodyMatches(p, g, s, i, n, j);
    if Yields(p, g, s, i, Fail) && j == i { assert StopsAt(p, g, s, i, n, 0, j); }
  }

  lemma {:induction false} BodyFails(p: Tree, g: Grammar, s: Subject, i: nat, n: nat)
    requires i <= |s| && n > 0
    ensures var body := if n == 1 then p else TSeq(p, AtMost(p, n - 1)); Yields(body, g, s, i, Fail) <==> Yields(p, g, s, i, Fail)
    decreases n, 0
  {
    hide Yields;
    if n > 1 {
      SeqYields(p, AtMost(p, n - 1), g, s, i, Fail);
      forall q: Outcome | Yields(p, g, s, i, q) && q.Match? ensures !Then(AtMost(p, n - 1), g, s, q, Fail) {
        MatchBounds(p, g, s, i, q);
        AtMostMeans(p, g, s, q.pos, n - 1, 0);
      }
      if Yields(p, g, s, i, Fail) { assert Then(AtMost(p, n - 1), g, s, Fail, Fail); }
      forall q: Outcome | Yields(p, g, s, i, q) ensures q == Fail || q.Match? { FailOrMatch(p, g, s, i, q); }
    }
  }

  lemma {:induction false} BodyMatches(p: Tree, g: Grammar, s: Subject, i: nat, n: nat, j: nat)
    requires i <= |s| && n > 0
    ensures var body := if n == 1 then p else TSeq(p, AtMost(p, n - 1));
            Yields(body, g, s, i, Match(j)) <==> exists k: nat :: k > 0 && StopsAt(p, g, s, i, n, k, j)
    decreases n, 0
  {
    hide Yields;
    if n > 1 { SeqYields(p, AtMost(p, n - 1), g, s, i, Match(j)); }
    if k: nat :| k > 0 && StopsAt(p, g, s, i, n, k, j) {
      var m: nat :| Yields(p, g, s, i, Match(m)) && Times(p, g, s, m, k - 1, j);
      TimesInside(p, g, s, m, k - 1, j);
      if n > 1 {
        AtMostMeans(p, g, s, m, n - 1, j);
        assert StopsAt(p, g, s, m, n - 1, k - 1, j);
        assert Then(AtMost(p, n - 1), g, s, Match(m), Match(j));
      }
    }
    if n == 1 && Yields(p, g, s, i, Match(j)) {
      MatchBounds(p, g, s, i, Match(j));
      assert Times(p, g, s, j, 0, j);
      assert Times(p, g, s, i, 1, j);
      assert StopsAt(p, g, s, i, 1, 1, j);
    }
    if n > 1 && Yields(TSeq(p, AtMost(p, n - 1)), g, s, i, Match(j)) {
      var q :| Yields(p, g, s, i, q) && Then(AtMost(p, n - 1), g, s, q, Match(j));
      AtMostMeans(p, g, s, q.pos, n - 1, j);
      var k: nat :| StopsAt(p, g, s, q.pos, n - 1, k, j);
      assert Yields(p, g, s, i, Match(q.pos)) && Times(p, g, s, q.pos, k + 1 - 1, j);
      assert StopsAt(p, g, s, i, n, k + 1, j);
    }
  }

  // ---- Predicates ----

  /** -p says where p fails, and consumes nothing. */
  lemma NotYields(p: Tree, g: Grammar, s: Subject, i: nat, r: Outcome)
    requires i <= |s|
    ensures Yields(TNot(p), g, s, i, r)
            <==> (r == Match(i) && Yields(p, g, s, i, Fail)) || (r == Fail && exists j: nat :: Yields(p, g, s, i, Match(j)))
  {
    if Yields(TNot(p), g, s, i, r) {
      var f: nat :| Eval(TNot(p), g, s, i, f) == r;
      var q := Eval(p, g, s, i, f - 1);
      if q.Match? { assert Yields(p, g, s, i, Match(q.pos)); } else { assert Yields(p, g, s, i, Fail); }
    }
    if q :| Yields(p, g, s, i, q) && (q == Fail || q.Match?) {
      forall x: Outcome ensures Yields(p, g, s, i, x) <==> x == q { OneResult(p, g, s, i, x, q); }
      var f: nat :| Eval(p, g, s, i, f) == q;
      assert Eval(TNot(p), g, s, i, f + 1) == if q.Fail? then Match(i) else Fail;
      OneResult(TNot(p), g, s, i, r, if q.Fail? then Match(i) else Fail);
    }
  }

  lemma OneResult(t: Tree, g: Grammar, s: Subject, i: nat, q: Outcome, r: Outcome)
    requires i <= |s| && !r.OutOfFuel? && Yields(t, g, s, i, r)
    ensures Yields(t, g, s, i, q) <==> q == r
  {
    if Yields(t, g, s, i, q) {
      var f: nat :| Eval(t, g, s, i, f) == q;
      var f': nat :| Eval(t, g, s, i, f') == r;
      if f <= f' { MoreFuel(t, g, s, i, f, f'); } else { MoreFuel(t, g, s, i, f', f); }
    }
  }

  lemma AndYields(p: Tree, g: Grammar, s: Subject, i: nat, r: Outcome)
    requires i <= |s|
    ensures Yields(TAnd(p), g, s, i, r)
            <==> (r == Fail && Yields(p, g, s, i, Fail)) || (r == Match(i) && exists j: nat :: Yields(p, g, s, i, Match(j)))
  {
    if Yields(TAnd(p), g, s, i, r) {
      var f: nat :| Eval(TAnd(p), g, s, i, f) == r;
      var q := Eval(p, g, s, i, f - 1);
      if q.Match? { assert Yields(p, g, s, i, Match(q.pos)); } else { assert Yields(p, g, s, i, Fail); }
    }
    if q :| Yields(p, g, s, i, q) && (q == Fail || q.Match?) {
      forall x: Outcome ensures Yields(p, g, s, i, x) <==> x == q { OneResult(p, g, s, i, x, q); }
      var f: nat :| Eval(p, g, s, i, f) == q;
      assert Eval(TAnd(p), g, s, i, f + 1) == if q.Fail? then Fail else Match(i);
      OneResult(TAnd(p), g, s, i, r, if q.Fail? then Fail else Match(i));
    }
  }

  /** #p is --p. */
  lemma AndIsDoubleNot(p: Tree, g: Grammar)
    ensures Alike(TAnd(p), TNot(TNot(p)), g)
  {
    hide Yields;
    forall s: Subject, i: nat, r: Outcome | i <= |s|
      ensures Yields(TAnd(p), g, s, i, r) <==> Yields(TNot(TNot(p)), g, s, i, r)
    {
      AndYields(p, g, s, i, r);
      NotYields(TNot(p), g, s, i, r);
      NotYields(p, g, s, i, Fail);
      NotYields(p, g, s, i, Match(i));
      forall j: nat ensures Yields(TNot(p), g, s, i, Match(j)) <==> j == i && Yields(p, g, s, i, Fail) {
        NotYields(p, g, s, i, Match(j));
      }
    }
  }

  /** lp_behind: what looks behind has a fixed length. */
  ghost function Behind(p: Tree): Option<Tree>
  {
    if Len(p, []) < 0 then None else Some(TBehind(Len(p, []), p))
  }

  /** B(p) matches where p matches some text that ends exactly there, and consumes nothing. */
  lemma BehindMeans(p: Tree, g: Grammar, s: Subject, i: nat, j: nat)
    requires i <= |s| && Behind(p).Some?
    ensures Yields(Behind(p).value, g, s, i, Match(j)) <==> j == i && exists m: nat :: m <= i && Yields(p, [], s, m, Match(i))
  {
    hide FixedLen;
    var n: nat := Len(p, []);
    var t := TBehind(n, p);
    if Yields(t, g, s, i, Match(j)) {
      var f: nat :| Eval(t, g, s, i, f) == Match(j);
      FixedLenSound(p, [], {}, s, i - n, f - 1);
      assert Yields(p, [], s, i - n, Match(i));
    }
    if m: nat :| m <= i && Yields(p, [], s, m, Match(i)) {
      var f: nat :| Eval(p, [], s, m, f) == Match(i);
      FixedLenSound(p, [], {}, s, m, f);
      assert Eval(t, g, s, i, f + 1) == Match(i);
    }
  }

  /** lp_sub. */
  function Difference(t1: Tree, t2: Tree): Tree
  {
    if ToCharset(t1).Some? && ToCharset(t2).Some? then TSet(ToCharset(t1).value - ToCharset(t2).value)
    else TSeq(TNot(t2), t1)
  }

  /** t1 - t2 matches what t1 matches, where t2 fails. */
  lemma DifferenceMeans(t1: Tree, t2: Tree, g: Grammar, s: Subject, i: nat, r: Outcome)
    requires i <= |s|
    ensures Yields(Difference(t1, t2), g, s, i, r)
            <==> (Yields(t2, g, s, i, Fail) && Yields(t1, g, s, i, r))
                 || (r == Fail && exists j: nat :: Yields(t2, g, s, i, Match(j)))
  {
    hide Yields, ToCharset;
    if ToCharset(t1).Some? && ToCharset(t2).Some? {
      SetYields(t1, g, s, i, r);
      SetYields(t2, g, s, i, Fail);
      SetYields(t2, g, s, i, Match(i + 1));
      forall j: nat ensures Yields(t2, g, s, i, Match(j)) ==> j == i + 1 { SetYields(t2, g, s, i, Match(j)); }
      DifferenceSet(t1, t2);
      SetYields(TSet(ToCharset(t1).value - ToCharset(t2).value), g, s, i, r);
    } else {
      SeqYields(TNot(t2), t1, g, s, i, r);
      forall q: Outcome
        ensures Yields(TNot(t2), g, s, i, q)
                <==> (q == Match(i) && Yields(t2, g, s, i, Fail)) || (q == Fail && exists j: nat :: Yields(t2, g, s, i, Match(j)))
      {
        NotYields(t2, g, s, i, q);
      }
      if Yields(t2, g, s, i, Fail) && Yields(t1, g, s, i, r) { assert Then(t1, g, s, Match(i), r); }
      if r == Fail && exists j: nat :: Yields(t2, g, s, i, Match(j)) { assert Then(t1, g, s, Fail, r); }
    }
  }

  lemma DifferenceSet(t1: Tree, t2: Tree)
    requires ToCharset(t1).Some? && ToCharset(t2).Some?
    ensures ToCharset(TSet(ToCharset(t1).value - ToCharset(t2).value)) == Some(ToCharset(t1).value - ToCharset(t2).value)
  {
  }
}
