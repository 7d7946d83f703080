/** Pattern trees and the meaning of patterns.

    A tree is what skynet/3rd/lpeg/lptree.c builds, with captures left out.  A call names a rule of
    the innermost enclosing grammar, because a sub-grammar is fixed (its calls are resolved) before
    it is embedded in a bigger one; the body of a look-behind has no calls to rules around it at all.
    `Eval` is the reference semantics: plain recursive PEG
    matching, with a fuel argument so that it is defined for left-recursive grammars as well. */
module LpegTree {

  type Byte = x: int | 0 <= x < 256
  type Charset = set<Byte>
  type Subject = seq<Byte>

  const FullSet: Charset := set c: Byte | 0 <= c < 256

  /** `site` identifies the call node itself (its address in the tree), `rule` the rule it calls. */
  datatype Tree =
    | TChar(c: Byte)
    | TSet(cs: Charset)
    | TAny
    | TTrue
    | TFalse
    | TRep(p: Tree)
    | TSeq(p1: Tree, p2: Tree)
    | TChoice(p1: Tree, p2: Tree)
    | TNot(p: Tree)
    | TAnd(p: Tree)
    | TCall(rule: nat, site: nat)
    | TGrammar(rules: Grammar)
    | TBehind(n: nat, p: Tree)

  /** A rule is `used` when its key is not zero, that is, when some call or the grammar itself
      refers to it. */
  datatype Rule = Rule(used: bool, body: Tree)
  type Grammar = seq<Rule>

  datatype Outcome = OutOfFuel | Fail | Match(pos: nat)

  /** The meaning of pattern t, inside grammar g, at position i of subject s. */
  ghost function Eval(t: Tree, g: Grammar, s: Subject, i: nat, fuel: nat): (r: Outcome)
    requires i <= |s|
    ensures r.Match? ==> i <= r.pos <= |s|
    decreases fuel
  {
    if fuel == 0 then OutOfFuel
    else
      match t
      case TChar(c) => if i < |s| && s[i] == c then Match(i + 1) else Fail
      case TSet(cs) => if i < |s| && s[i] in cs then Match(i + 1) else Fail
      case TAny => if i < |s| then Match(i + 1) else Fail
      case TTrue => Match(i)
      case TFalse => Fail
      case TRep(p) =>
        (match Eval(p, g, s, i, fuel - 1)
         case OutOfFuel => OutOfFuel
         case Fail => Match(i)
         case Match(j) => Eval(t, g, s, j, fuel - 1))
      case TSeq(p1, p2) =>
        (match Eval(p1, g, s, i, fuel - 1)
         case OutOfFuel => OutOfFuel
         case Fail => Fail
         case Match(j) => Eval(p2, g, s, j, fuel - 1))
      case TChoice(p1, p2) =>
        (match Eval(p1, g, s, i, fuel - 1)
         case OutOfFuel => OutOfFuel
         case Fail => Eval(p2, g, s, i, fuel - 1)
         case Match(j) => Match(j))
      case TNot(p) =>
        (match Eval(p, g, s, i, fuel - 1)
         case OutOfFuel => OutOfFuel
         case Fail => Match(i)
         case Match(_) => Fail)
      case TAnd(p) =>
        (match Eval(p, g, s, i, fuel - 1)
         case OutOfFuel => OutOfFuel
         case Fail => Fail
         case Match(_) => Match(i))
      case TCall(k, _) => if k < |g| then Eval(g[k].body, g, s, i, fuel - 1) else Fail
      case TGrammar(rs) => if |rs| > 0 then Eval(rs[0].body, rs, s, i, fuel - 1) else Fail
      case TBehind(n, p) =>
        if n > i then Fail
        else
          (match Eval(p, [], s, i - n, fuel - 1)
           case OutOfFuel => OutOfFuel
           case Fail => Fail
           case Match(_) => Match(i))
  }

  /** More fuel never changes an answer. */
  lemma {:induction false} MoreFuel(t: Tree, g: Grammar, s: Subject, i: nat, f: nat, f': nat)
    requires i <= |s| && f <= f'
    requires !Eval(t, g, s, i, f).OutOfFuel?
    ensures Eval(t, g, s, i, f') == Eval(t, g, s, i, f)
    decreases f, 1
  {
    match t {
      case TRep(p) => MoreFuelRep(p, g, s, i, f, f');
      case TSeq(p1, p2) => MoreFuelSeq(p1, p2, g, s, i, f, f');
      case TChoice(p1, p2) => MoreFuelChoice(p1, p2, g, s, i, f, f');
      case TNot(p) => MoreFuel(p, g, s, i, f - 1, f' - 1);
      case TAnd(p) => MoreFuel(p, g, s, i, f - 1, f' - 1);
      case TCall(k, _) => if k < |g| { MoreFuel(g[k].body, g, s, i, f - 1, f' - 1); }
      case TGrammar(rs) => if |rs| > 0 { MoreFuel(rs[0].body, rs, s, i, f - 1, f' - 1); }
      case TBehind(n, p) => if n <= i { MoreFuel(p, [], s, i - n, f - 1, f' - 1); }
      case _ =>
    }
  }

  lemma {:induction false} MoreFuelRep(p: Tree, g: Grammar, s: Subject, i: nat, f: nat, f': nat)
    requires i <= |s| && f <= f' && !Eval(TRep(p), g, s, i, f).OutOfFuel?
    ensures Eval(TRep(p), g, s, i, f') == Eval(TRep(p), g, s, i, f)
    decreases f, 0
  {
    MoreFuel(p, g, s, i, f - 1, f' - 1);
    var r := Eval(p, g, s, i, f - 1);
    if r.Match? { MoreFuel(TRep(p), g, s, r.pos, f - 1, f' - 1); }
  }

  lemma {:induction false} MoreFuelSeq(p1: Tree, p2: Tree, g: Grammar, s: Subject, i: nat, f: nat, f': nat)
    requires i <= |s| && f <= f' && !Eval(TSeq(p1, p2), g, s, i, f).OutOfFuel?
    ensures Eval(TSeq(p1, p2), g, s, i, f') == Eval(TSeq(p1, p2), g, s, i, f)
    decreases f, 0
  {
    MoreFuel(p1, g, s, i, f - 1, f' - 1);
    var r := Eval(p1, g, s, i, f - 1);
    if r.Match? { MoreFuel(p2, g, s, r.pos, f - 1, f' - 1); }
  }

  lemma {:induction false} MoreFuelChoice(p1: Tree, p2: Tree, g: Grammar, s: Subject, i: nat, f: nat, f': nat)
    requires i <= |s| && f <= f' && !Eval(TChoice(p1, p2), g, s, i, f).OutOfFuel?
    ensures Eval(TChoice(p1, p2), g, s, i, f') == Eval(TChoice(p1, p2), g, s, i, f)
    decreases f, 0
  {
    MoreFuel(p1, g, s, i, f - 1, f' - 1);
    if Eval(p1, g, s, i, f - 1).Fail? { MoreFuel(p2, g, s, i, f - 1, f' - 1); }
  }

  /** The result of matching t, when there is one. */
  ghost predicate Yields(t: Tree, g: Grammar, s: Subject, i: nat, r: Outcome)
    requires i <= |s|
  {
    !r.OutOfFuel? && exists f: nat :: Eval(t, g, s, i, f) == r
  }

  /** How deeply grammars and look-behinds, whose bodies do not see the rules around them, are
      nested inside a tree. */
  ghost function Nest(t: Tree): nat
    decreases t, 0
  {
    match t
    case TRep(p) => Nest(p)
    case TSeq(p1, p2) => Max(Nest(p1), Nest(p2))
    case TChoice(p1, p2) => Max(Nest(p1), Nest(p2))
    case TNot(p) => Nest(p)
    case TAnd(p) => Nest(p)
    case TBehind(_, p) => 1 + Nest(p)
    case TGrammar(rs) => 1 + NestAll(rs)
    case _ => 0
  }

  ghost function NestRule(r: Rule): nat
    decreases r, 0
  {
    Nest(r.body)
  }

  ghost function NestAll(rs: Grammar): (r: nat)
    ensures forall k :: 0 <= k < |rs| ==> NestRule(rs[k]) <= r
    decreases rs, 1
  {
    if rs == [] then 0
    else
      var rest := NestAll(rs[1..]);
      assert forall k :: 1 <= k < |rs| ==> rs[k] == rs[1..][k - 1];
      Max(NestRule(rs[0]), rest)
  }

  ghost function NestIn(t: Tree, g: Grammar): nat { Max(Nest(t), NestAll(g)) }

  function Max(a: nat, b: nat): nat { if a < b then b else a }
}
