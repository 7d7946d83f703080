/** Why skynet/3rd/lpeg/lpcode.c's correctcalls can follow jumps while it is still rewriting the
    calls of a grammar: at every moment, every chain of jumps among the rules ends inside the code. */
module LpegTailCalls {
  import opened LpegTree
  import opened LpegAnalysis
  import opened LpegCode
  import opened LpegLayout
  import opened LpegCorrect
  import opened LpegJumps
  import opened LpegPeephole
  import opened LpegProgram

  lemma {:induction false} EndsShift(a: Code, b: Code, i: int, n: nat)
    requires EndsIn(b, i, n)
    ensures EndsIn(a + b, |a| + i, n)
    ensures FinalTarget(a + b, |a| + i, n) == |a| + FinalTarget(b, i, n)
    decreases n
  {
    if b[i].IJmp? && n > 0 { EndsShift(a, b, i + b[i].off, n - 1); }
  }

  /** finaltarget does not care where a segment stands. */
  lemma FinalShift(a: Code, b: Code, i: int)
    requires Ends(b, i)
    ensures Ends(a + b, |a| + i) && Final(a + b, |a| + i) == |a| + Final(b, i)
  {
    HopsBounded(b, i);
    EndsShift(a, b, i, |b|);
    EndsMore(a + b, |a| + i, |b|, |a + b|);
  }

  lemma {:induction false} RulesEnd(rs: Grammar, g: Grammar, i: nat)
    requires forall k :: 0 <= k < |rs| ==> RuleClosed(rs[k], g)
    requires i < |RulesCode(rs, g)|
    ensures Ends(RulesCode(rs, g), i)
    decreases |rs|
  {
    var c, rest := GenRule(rs[0], g), RulesCode(rs[1..], g);
    RuleAcyclic(rs[0], g);
    if i <= |c| {
      SegmentEnds(c, IRet, rest, i);
    } else {
      forall k | 0 <= k < |rs[1..]| ensures RuleClosed(rs[1..][k], g) { assert rs[1..][k] == rs[k + 1]; }
      RulesEnd(rs[1..], g, i - |c| - 1);
      FinalShift(c + [IRet], rest, i - |c| - 1);
    }
  }

  lemma {:induction false} LastIsRet(rs: Grammar, g: Grammar)
    requires rs != []
    ensures RulesCode(rs, g) != [] && RulesCode(rs, g)[|RulesCode(rs, g)| - 1] == IRet
    decreases |rs|
  {
    if |rs| > 1 { LastIsRet(rs[1..], g); }
  }

  /** In the finished code of a grammar, a jump among the rules stays among the rules. */
  lemma JumpsStay(rs: Grammar, g: Grammar, i: nat)
    requires Closed(TGrammar(rs), g) && 4 <= i < |GrammarCode(rs)| && GrammarCode(rs)[i].IJmp?
    ensures 4 <= i + GrammarCode(rs)[i].off < |GrammarCode(rs)|
  {
    hide LaidFrom, Positions, CorrectCalls, RawGrammar, RulesCode, Closed;
    ClosedAnywhere(rs, g);
    SlotsOfGrammar(rs);
    RawSlots(rs);
    var rules := RulesCode(rs, rs);
    if RawGrammar(rs)[i].IOpenCall? {
      var k :| 0 <= k < |rs| && i + GrammarCode(rs)[i].off == Positions(rs, rs, 4)[k] < |RawGrammar(rs)|;
      RuleSlice(rs, rs, 4, k);
    } else {
      assert RawGrammar(rs)[4 + (i - 4)] == rules[i - 4];
      RulesOf(rs, g);
      RulesEnd(rs, rs, i - 4);
      FinalStep(rules, i - 4);
      FinalEnds(rules, i - 4 + rules[i - 4].off);
    }
  }

  lemma ClosedAnywhere(rs: Grammar, g: Grammar)
    requires Closed(TGrammar(rs), g)
    ensures Closed(TGrammar(rs), [])
  {
  }

  lemma RulesOf(rs: Grammar, g: Grammar)
    requires Closed(TGrammar(rs), g)
    ensures rs != [] && forall k :: 0 <= k < |rs| ==> RuleClosed(rs[k], rs)
  {
  }

  lemma {:induction false} StaysThenEnds(rs: Grammar, g: Grammar, i: nat, n: nat)
    requires Closed(TGrammar(rs), g) && 4 <= i < |GrammarCode(rs)|
    requires Leaves(GrammarCode(rs), i, n, |GrammarCode(rs)|)
    ensures EndsIn(GrammarCode(rs), i, n)
    decreases n
  {
    hide GrammarCode, Closed;
    if GrammarCode(rs)[i].IJmp? {
      JumpsStay(rs, g, i);
      StaysThenEnds(rs, g, i + GrammarCode(rs)[i].off, n - 1);
    }
  }

  lemma GrammarEnds(rs: Grammar, g: Grammar, i: nat)
    requires Closed(TGrammar(rs), g) && 4 <= i < |GrammarCode(rs)|
    ensures Ends(GrammarCode(rs), i)
  {
    hide GrammarCode, Closed;
    GrammarAcyclic(rs, g);
    assert LeavesFrom(GrammarCode(rs), i, |GrammarCode(rs)|);
    var n: nat :| Leaves(GrammarCode(rs), i, n, |GrammarCode(rs)|);
    StaysThenEnds(rs, g, i, n);
  }

  /** Undoing tail calls only cuts chains short. */
  lemma {:induction false} EarlierEnds(mid: Code, done: Code, i: int, n: nat)
    requires |mid| == |done| && forall y :: 0 <= y < |mid| && !mid[y].IOpenCall? ==> done[y] == mid[y]
    requires EndsIn(done, i, n)
    ensures EndsIn(mid, i, n)
    decreases n
  {
    if mid[i].IJmp? { EarlierEnds(mid, done, i + mid[i].off, n - 1); }
  }

  /** What correctcalls keeps true of the code of a grammar, when it has come to position i. */
  ghost predicate Correcting(rs: Grammar, g: Grammar, mid: Code, i: nat)
  {
    && Closed(TGrammar(rs), g)
    && LaidFrom(mid, i) && 4 <= i <= |mid| && KeysBelow(mid, |rs|)
    && CorrectCalls(mid, Positions(rs, rs, 4), i) == GrammarCode(rs)
    && mid[|mid| - 1] == IRet
  }

  lemma CorrectingStarts(rs: Grammar, g: Grammar)
    requires Closed(TGrammar(rs), g)
    ensures Correcting(rs, g, RawGrammar(rs), 4)
  {
    hide Positions, LaidFrom, GenRule, Closed, CorrectCalls, RulesCode, RawGrammar;
    RawFine(rs, g);
    RulesOf(rs, g);
    LastIsRet(rs, rs);
    RawSlots(rs);
    assert RawGrammar(rs)[4 + (|RulesCode(rs, rs)| - 1)] == IRet;
  }

  /** At each open call, the chain of jumps that follows it ends inside the code. */
  lemma CallFollowed(rs: Grammar, g: Grammar, mid: Code, i: nat)
    requires Correcting(rs, g, mid, i) && i < |mid| && mid[i].IOpenCall?
    ensures Ends(mid, i + 2)
  {
    hide CorrectCalls, Positions, RawGrammar, Closed;
    var pos, done := Positions(rs, rs, 4), GrammarCode(rs);
    CorrectCallsSlots(mid, pos, i);
    assert mid[i + 1] == Pad;
    assert i + 2 < |mid|;
    GrammarEnds(rs, g, i + 2);
    var n: nat :| EndsIn(done, i + 2, n);
    EarlierEnds(mid, done, i + 2, n);
  }

  /** One round of correctcalls' loop. */
  lemma CorrectingStep(rs: Grammar, g: Grammar, mid: Code, i: nat, mid': Code)
    requires Correcting(rs, g, mid, i) && i < |mid|
    requires mid' ==
             (if mid[i].IOpenCall? then
                var off := Positions(rs, rs, 4)[mid[i].key] - i;
                mid[i := if RetAt(mid, Final(mid, i + 2)) then IJmp(off) else ICall(off)]
              else mid)
    ensures Correcting(rs, g, mid', i + Size(mid'[i]))
  {
    hide Positions, RawGrammar, Closed, GrammarCode;
    if mid[i].IOpenCall? { LaidReplace(mid, i, mid'[i], i + 2); }
  }

  // ---- Which calls become tail calls ----

  lemma {:induction false} RetIsTarget(code: Code, i: int, n: nat)
    requires JumpsToRet(code, i, n)
    ensures EndsIn(code, i, n) && RetAt(code, FinalTarget(code, i, n))
    decreases n
  {
    if !code[i].IRet? { RetIsTarget(code, i + code[i].off, n - 1); }
  }

  /** Where the generated code goes on to a return, finaltarget sees it. */
  lemma ReturnIsSeen(code: Code, i: int)
    requires ReturnsFrom(code, i)
    ensures RetAt(code, FinalTarget(code, i, |code|))
  {
    var n: nat :| JumpsToRet(code, i, n);
    RetIsTarget(code, i, n);
    HopsBounded(code, i);
    if n <= |code| { EndsMore(code, i, n, |code|); } else { EndsMore(code, i, |code|, n); }
  }

  /** Every open call from position i on behind which the code goes on to a return. */
  ghost predicate MissesNone(code: Code, pos: seq<nat>, i: nat, r: Code)
    requires KeysBelow(code, |pos|)
  {
    |r| == |code|
    && forall y :: i <= y < |code| && code[y].IOpenCall? && ReturnsFrom(code, y + 2) ==> r[y] == IJmp(pos[code[y].key] - y)
  }

  /** A corrected call changes nothing about the calls behind it. */
  lemma CallCorrected(code: Code, pos: seq<nat>, i: nat, ins: Instr, r: Code)
    requires i < |code| && KeysBelow(code, |pos|) && KeysBelow(code[i := ins], |pos|)
    requires code[i].IOpenCall? && MissesNone(code[i := ins], pos, i + 2, r)
    ensures MissesNone(code, pos, i + 2, r)
  {
    hide JumpsToRet;
    forall y | i + 2 <= y < |code| && code[y].IOpenCall? && ReturnsFrom(code, y + 2)
      ensures code[i := ins][y] == code[y] && ReturnsFrom(code[i := ins], y + 2)
    {
      var n: nat :| JumpsToRet(code, y + 2, n);
      JumpsPersist(code, code[i := ins], y + 2, n);
    }
  }

  lemma OneMore(code: Code, pos: seq<nat>, i: nat, j: nat, r: Code)
    requires KeysBelow(code, |pos|) && i < j && MissesNone(code, pos, j, r) && i < |code|
    requires forall y :: i < y < j && y < |code| ==> !code[y].IOpenCall?
    requires code[i].IOpenCall? && ReturnsFrom(code, i + 2) ==> r[i] == IJmp(pos[code[i].key] - i)
    ensures MissesNone(code, pos, i, r)
  {
    hide ReturnsFrom;
  }

  /** correctcalls misses no tail call: a call behind which only jumps stand before a return becomes a jump to
      its rule, so that such a call never pushes an entry. */
  lemma {:induction false} NoTailCallMissed(code: Code, pos: seq<nat>, i: nat)
    requires LaidFrom(code, i) && KeysBelow(code, |pos|)
    ensures MissesNone(code, pos, i, CorrectCalls(code, pos, i))
    decreases |code| - i
  {
    hide LaidFrom, FinalTarget, ReturnsFrom, SlotOK, MissesNone;
    if i >= |code| {
      NoneLeft(code, pos, i, CorrectCalls(code, pos, i));
    } else {
      LaidStep(code, i);
      var r := CorrectCalls(code, pos, i);
      if code[i].IOpenCall? {
        var off := pos[code[i].key] - i;
        if ReturnsFrom(code, i + 2) { ReturnIsSeen(code, i + 2); }
        var tail := RetAt(code, FinalTarget(code, i + 2, |code|));
        var ins := if tail then IJmp(off) else ICall(off);
        LaidReplace(code, i, ins, i + 2);
        NoTailCallMissed(code[i := ins], pos, i + 2);
        CorrectCallsSlots(code[i := ins], pos, i + 2);
        CallCorrected(code, pos, i, ins, r);
        NoCallBetween(code, i);
        OneMore(code, pos, i, i + 2, r);
      } else {
        NoTailCallMissed(code, pos, i + Size(code[i]));
        NoCallInside(code, i);
        OneMore(code, pos, i, i + Size(code[i]), r);
      }
    }
  }

  lemma NoneLeft(code: Code, pos: seq<nat>, i: nat, r: Code)
    requires KeysBelow(code, |pos|) && i >= |code| == |r|
    ensures MissesNone(code, pos, i, r)
  {
  }

  lemma NoCallBetween(code: Code, i: nat)
    requires LaidFrom(code, i) && i < |code| && code[i].IOpenCall?
    ensures forall y :: i < y < i + 2 && y < |code| ==> !code[y].IOpenCall?
  {
  }

  lemma NoCallInside(code: Code, i: nat)
    requires LaidFrom(code, i) && i < |code|
    ensures forall y :: i < y < i + Size(code[i]) && y < |code| ==> !code[y].IOpenCall?
  {
  }
}
