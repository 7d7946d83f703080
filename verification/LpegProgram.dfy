/** Whole programs: what skynet/3rd/lpeg/lpcode.c's compile produces, and the main theorem. */
module LpegProgram {
  import opened LpegTree
  import opened LpegAnalysis
  import opened LpegCode
  import opened LpegVm
  import opened LpegLayout
  import opened LpegCorrect
  import opened LpegJumps
  import opened LpegPeephole
  import LpegVerify

  /** The program before it is optimized. */
  ghost function RawProgram(t: Tree): Code { Gen(t, [], false, None, FullSet) + [IEnd] }

  /** What a run from position i gives, when the pattern's outcome is r. */
  ghost function Result(r: Outcome): Config
  {
    if r.Match? then Ended(r.pos) else GaveUp
  }

  /** Chains that leave the segment end on what follows it, if that is not a jump. */
  lemma {:induction false} LeavesThenEnds(seg: Code, ins: Instr, rest: Code, i: int, n: nat)
    requires Leaves(seg, i, n, |seg|) && !ins.IJmp?
    ensures EndsIn(seg + [ins] + rest, i, n)
    decreases n
  {
    if 0 <= i < |seg| && seg[i].IJmp? { LeavesThenEnds(seg, ins, rest, i + seg[i].off, n - 1); }
  }

  lemma SegmentEnds(seg: Code, ins: Instr, rest: Code, i: int)
    requires Acyclic(seg, |seg|) && !ins.IJmp? && 0 <= i <= |seg|
    ensures Ends(seg + [ins] + rest, i)
  {
    if i == |seg| {
      assert EndsIn(seg + [ins] + rest, i, 0);
    } else {
      assert LeavesFrom(seg, i, |seg|);
      var n: nat :| Leaves(seg, i, n, |seg|);
      LeavesThenEnds(seg, ins, rest, i, n);
    }
  }

  /** In laid-out code, a jump has its pad. */
  lemma {:induction false} JumpHasPad(seg: Code, j: nat, i: nat)
    requires LaidFrom(seg, j) && j <= i < |seg| && seg[i].IJmp?
    ensures i + 1 < |seg| && seg[i + 1].Pad?
    decreases |seg| - j
  {
    if i != j {
      assert i >= j + Size(seg[j]);
      JumpHasPad(seg, j + Size(seg[j]), i);
    }
  }

  lemma RawTidy(t: Tree)
    requires Closed(t, [])
    ensures Tidy(RawProgram(t)) && LaidOut(RawProgram(t))
    ensures RawProgram(t)[|RawProgram(t)| - 1] == IEnd
  {
    hide Gen, LaidFrom, Closed, LeavesFrom, EndsIn;
    var seg, code := Gen(t, [], false, None, FullSet), RawProgram(t);
    GenAcyclic(t, [], false, None, FullSet);
    GenFine(t, [], false, None, FullSet);
    FineOne(IEnd, []);
    FineConcat(seg, [IEnd], []);
    assert code == seg + [IEnd] + [];
    forall i | 0 <= i < |code|
      ensures Ends(code, i)
      ensures HasOffset(code[i]) ==> 0 <= i + code[i].off < |code|
      ensures code[i].IJmp? ==> i + 1 < |code| && code[i + 1].Pad?
    {
      SegmentEnds(seg, IEnd, [], i);
      if i < |seg| { assert LabelIn(seg, i, |seg|); }
      if code[i].IJmp? { JumpHasPad(code, 0, i); }
    }
  }

  /** The program, before it is optimized, computes what the pattern means. */
  lemma RawRuns(t: Tree, s: Subject, i: nat, r: Outcome)
    requires WellFormed(t, []) && i <= |s| && Yields(t, [], s, i, r)
    ensures Halts(RawProgram(t), s, Start(i), Result(r))
  {
    hide Gen, Eval, Closed, CheckLoops, Join, LaidFrom, Step;
    var seg, code, k := Gen(t, [], false, None, FullSet), RawProgram(t), Push(Saved(GIVEUP, i), Bottom);
    var x := Frame(code, s, [], []);
    var f: nat :| Eval(t, [], s, i, f) == r;
    assert At(x, 0, seg) by {
      GenFine(t, [], false, None, FullSet);
      forall y | 0 <= y < |seg| ensures SlotOK(code, [], 0 + y, seg[y]) { assert code[y] == seg[y]; }
    }
    GenCorrect(x, 0, t, false, None, FullSet, i, k, f);
    var c: Config;
    if r.Match? {
      Exactly(x, Start(i), |seg|, k, r.pos);
      c := Run(|seg|, r.pos, k);
      EndStops(code, s, r.pos, k);
    } else {
      BacktrackSaved(GIVEUP, i, Bottom);
      c := Run(GIVEUP, i, Bottom);
      GiveUpStops(code, s, i);
    }
    JoinHalts(code, s, Start(i), c, Result(r));
  }

  lemma EndStops(code: Code, s: Subject, j: nat, k: Stack)
    requires j <= |s| && k.Push? && k.rest.Bottom? && code != [] && code[|code| - 1] == IEnd
    ensures Halts(code, s, Run(|code| - 1, j, k), Ended(j))
  {
    assert Steps(code, s, Run(|code| - 1, j, k), 1) == Steps(code, s, Ended(j), 0);
  }

  lemma GiveUpStops(code: Code, s: Subject, i: nat)
    ensures Halts(code, s, Run(GIVEUP, i, Bottom), GaveUp)
  {
    assert Steps(code, s, Run(GIVEUP, i, Bottom), 1) == Steps(code, s, GaveUp, 0);
  }

  /** What "`code` implements t" means: on every subject, from every position, a run stops at IEnd in
      position j exactly when t matches up to j, and at IGiveup exactly when t fails. */
  ghost predicate Implements(code: Code, t: Tree)
  {
    forall s: Subject, i: nat, r: Outcome :: i <= |s| ==>
      (Yields(t, [], s, i, r) <==> !r.OutOfFuel? && Halts(code, s, Start(i), Result(r)))
  }

  /** The main theorem: compiling a sound pattern, with every optimization on, preserves its
      meaning. */
  lemma CompilerCorrect(t: Tree, code: Code)
    requires WellFormed(t, []) && PeepRel(RawProgram(t), code)
    ensures Implements(code, t)
  {
    hide Gen, Closed, CheckLoops, Step, Eval, Halts, Yields, PeepRel, Tidy, RawProgram, Start;
    RawTidy(t);
    forall s: Subject, i: nat, r: Outcome | i <= |s|
      ensures Yields(t, [], s, i, r) <==> !r.OutOfFuel? && Halts(code, s, Start(i), Result(r))
    {
      var r0 := LpegVerify.Total(t, [], s, i);
      ProgramRuns(t, code, s, i, r0);
      if !r.OutOfFuel? && Halts(code, s, Start(i), Result(r)) {
        HaltsUnique(code, s, Start(i), Result(r), Result(r0));
        MeaningOf(t, s, i, r);
        MeaningOf(t, s, i, r0);
      }
      if Yields(t, [], s, i, r) { MeaningOf(t, s, i, r); }
    }
  }

  lemma MeaningOf(t: Tree, s: Subject, i: nat, r: Outcome)
    requires i <= |s|
    ensures Yields(t, [], s, i, r) ==> !r.OutOfFuel?
    ensures !r.OutOfFuel? ==> r == Fail || r == Match(r.pos)
  {
  }

  lemma ProgramRuns(t: Tree, code: Code, s: Subject, i: nat, r: Outcome)
    requires WellFormed(t, []) && Tidy(RawProgram(t)) && PeepRel(RawProgram(t), code)
    requires i <= |s| && Yields(t, [], s, i, r)
    ensures Halts(code, s, Start(i), Result(r))
  {
    hide Gen, Closed, CheckLoops, Step, Eval, Yields, PeepRel, Tidy, RawProgram;
    RawRuns(t, s, i, r);
    var n: nat :| Steps(RawProgram(t), s, Start(i), n) == Result(r);
    StartRel(RawProgram(t), i);
    PeepRuns(RawProgram(t), code, s, Start(i), Start(i), n);
  }

  lemma StartRel(orig: Code, i: nat)
    ensures ConfigRel(orig, Start(i), Start(i))
  {
    assert StackRel(orig, Bottom, Bottom);
  }
}
