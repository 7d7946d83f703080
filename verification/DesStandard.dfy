/** What des_crypt computes, in the terms of the Data Encryption Standard (FIPS 46-3): bits are numbered from one,
    from the left.  The boxes are S-boxes followed by the permutation P, rotated left by one like the halves. */
module DesStandard {
  import opened DesBlock

  type Bit6 = n: bv8 | 1 <= n <= 64 witness 1

  /** Bit n of a block. */
  function Bit(h: Halves, n: Bit6): Word
  {
    if n <= 32 then (h.x >> (32 - n)) & 1 else (h.y >> (64 - n)) & 1
  }

  function Row(h: Halves, a: Bit6, b: Bit6, c: Bit6, d: Bit6, e: Bit6, f: Bit6, g: Bit6, i: Bit6): Word
  {
    (Bit(h, a) << 7) | (Bit(h, b) << 6) | (Bit(h, c) << 5) | (Bit(h, d) << 4)
    | (Bit(h, e) << 3) | (Bit(h, f) << 2) | (Bit(h, g) << 1) | Bit(h, i)
  }

  /** The standard's initial permutation. */
  function StandardIP(h: Halves): Halves
  {
    Halves((Row(h, 58, 50, 42, 34, 26, 18, 10, 2) << 24) | (Row(h, 60, 52, 44, 36, 28, 20, 12, 4) << 16)
           | (Row(h, 62, 54, 46, 38, 30, 22, 14, 6) << 8) | Row(h, 64, 56, 48, 40, 32, 24, 16, 8),
           (Row(h, 57, 49, 41, 33, 25, 17, 9, 1) << 24) | (Row(h, 59, 51, 43, 35, 27, 19, 11, 3) << 16)
           | (Row(h, 61, 53, 45, 37, 29, 21, 13, 5) << 8) | Row(h, 63, 55, 47, 39, 31, 23, 15, 7))
  }

  /** Both halves rotated, as des_crypt keeps them. */
  function Rotated(h: Halves): Halves { Halves(Left(h.x), Left(h.y)) }

  /** DES_IP is the initial permutation, with both halves rotated. */
  lemma InitialIsStandard(h: Halves)
    ensures InitialPermutation(h) == Rotated(StandardIP(h))
  {
    InitialLeft(h);
    InitialRight(h);
    RotateBack(InitialPermutation(h).x);
    RotateBack(InitialPermutation(h).y);
  }

  lemma InitialLeft(h: Halves)
    ensures Right(InitialPermutation(h).x) == StandardIP(h).x
  {
  }

  lemma InitialRight(h: Halves)
    ensures Right(InitialPermutation(h).y) == StandardIP(h).y
  {
  }

  // ---- A round ----

  /** Six bits of a half, from the left. */
  function Six(r: Word, a: Bit6, b: Bit6, c: Bit6, d: Bit6, e: Bit6, f: Bit6): Word
    requires a <= 32 && b <= 32 && c <= 32 && d <= 32 && e <= 32 && f <= 32
  {
    var h := Halves(r, 0);
    (Bit(h, a) << 5) | (Bit(h, b) << 4) | (Bit(h, c) << 3) | (Bit(h, d) << 2) | (Bit(h, e) << 1) | Bit(h, f)
  }

  /** The standard's expansion E: what box j gets of a half. */
  function Expanded(r: Word, j: nat): Word
    requires 1 <= j <= 8
  {
    if j == 1 then Six(r, 32, 1, 2, 3, 4, 5)
    else if j == 2 then Six(r, 4, 5, 6, 7, 8, 9)
    else if j == 3 then Six(r, 8, 9, 10, 11, 12, 13)
    else if j == 4 then Six(r, 12, 13, 14, 15, 16, 17)
    else if j == 5 then Six(r, 16, 17, 18, 19, 20, 21)
    else if j == 6 then Six(r, 20, 21, 22, 23, 24, 25)
    else if j == 7 then Six(r, 24, 25, 26, 27, 28, 29)
    else Six(r, 28, 29, 30, 31, 32, 1)
  }

  /** The six bits of a subkey for box j: odd boxes in the second word, even ones in the first. */
  function KeySix(k1: Word, k2: Word, j: nat): Word
    requires 1 <= j <= 8
  {
    if j == 1 then (k2 >> 24) & 0x3F
    else if j == 2 then (k1 >> 24) & 0x3F
    else if j == 3 then (k2 >> 16) & 0x3F
    else if j == 4 then (k1 >> 16) & 0x3F
    else if j == 5 then (k2 >> 8) & 0x3F
    else if j == 6 then (k1 >> 8) & 0x3F
    else if j == 7 then k2 & 0x3F
    else k1 & 0x3F
  }

  function BoxOf(box: Boxes, j: nat): Box
    requires 1 <= j <= 8
  {
    if j == 1 then box.sb1
    else if j == 2 then box.sb2
    else if j == 3 then box.sb3
    else if j == 4 then box.sb4
    else if j == 5 then box.sb5
    else if j == 6 then box.sb6
    else if j == 7 then box.sb7
    else box.sb8
  }

  /** What goes into box j: six bits of the half, mixed with six bits of the subkey. */
  function Input(k1: Word, k2: Word, r: Word, j: nat): Word
    requires 1 <= j <= 8
  {
    Expanded(r, j) ^ KeySix(k1, k2, j)
  }

  function Given(box: Boxes, k1: Word, k2: Word, r: Word, j: nat): Word
    requires 1 <= j <= 8
  {
    At(BoxOf(box, j), Input(k1, k2, r, j))
  }

  function EvenGiven(box: Boxes, k1: Word, k2: Word, r: Word): Word
  {
    Given(box, k1, k2, r, 8) ^ Given(box, k1, k2, r, 6) ^ Given(box, k1, k2, r, 4) ^ Given(box, k1, k2, r, 2)
  }

  function OddGiven(box: Boxes, k1: Word, k2: Word, r: Word): Word
  {
    Given(box, k1, k2, r, 7) ^ Given(box, k1, k2, r, 5) ^ Given(box, k1, k2, r, 3) ^ Given(box, k1, k2, r, 1)
  }

  /** What all boxes give together. */
  function Boxed(box: Boxes, k1: Word, k2: Word, r: Word): Word
  {
    EvenGiven(box, k1, k2, r) ^ OddGiven(box, k1, k2, r)
  }

  /** The standard's cipher function f. */
  function StandardF(box: Boxes, k1: Word, k2: Word, r: Word): Word { Right(Boxed(box, k1, k2, r)) }

  lemma EvenInputs(k1: Word, k2: Word, r: Word)
    ensures var t := k1 ^ Left(r);
            && t & 0x3F == Input(k1, k2, r, 8) && (t >> 8) & 0x3F == Input(k1, k2, r, 6)
            && (t >> 16) & 0x3F == Input(k1, k2, r, 4) && (t >> 24) & 0x3F == Input(k1, k2, r, 2)
  {
    hide Input, Left;
    LowerInputs(k1, k2, r);
    UpperInputs(k1, k2, r);
  }

  lemma LowerInputs(k1: Word, k2: Word, r: Word)
    ensures var t := k1 ^ Left(r); t & 0x3F == Input(k1, k2, r, 8) && (t >> 8) & 0x3F == Input(k1, k2, r, 6)
  {
  }

  lemma UpperInputs(k1: Word, k2: Word, r: Word)
    ensures var t := k1 ^ Left(r); (t >> 16) & 0x3F == Input(k1, k2, r, 4) && (t >> 24) & 0x3F == Input(k1, k2, r, 2)
  {
  }

  lemma OddInputs(k1: Word, k2: Word, r: Word)
    ensures var t := k2 ^ Turned(Left(r));
            && t & 0x3F == Input(k1, k2, r, 7) && (t >> 8) & 0x3F == Input(k1, k2, r, 5)
            && (t >> 16) & 0x3F == Input(k1, k2, r, 3) && (t >> 24) & 0x3F == Input(k1, k2, r, 1)
  {
  }

  lemma EvenIsGiven(box: Boxes, k1: Word, k2: Word, r: Word, t: Word)
    requires t & 0x3F == Input(k1, k2, r, 8) && (t >> 8) & 0x3F == Input(k1, k2, r, 6)
    requires (t >> 16) & 0x3F == Input(k1, k2, r, 4) && (t >> 24) & 0x3F == Input(k1, k2, r, 2)
    ensures EvenMix(box, t) == EvenGiven(box, k1, k2, r)
  {
    hide Input, At;
  }

  lemma OddIsGiven(box: Boxes, k1: Word, k2: Word, r: Word, t: Word)
    requires t & 0x3F == Input(k1, k2, r, 7) && (t >> 8) & 0x3F == Input(k1, k2, r, 5)
    requires (t >> 16) & 0x3F == Input(k1, k2, r, 3) && (t >> 24) & 0x3F == Input(k1, k2, r, 1)
    ensures OddMix(box, t) == OddGiven(box, k1, k2, r)
  {
    hide Input, At;
  }

  lemma EvenRound(box: Boxes, k1: Word, k2: Word, r: Word)
    ensures EvenMix(box, k1 ^ Left(r))
            == EvenGiven(box, k1, k2, r)
  {
    hide EvenGiven, Left, Input, EvenMix;
    EvenInputs(k1, k2, r);
    EvenIsGiven(box, k1, k2, r, k1 ^ Left(r));
  }

  lemma OddRound(box: Boxes, k1: Word, k2: Word, r: Word)
    ensures OddMix(box, k2 ^ Turned(Left(r)))
            == OddGiven(box, k1, k2, r)
  {
    hide OddGiven, Left, Input, OddMix, Turned;
    OddInputs(k1, k2, r);
    OddIsGiven(box, k1, k2, r, k2 ^ Turned(Left(r)));
  }

  /** Box j gets bits 4j - 4 to 4j + 1 of the half, cyclically, and its six bits of the subkey: neighbouring boxes
      share two bits. */
  lemma RoundIsStandard(box: Boxes, k1: Word, k2: Word, r: Word)
    ensures RoundMix(box, k1, k2, Left(r)) == Boxed(box, k1, k2, r)
  {
    hide RoundMix, Boxed, EvenGiven, OddGiven, Left, EvenMix, OddMix, Turned;
    MixIs(box, k1, k2, Left(r));
    MixGiven(box, k1, k2, r);
    BoxedIs(box, k1, k2, r);
  }

  lemma MixIs(box: Boxes, k1: Word, k2: Word, x: Word)
    ensures RoundMix(box, k1, k2, x) == EvenMix(box, k1 ^ x) ^ OddMix(box, k2 ^ Turned(x))
  {
    hide EvenMix, OddMix, Turned;
  }

  lemma MixGiven(box: Boxes, k1: Word, k2: Word, r: Word)
    ensures EvenMix(box, k1 ^ Left(r)) ^ OddMix(box, k2 ^ Turned(Left(r))) == EvenGiven(box, k1, k2, r) ^ OddGiven(box, k1, k2, r)
  {
    hide EvenGiven, OddGiven, Left, EvenMix, OddMix, Turned;
    EvenRound(box, k1, k2, r);
    OddRound(box, k1, k2, r);
  }

  lemma BoxedIs(box: Boxes, k1: Word, k2: Word, r: Word)
    ensures Boxed(box, k1, k2, r) == EvenGiven(box, k1, k2, r) ^ OddGiven(box, k1, k2, r)
  {
    hide EvenGiven, OddGiven;
  }

  // ---- The cipher ----

  /** A round of the standard: the right half becomes the left one, and the left one is mixed. */
  function StandardRound(box: Boxes, k: Keys, r: nat, h: Halves): Halves
    requires r < 16
  {
    Halves(h.y, h.x ^ StandardF(box, k[2 * r], k[2 * r + 1], h.y))
  }

  function StandardRounds(box: Boxes, k: Keys, r: nat, h: Halves): Halves
    requires r <= 16
  {
    if r == 0 then h else StandardRound(box, k, r - 1, StandardRounds(box, k, r - 1, h))
  }

  lemma LeftXor(a: Word, b: Word)
    ensures Left(a ^ Right(b)) == Left(a) ^ b
  {
  }

  lemma {:induction false} RoundsAreStandard(box: Boxes, k: Keys, r: nat, h: Halves)
    requires r <= 16
    ensures Rounds(box, k, r, Rotated(h)) == Rotated(StandardRounds(box, k, r, h))
    decreases r
  {
    hide Rotated, Round, StandardRound;
    if r > 0 {
      RoundsAreStandard(box, k, r - 1, h);
      OneRound(box, k, r - 1, StandardRounds(box, k, r - 1, h));
    }
  }

  lemma OneRound(box: Boxes, k: Keys, r: nat, g: Halves)
    requires r < 16
    ensures Round(box, k, r, Rotated(g)) == Rotated(StandardRound(box, k, r, g))
  {
    hide Left, Right, RoundMix, Boxed, Rotated, Round, StandardRound;
    var w := MixedWord(box, k[2 * r], k[2 * r + 1], g);
    RoundGives(box, k, r, g, w);
    StandardGives(box, k, r, g, w);
  }

  lemma MixedWord(box: Boxes, k1: Word, k2: Word, g: Halves) returns (w: Word)
    ensures w == Left(g.x) ^ RoundMix(box, k1, k2, Left(g.y))
    ensures w == Left(g.x ^ Right(Boxed(box, k1, k2, g.y)))
  {
    hide Left, Right, RoundMix, Boxed;
    RoundIsStandard(box, k1, k2, g.y);
    RoundWord(g.x, RoundMix(box, k1, k2, Left(g.y)), Boxed(box, k1, k2, g.y));
    w := Left(g.x) ^ RoundMix(box, k1, k2, Left(g.y));
  }

  lemma RoundWord(x: Word, m: Word, b: Word)
    requires m == b
    ensures Left(x) ^ m == Left(x ^ Right(b))
  {
    LeftXor(x, b);
  }

  lemma RoundGives(box: Boxes, k: Keys, r: nat, g: Halves, w: Word)
    requires r < 16 && w == Left(g.x) ^ RoundMix(box, k[2 * r], k[2 * r + 1], Left(g.y))
    ensures Round(box, k, r, Rotated(g)) == Halves(Left(g.y), w)
  {
    hide Left, Right, RoundMix;
  }

  lemma StandardGives(box: Boxes, k: Keys, r: nat, g: Halves, w: Word)
    requires r < 16 && w == Left(g.x ^ Right(Boxed(box, k[2 * r], k[2 * r + 1], g.y)))
    ensures Rotated(StandardRound(box, k, r, g)) == Halves(Left(g.y), w)
  {
    hide Left, Right, Boxed;
  }

  lemma RotatedOnce(g: Halves, h: Halves)
    requires Rotated(g) == Rotated(h)
    ensures g == h
  {
    RotateBack(g.x);
    RotateBack(g.y);
    RotateBack(h.x);
    RotateBack(h.y);
  }

  /** des_crypt is the cipher of the standard: the initial permutation of its output is the output of the sixteen
      rounds, with the halves exchanged, on the initial permutation of its input. */
  lemma CryptIsStandard(box: Boxes, k: Keys, b: Block)
    ensures StandardIP(Load(Crypt(box, k, b))) == Swap(StandardRounds(box, k, 16, StandardIP(Load(b))))
  {
    hide InitialPermutation, FinalPermutation, StandardIP, Rounds, StandardRounds, Load, Store, Left, Right;
    var h := StandardIP(Load(b));
    var c := Swap(Rounds(box, k, 16, InitialPermutation(Load(b))));
    InitialIsStandard(Load(b));
    RoundsAreStandard(box, k, 16, h);
    LoadStore(FinalPermutation(c));
    InitialUndoesFinal(c);
    InitialIsStandard(FinalPermutation(c));
    RotatedOnce(StandardIP(FinalPermutation(c)), Swap(StandardRounds(box, k, 16, h)));
  }

  /** So the output is determined: no two blocks have the same initial permutation. */
  lemma StandardIPOnce(a: Halves, b: Halves)
    requires StandardIP(a) == StandardIP(b)
    ensures a == b
  {
    hide StandardIP, InitialPermutation, FinalPermutation;
    InitialIsStandard(a);
    InitialIsStandard(b);
    FinalUndoesInitial(a);
    FinalUndoesInitial(b);
  }
}
