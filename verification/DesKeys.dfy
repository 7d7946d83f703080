/** skynet/lualib-src/lua-crypt.c, des_main_ks: the key schedule, which is that of the Data Encryption Standard
    (FIPS 46-3). */
module DesKeys {
  import opened DesBlock
  import opened DesStandard

  // ---- As it is written ----

  /** The tables LHs and RHs: four bits, spread over the bytes of a word, from the right or from the left. */
  function SpreadRight(v: Word): Word { (v & 1) | ((v & 2) << 7) | ((v & 4) << 14) | ((v & 8) << 21) }

  function SpreadLeft(v: Word): Word { ((v & 1) << 24) | ((v & 2) << 15) | ((v & 4) << 6) | ((v & 8) >> 3) }

  function MixKey4(h: Halves): Halves
  {
    var t := ((h.y >> 4) ^ h.x) & 0x0F0F0F0F;
    Halves(h.x ^ t, h.y ^ (t << 4))
  }

  function MixKey0(h: Halves): Halves
  {
    var t := (h.y ^ h.x) & 0x10101010;
    Halves(h.x ^ t, h.y ^ t)
  }

  function ChoiceX(x: Word): Word
  {
    ((SpreadRight(x & 0xF) << 3) | (SpreadRight((x >> 8) & 0xF) << 2)
     | (SpreadRight((x >> 16) & 0xF) << 1) | SpreadRight((x >> 24) & 0xF)
     | (SpreadRight((x >> 5) & 0xF) << 7) | (SpreadRight((x >> 13) & 0xF) << 6)
     | (SpreadRight((x >> 21) & 0xF) << 5) | (SpreadRight((x >> 29) & 0xF) << 4)) & 0x0FFFFFFF
  }

  function ChoiceY(y: Word): Word
  {
    ((SpreadLeft((y >> 1) & 0xF) << 3) | (SpreadLeft((y >> 9) & 0xF) << 2)
     | (SpreadLeft((y >> 17) & 0xF) << 1) | SpreadLeft((y >> 25) & 0xF)
     | (SpreadLeft((y >> 4) & 0xF) << 7) | (SpreadLeft((y >> 12) & 0xF) << 6)
     | (SpreadLeft((y >> 20) & 0xF) << 5) | (SpreadLeft((y >> 28) & 0xF) << 4)) & 0x0FFFFFFF
  }

  function KeyHalves(h: Halves): Halves
  {
    var g := MixKey0(MixKey4(h));
    Halves(ChoiceX(g.x), ChoiceY(g.y))
  }

  function Turn(w: Word): Word { ((w << 1) | (w >> 27)) & 0x0FFFFFFF }

  function TurnTwice(w: Word): Word { ((w << 2) | (w >> 26)) & 0x0FFFFFFF }

  function First(x: Word, y: Word): Word
  {
    ((x << 4) & 0x24000000) | ((x << 28) & 0x10000000) | ((x << 14) & 0x08000000) | ((x << 18) & 0x02080000)
    | ((x << 6) & 0x01000000) | ((x << 9) & 0x00200000) | ((x >> 1) & 0x00100000) | ((x << 10) & 0x00040000)
    | ((x << 2) & 0x00020000) | ((x >> 10) & 0x00010000)
    | ((y >> 13) & 0x00002000) | ((y >> 4) & 0x00001000) | ((y << 6) & 0x00000800) | ((y >> 1) & 0x00000400)
    | ((y >> 14) & 0x00000200) | (y & 0x00000100) | ((y >> 5) & 0x00000020) | ((y >> 10) & 0x00000010)
    | ((y >> 3) & 0x00000008) | ((y >> 18) & 0x00000004) | ((y >> 26) & 0x00000002) | ((y >> 24) & 0x00000001)
  }

  function Second(x: Word, y: Word): Word
  {
    ((x << 15) & 0x20000000) | ((x << 17) & 0x10000000) | ((x << 10) & 0x08000000) | ((x << 22) & 0x04000000)
    | ((x >> 2) & 0x02000000) | ((x << 1) & 0x01000000) | ((x << 16) & 0x00200000) | ((x << 11) & 0x00100000)
    | ((x << 3) & 0x00080000) | ((x >> 6) & 0x00040000) | ((x << 15) & 0x00020000) | ((x >> 4) & 0x00010000)
    | ((y >> 2) & 0x00002000) | ((y << 8) & 0x00001000) | ((y >> 14) & 0x00000808) | ((y >> 9) & 0x00000400)
    | (y & 0x00000200) | ((y << 7) & 0x00000100) | ((y >> 7) & 0x00000020) | ((y >> 3) & 0x00000011)
    | ((y << 2) & 0x00000004) | ((y >> 21) & 0x00000002)
  }

  // ---- As the standard has it ----

  /** Seven bits of the key. */
  function Seven(h: Halves, a: Bit6, b: Bit6, c: Bit6, d: Bit6, e: Bit6, f: Bit6, g: Bit6): Word
  {
    (Bit(h, a) << 6) | (Bit(h, b) << 5) | (Bit(h, c) << 4) | (Bit(h, d) << 3) | (Bit(h, e) << 2) | (Bit(h, f) << 1) | Bit(h, g)
  }

  /** The standard's permuted choice 1: the halves C and D, of 28 bits each. */
  function StandardPC1(h: Halves): Halves
  {
    Halves((Seven(h, 57, 49, 41, 33, 25, 17, 9) << 21) | (Seven(h, 1, 58, 50, 42, 34, 26, 18) << 14)
           | (Seven(h, 10, 2, 59, 51, 43, 35, 27) << 7) | Seven(h, 19, 11, 3, 60, 52, 44, 36),
           (Seven(h, 63, 55, 47, 39, 31, 23, 15) << 21) | (Seven(h, 7, 62, 54, 46, 38, 30, 22) << 14)
           | (Seven(h, 14, 6, 61, 53, 45, 37, 29) << 7) | Seven(h, 21, 13, 5, 28, 20, 12, 4))
  }

  /** Bit n of C and D together. */
  function KeyBit(h: Halves, n: Bit6): Word
    requires n <= 56
  {
    if n <= 28 then (h.x >> (28 - n)) & 1 else (h.y >> (56 - n)) & 1
  }

  function SixOf(h: Halves, a: Bit6, b: Bit6, c: Bit6, d: Bit6, e: Bit6, f: Bit6): Word
    requires a <= 56 && b <= 56 && c <= 56 && d <= 56 && e <= 56 && f <= 56
  {
    (KeyBit(h, a) << 5) | (KeyBit(h, b) << 4) | (KeyBit(h, c) << 3) | (KeyBit(h, d) << 2) | (KeyBit(h, e) << 1) | KeyBit(h, f)
  }

  /** The standard's permuted choice 2: the bits of C and D that go to box j. */
  function StandardPC2(h: Halves, j: nat): Word
    requires 1 <= j <= 8
  {
    if j == 1 then SixOf(h, 14, 17, 11, 24, 1, 5)
    else if j == 2 then SixOf(h, 3, 28, 15, 6, 21, 10)
    else if j == 3 then SixOf(h, 23, 19, 12, 4, 26, 8)
    else if j == 4 then SixOf(h, 16, 7, 27, 20, 13, 2)
    else if j == 5 then SixOf(h, 41, 52, 31, 37, 47, 55)
    else if j == 6 then SixOf(h, 30, 40, 51, 45, 33, 48)
    else if j == 7 then SixOf(h, 44, 49, 39, 56, 34, 53)
    else SixOf(h, 46, 42, 50, 36, 29, 32)
  }

  /** Every bit moves one place to the left, and the first becomes the last. */
  function TurnedBy(h: Halves, n: nat): Halves
  {
    if n == 0 then h
    else
      var g := TurnedBy(h, n - 1);
      Halves(Turn(g.x), Turn(g.y))
  }

  /** How far C and D have been turned for subkey r, counted from zero. */
  const TURNS: seq<nat> := [1, 2, 4, 6, 8, 10, 12, 14, 15, 17, 19, 21, 23, 25, 27, 28]

  // ---- They agree ----

  lemma ChoiceIsStandard(h: Halves)
    ensures KeyHalves(h) == StandardPC1(h)
  {
    ChoiceLeft(h);
    ChoiceRight(h);
  }

  lemma ChoiceLeft(h: Halves)
    ensures KeyHalves(h).x == StandardPC1(h).x
  {
  }

  lemma ChoiceRight(h: Halves)
    ensures KeyHalves(h).y == StandardPC1(h).y
  {
  }

  lemma EvenKeys(h: Halves, k2: Word)
    ensures forall j :: j == 2 || j == 4 || j == 6 || j == 8 ==> KeySix(First(h.x, h.y), k2, j) == StandardPC2(h, j)
  {
  }

  lemma OddKeys(h: Halves, k1: Word)
    ensures forall j :: j == 1 || j == 3 || j == 5 || j == 7 ==> KeySix(k1, Second(h.x, h.y), j) == StandardPC2(h, j)
  {
  }

  lemma TurnTwiceIs(w: Word)
    requires w & 0xF0000000 == 0
    ensures TurnTwice(w) == Turn(Turn(w))
  {
  }

  /** A turn is a shift to the left, and the first bit becomes the last. */
  lemma TurnMoves(w: Word, n: Bit6)
    requires w & 0xF0000000 == 0 && n <= 28
    ensures (Turn(w) >> (28 - n)) & 1 == (w >> (if n == 28 then 27 else 27 - n)) & 1 && Turn(w) & 0xF0000000 == 0
  {
  }

  lemma {:induction false} TurnedShort(h: Halves, n: nat)
    requires h.x & 0xF0000000 == 0 && h.y & 0xF0000000 == 0
    ensures TurnedBy(h, n).x & 0xF0000000 == 0 && TurnedBy(h, n).y & 0xF0000000 == 0
    decreases n
  {
    hide Turn;
    if n > 0 {
      TurnedShort(h, n - 1);
      TurnShort(TurnedBy(h, n - 1).x);
      TurnShort(TurnedBy(h, n - 1).y);
    }
  }

  lemma TurnShort(w: Word)
    ensures Turn(w) & 0xF0000000 == 0
  {
  }

  lemma ChoiceShort(h: Halves)
    ensures KeyHalves(h).x & 0xF0000000 == 0 && KeyHalves(h).y & 0xF0000000 == 0
  {
  }

  // ---- The schedule ----

  function Schedule(key: Block): Keys
  {
    seq(32, i requires 0 <= i < 32 =>
      var h := TurnedBy(KeyHalves(Load(key)), TURNS[i / 2]); if i % 2 == 0 then First(h.x, h.y) else Second(h.x, h.y))
  }

  lemma ScheduleAt(key: Block, r: nat, x: Word, y: Word)
    requires r < 16 && Halves(x, y) == TurnedBy(KeyHalves(Load(key)), TURNS[r])
    ensures Schedule(key)[2 * r] == First(x, y) && Schedule(key)[2 * r + 1] == Second(x, y)
  {
    hide KeyHalves, First, Second, Load, TurnedBy;
    assert (2 * r) / 2 == r && (2 * r + 1) / 2 == r;
  }

  lemma KeysAreStandard(h: Halves, j: nat)
    requires 1 <= j <= 8
    ensures KeySix(First(h.x, h.y), Second(h.x, h.y), j) == StandardPC2(h, j)
  {
    hide First, Second, StandardPC2, KeySix;
    EvenKeys(h, Second(h.x, h.y));
    OddKeys(h, First(h.x, h.y));
  }

  /** The six bits of subkey r that go to box j are those that the standard's permuted choices and shifts name. */
  lemma ScheduleIsStandard(key: Block, r: nat, j: nat)
    requires r < 16 && 1 <= j <= 8
    ensures KeySix(Schedule(key)[2 * r], Schedule(key)[2 * r + 1], j)
            == StandardPC2(TurnedBy(StandardPC1(Load(key)), TURNS[r]), j)
  {
    hide KeyHalves, StandardPC1, StandardPC2, First, Second, Load, KeySix, Schedule, TurnedBy;
    ChoiceIsStandard(Load(key));
    var h := TurnedBy(KeyHalves(Load(key)), TURNS[r]);
    ScheduleAt(key, r, h.x, h.y);
    KeysAreStandard(h, j);
  }

  /** How far round i turns C and D. */
  function Step(i: nat): nat { if i < 2 || i == 8 || i == 15 then 1 else 2 }

  lemma TurnsAddUp(i: nat)
    requires i < 16
    ensures TURNS[i] == (if i == 0 then 0 else TURNS[i - 1]) + Step(i)
  {
  }

  lemma TurnedOn(h: Halves, n: nat)
    requires h.x & 0xF0000000 == 0 && h.y & 0xF0000000 == 0
    ensures var g := TurnedBy(h, n);
            TurnedBy(h, n + 1) == Halves(Turn(g.x), Turn(g.y)) && TurnedBy(h, n + 2) == Halves(TurnTwice(g.x), TurnTwice(g.y))
  {
    hide Turn, TurnTwice;
    TurnedShort(h, n);
    TurnTwiceIs(TurnedBy(h, n).x);
    TurnTwiceIs(TurnedBy(h, n).y);
    assert TurnedBy(h, n + 2) == Halves(Turn(TurnedBy(h, n + 1).x), Turn(TurnedBy(h, n + 1).y));
  }

  /** The halves of a key, turned for subkey i. */
  lemma StepTurns(h: Halves, i: nat, x: Word, y: Word)
    requires i < 16 && h.x & 0xF0000000 == 0 && h.y & 0xF0000000 == 0
    requires Halves(x, y) == TurnedBy(h, if i == 0 then 0 else TURNS[i - 1])
    ensures Halves(NextHalf(x, i), NextHalf(y, i)) == TurnedBy(h, TURNS[i])
  {
    hide Turn, TurnTwice;
    var n := if i == 0 then 0 else TURNS[i - 1];
    TurnsAddUp(i);
    TurnedOn(h, n);
  }

  function NextHalf(w: Word, i: nat): Word { if i < 2 || i == 8 || i == 15 then Turn(w) else TurnTwice(w) }

  /** des_main_ks. */
  method DesMainKs(sk: array<Word>, key: Block)
    requires sk.Length == 32
    modifies sk
    ensures sk[..] == Schedule(key)
  {
    hide KeyHalves, NextHalf, First, Second, Load, Schedule, TurnedBy, StandardPC2;
    ghost var h, all := KeyHalves(Load(key)), Schedule(key);
    ChoiceShort(Load(key));
    var start := KeyHalves(Load(key));
    var x, y, i := start.x, start.y, 0;
    NotTurned(h);
    while i < 16
      invariant i <= 16 && Halves(x, y) == TurnedBy(h, if i == 0 then 0 else TURNS[i - 1])
      invariant sk[..2 * i] == all[..2 * i]
    {
      StepTurns(h, i, x, y);
      x, y := NextHalf(x, i), NextHalf(y, i);
      ScheduleAt(key, i, x, y);
      PutKeys(sk, i, First(x, y), Second(x, y), all);
      i := i + 1;
    }
    assert sk[..2 * i] == sk[..] && all[..2 * i] == all;
  }

  lemma NotTurned(h: Halves)
    ensures TurnedBy(h, 0) == h
  {
  }

  /** *SK++ = ...; twice. */
  method PutKeys(sk: array<Word>, i: nat, a: Word, b: Word, ghost all: Keys)
    requires sk.Length == 32 && i < 16 && sk[..2 * i] == all[..2 * i] && a == all[2 * i] && b == all[2 * i + 1]
    modifies sk
    ensures sk[..2 * (i + 1)] == all[..2 * (i + 1)]
  {
    sk[2 * i], sk[2 * i + 1] := a, b;
    assert all[..2 * (i + 1)] == all[..2 * i] + [a, b];
    assert sk[..2 * (i + 1)] == sk[..2 * i] + [a, b];
  }
}
