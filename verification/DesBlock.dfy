/** skynet/lualib-src/lua-crypt.c, des_crypt: the DES block function, for any contents of the S-boxes and
    any key schedule. */
module DesBlock {

  type Byte = bv8
  type Word = bv32

  /** What one S-box gives for the six bits that are left of a word. */
  type Box = Word -> Word

  datatype Boxes = Boxes(sb1: Box, sb2: Box, sb3: Box, sb4: Box, sb5: Box, sb6: Box, sb7: Box, sb8: Box)

  /** The two halves X and Y of a block. */
  datatype Halves = Halves(x: Word, y: Word)

  // ---- The permutations, one line of the source's macros at a time ----

  function Mix4(h: Halves): Halves
  {
    var t := ((h.x >> 4) ^ h.y) & 0x0F0F0F0F;
    Halves(h.x ^ (t << 4), h.y ^ t)
  }

  function Mix16(h: Halves): Halves
  {
    var t := ((h.x >> 16) ^ h.y) & 0x0000FFFF;
    Halves(h.x ^ (t << 16), h.y ^ t)
  }

  function Mix2(h: Halves): Halves
  {
    var t := ((h.y >> 2) ^ h.x) & 0x33333333;
    Halves(h.x ^ t, h.y ^ (t << 2))
  }

  function Mix8(h: Halves): Halves
  {
    var t := ((h.y >> 8) ^ h.x) & 0x00FF00FF;
    Halves(h.x ^ t, h.y ^ (t << 8))
  }

  function MixOdd(h: Halves): Halves
  {
    var t := (h.x ^ h.y) & 0xAAAAAAAA;
    Halves(h.x ^ t, h.y ^ t)
  }

  function Left(w: Word): Word { (w << 1) | (w >> 31) }

  function Right(w: Word): Word { (w << 31) | (w >> 1) }

  /** DES_IP(X, Y). */
  function InitialPermutation(h: Halves): Halves
  {
    var a := Mix8(Mix2(Mix16(Mix4(h))));
    var b := MixOdd(Halves(a.x, Left(a.y)));
    Halves(Left(b.x), b.y)
  }

  /** DES_FP(X, Y). */
  function FinalPermutation(h: Halves): Halves
  {
    var a := MixOdd(Halves(Right(h.x), h.y));
    Mix4(Mix16(Mix2(Mix8(Halves(a.x, Right(a.y))))))
  }

  lemma Mix4Twice(h: Halves)
    ensures Mix4(Mix4(h)) == h
  {
    Shift4(h.x, h.y);
  }

  lemma Shift4(x: Word, y: Word)
    ensures var t := ((x >> 4) ^ y) & 0x0F0F0F0F;
            (((x ^ (t << 4)) >> 4) ^ (y ^ t)) & 0x0F0F0F0F == t
  {
  }

  lemma Mix16Twice(h: Halves)
    ensures Mix16(Mix16(h)) == h
  {
    Shift16(h.x, h.y);
  }

  lemma Shift16(x: Word, y: Word)
    ensures var t := ((x >> 16) ^ y) & 0x0000FFFF;
            (((x ^ (t << 16)) >> 16) ^ (y ^ t)) & 0x0000FFFF == t
  {
  }

  lemma Mix2Twice(h: Halves)
    ensures Mix2(Mix2(h)) == h
  {
    Shift2(h.y, h.x);
  }

  lemma Shift2(x: Word, y: Word)
    ensures var t := ((x >> 2) ^ y) & 0x33333333;
            (((x ^ (t << 2)) >> 2) ^ (y ^ t)) & 0x33333333 == t
  {
  }

  lemma Mix8Twice(h: Halves)
    ensures Mix8(Mix8(h)) == h
  {
    Shift8(h.y, h.x);
  }

  lemma Shift8(x: Word, y: Word)
    ensures var t := ((x >> 8) ^ y) & 0x00FF00FF;
            (((x ^ (t << 8)) >> 8) ^ (y ^ t)) & 0x00FF00FF == t
  {
  }

  lemma MixOddTwice(h: Halves)
    ensures MixOdd(MixOdd(h)) == h
  {
  }

  lemma RotateBack(w: Word)
    ensures Right(Left(w)) == w && Left(Right(w)) == w
  {
  }

  /** The final permutation undoes the initial one. */
  lemma FinalUndoesInitial(h: Halves)
    ensures FinalPermutation(InitialPermutation(h)) == h
  {
    hide Mix4, Mix16, Mix2, Mix8, MixOdd, Left, Right;
    var a4 := Mix4(h);
    var a16 := Mix16(a4);
    var a2 := Mix2(a16);
    var a := Mix8(a2);
    var m := Halves(a.x, Left(a.y));
    var b := MixOdd(m);
    RotateBack(b.x);
    RotateBack(a.y);
    MixOddTwice(m);
    Mix8Twice(a2);
    Mix2Twice(a16);
    Mix16Twice(a4);
    Mix4Twice(h);
  }

  /** And the other way round. */
  lemma InitialUndoesFinal(h: Halves)
    ensures InitialPermutation(FinalPermutation(h)) == h
  {
    hide Mix4, Mix16, Mix2, Mix8, MixOdd, Left, Right;
    var m := Halves(Right(h.x), h.y);
    var a := MixOdd(m);
    var a8 := Halves(a.x, Right(a.y));
    var a2 := Mix8(a8);
    var a16 := Mix2(a2);
    var a4 := Mix16(a16);
    Mix4Twice(a4);
    Mix16Twice(a16);
    Mix2Twice(a2);
    Mix8Twice(a8);
    RotateBack(a.y);
    MixOddTwice(m);
    RotateBack(h.x);
  }

  // ---- The rounds ----

  /** What DES_ROUND(X, Y) mixes into Y. */
  function RoundMix(box: Boxes, k1: Word, k2: Word, x: Word): Word
  {
    EvenMix(box, k1 ^ x) ^ OddMix(box, k2 ^ Turned(x))
  }

  function Turned(x: Word): Word { (x << 28) | (x >> 4) }

  function At(b: Box, x: Word): Word { b(x) }

  function EvenMix(box: Boxes, t: Word): Word
  {
    At(box.sb8, t & 0x3F) ^ At(box.sb6, (t >> 8) & 0x3F) ^ At(box.sb4, (t >> 16) & 0x3F) ^ At(box.sb2, (t >> 24) & 0x3F)
  }

  function OddMix(box: Boxes, t: Word): Word
  {
    At(box.sb7, t & 0x3F) ^ At(box.sb5, (t >> 8) & 0x3F) ^ At(box.sb3, (t >> 16) & 0x3F) ^ At(box.sb1, (t >> 24) & 0x3F)
  }

  type Keys = k: seq<Word> | |k| == 32 witness seq(32, _ => 0)

  /** What round r makes of the half it changes. */
  function Mixed(box: Boxes, k: Keys, r: nat, x: Word, y: Word): Word
    requires r < 16
  {
    x ^ RoundMix(box, k[2 * r], k[2 * r + 1], y)
  }

  /** One round, written so that each round has the same form: the halves change places. */
  function Round(box: Boxes, k: Keys, r: nat, h: Halves): Halves
    requires r < 16
  {
    Halves(h.y, Mixed(box, k, r, h.x, h.y))
  }

  function Rounds(box: Boxes, k: Keys, r: nat, h: Halves): Halves
    requires r <= 16
  {
    if r == 0 then h else Round(box, k, r - 1, Rounds(box, k, r - 1, h))
  }

  function Swap(h: Halves): Halves { Halves(h.y, h.x) }

  /** ldesdecode's key schedule: the pairs in reverse order. */
  function ReversedKeys(k: Keys): Keys
  {
    seq(32, i requires 0 <= i < 32 => if i % 2 == 0 then k[30 - i] else k[32 - i])
  }

  lemma XorTwice(a: Word, f: Word)
    ensures (a ^ f) ^ f == a
  {
  }

  /** A round with the same keys, on the swapped result, gives the swapped start. */
  lemma RoundBack(box: Boxes, k: Keys, r: nat, h: Halves)
    requires r < 16
    ensures Round(box, ReversedKeys(k), 15 - r, Swap(Round(box, k, r, h))) == Swap(h)
  {
    hide RoundMix;
    var i := 15 - r;
    assert ReversedKeys(k)[2 * i] == k[2 * r] && ReversedKeys(k)[2 * i + 1] == k[2 * r + 1];
    XorTwice(h.x, RoundMix(box, k[2 * r], k[2 * r + 1], h.y));
  }

  /** Sixteen rounds with the reversed keys undo sixteen rounds, whatever the S-boxes are. */
  lemma {:induction false} RoundsBack(box: Boxes, k: Keys, r: nat, h: Halves)
    requires r <= 16
    ensures Rounds(box, ReversedKeys(k), r, Swap(Rounds(box, k, 16, h))) == Swap(Rounds(box, k, 16 - r, h))
    decreases r
  {
    hide Round, Swap, ReversedKeys;
    if r > 0 {
      RoundsBack(box, k, r - 1, h);
      RoundBack(box, k, 16 - r, Rounds(box, k, 16 - r, h));
    }
  }

  // ---- Blocks ----

  type Block = b: seq<Byte> | |b| == 8 witness seq(8, _ => 0)

  /** GET_UINT32. */
  function GetWord(b: Block, i: nat): Word
    requires i + 4 <= 8
  {
    ((b[i] as Word) << 24) | ((b[i + 1] as Word) << 16) | ((b[i + 2] as Word) << 8) | (b[i + 3] as Word)
  }

  /** PUT_UINT32. */
  function PutWord(n: Word): (r: seq<Byte>)
    ensures |r| == 4
  {
    [((n >> 24) & 0xFF) as Byte, ((n >> 16) & 0xFF) as Byte, ((n >> 8) & 0xFF) as Byte, (n & 0xFF) as Byte]
  }

  lemma PutGet(a: Byte, b: Byte, c: Byte, d: Byte)
    ensures PutWord(((a as Word) << 24) | ((b as Word) << 16) | ((c as Word) << 8) | (d as Word)) == [a, b, c, d]
  {
  }

  lemma GetPut(m: Word, n: Word)
    ensures GetWord(PutWord(m) + PutWord(n), 0) == m && GetWord(PutWord(m) + PutWord(n), 4) == n
  {
    WordOfBytes(m);
    WordOfBytes(n);
  }

  lemma WordOfBytes(n: Word)
    ensures (((n >> 24) & 0xFF) << 24) | (((n >> 16) & 0xFF) << 16) | (((n >> 8) & 0xFF) << 8) | (n & 0xFF) == n
  {
  }

  function Load(b: Block): Halves { Halves(GetWord(b, 0), GetWord(b, 4)) }

  function Store(h: Halves): Block { PutWord(h.x) + PutWord(h.y) }

  /** des_crypt. */
  function Crypt(box: Boxes, k: Keys, b: Block): Block
  {
    Store(FinalPermutation(Swap(Rounds(box, k, 16, InitialPermutation(Load(b))))))
  }

  lemma LoadStore(h: Halves)
    ensures Load(Store(h)) == h
  {
    GetPut(h.x, h.y);
  }

  lemma StoreLoad(b: Block)
    ensures Store(Load(b)) == b
  {
    PutGet(b[0], b[1], b[2], b[3]);
    PutGet(b[4], b[5], b[6], b[7]);
    assert b == [b[0], b[1], b[2], b[3]] + [b[4], b[5], b[6], b[7]];
  }

  /** Decrypting a block with the reversed keys gives the block back. */
  lemma CryptBack(box: Boxes, k: Keys, b: Block)
    ensures Crypt(box, ReversedKeys(k), Crypt(box, k, b)) == b
  {
    hide Round, Load, Store, InitialPermutation, FinalPermutation, ReversedKeys, Rounds;
    var h := InitialPermutation(Load(b));
    var c := Swap(Rounds(box, k, 16, h));
    LoadStore(FinalPermutation(c));
    InitialUndoesFinal(c);
    RoundsBack(box, k, 16, h);
    RoundsNone(box, k, h);
    FinalUndoesInitial(Load(b));
    StoreLoad(b);
  }

  lemma RoundsNone(box: Boxes, k: Keys, h: Halves)
    ensures Rounds(box, k, 0, h) == h
  {
  }

  /** des_crypt as it is written: the rounds alternate between the two halves. */
  method DesCrypt(box: Boxes, sk: Keys, input: Block) returns (output: Block)
    ensures output == Crypt(box, sk, input)
  {
    hide Rounds, Mixed, Load, Store, InitialPermutation, FinalPermutation;
    ghost var h := InitialPermutation(Load(input));
    var start := InitialPermutation(Load(input));
    var x, y, r := start.x, start.y, 0;
    RoundsNone(box, sk, h);
    while r < 16
      invariant r <= 16 && r % 2 == 0
      invariant Halves(x, y) == Rounds(box, sk, r, h)
    {
      TwoRounds(box, sk, r, h, x, y);
      x := Mixed(box, sk, r, x, y);
      y := Mixed(box, sk, r + 1, y, x);
      r := r + 2;
    }
    return Store(FinalPermutation(Halves(y, x)));
  }

  lemma TwoRounds(box: Boxes, k: Keys, r: nat, h: Halves, x: Word, y: Word)
    requires r + 2 <= 16 && Rounds(box, k, r, h) == Halves(x, y)
    ensures var x' := Mixed(box, k, r, x, y);
            Rounds(box, k, r + 2, h) == Halves(x', Mixed(box, k, r + 1, y, x'))
  {
    hide Mixed;
    assert Rounds(box, k, r + 1, h) == Round(box, k, r, Halves(x, y));
  }
}
