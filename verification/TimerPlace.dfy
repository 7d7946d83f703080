/** skynet/skynet-src/skynet_timer.c: where the timing wheel keeps a node.

    Clock values are 32 bits wide and wrap around.  Comparing two of them with their low bits set is
    comparing their quotients (`MaskIsQuotient`), which is how the masks of the source are written
    here. */
module TimerPlace {
  import opened Remainders

  const TIME_NEAR: nat := 0x100
  const TIME_LEVEL: nat := 0x40
  const WRAP: nat := 0x1_0000_0000

  /** The largest delay that fits the `int` of timer_add. */
  const MAX_DELAY: nat := 0x7fff_ffff

  datatype Event = Event(handle: nat, session: int)
  datatype Node = Node(expire: nat, event: Event)

  datatype Place = Near(slot: nat) | Level(level: nat, idx: nat)

  // ---- Masks ----

  /** The operator | on unsigned numbers. */
  function BitOr(x: nat, y: nat): nat
  {
    if x == 0 && y == 0 then 0
    else (if x % 2 == 1 || y % 2 == 1 then 1 else 0) + 2 * BitOr(x / 2, y / 2)
  }

  /** Halving k times is dividing by 2^k. */
  lemma HalfQuotient(x: nat, m: nat)
    requires m > 0
    ensures x / 2 / m == x / (2 * m)
  {
    var y := x / 2;
    var q, r := y / m, y % m;
    DivMod(y, m);
    assert 2 * m * q == 2 * (m * q);
    DivUnique(x, 2 * m, q, 2 * r + x % 2);
  }

  lemma OrOdd(x: nat, n: nat)
    ensures BitOr(x, 2 * n + 1) == 1 + 2 * BitOr(x / 2, n)
  {
    assert (2 * n + 1) / 2 == n && (2 * n + 1) % 2 == 1;
  }

  /** x, with all bits below m set. */
  function Filled(x: nat, m: nat): nat
    requires m > 0
  {
    x / m * m + (m - 1)
  }

  lemma FilledTwice(x: nat, m: nat)
    requires m > 0
    ensures 1 + 2 * Filled(x / 2, m) == Filled(x, 2 * m)
  {
    HalfQuotient(x, m);
    TwiceSum(x / (2 * m), m);
  }

  lemma TwiceSum(q: nat, m: nat)
    requires m > 0
    ensures 1 + 2 * (q * m + (m - 1)) == q * (2 * m) + (2 * m - 1)
  {
  }

  lemma FilledNone(x: nat)
    ensures Filled(x, 1) == x
  {
  }

  /** Setting the low k bits of x. */
  lemma {:induction false} OrOnes(x: nat, k: nat)
    ensures BitOr(x, Power2(k) - 1) == Filled(x, Power2(k))
    decreases k
  {
    hide BitOr, Filled;
    if k == 0 {
      OrZero(x);
      FilledNone(x);
    } else {
      var m := Power2(k - 1);
      OrOnes(x / 2, k - 1);
      OrOdd(x, m - 1);
      FilledTwice(x, m);
    }
  }

  lemma FilledEqual(p: nat, q: nat, m: nat)
    requires m > 0
    ensures p * m + (m - 1) == q * m + (m - 1) <==> p == q
  {
    if p < q { TimesNext(m, p, q); } else if q < p { TimesNext(m, q, p); }
  }

  lemma {:induction false} OrZero(x: nat)
    ensures BitOr(x, 0) == x
    decreases x
  {
    if x > 0 { OrZero(x / 2); }
  }

  /** Two clock values that agree with their low k bits set have the same quotient by 2^k, and the other way
      round. */
  lemma MaskIsQuotient(x: nat, y: nat, k: nat)
    ensures BitOr(x, Power2(k) - 1) == BitOr(y, Power2(k) - 1) <==> x / Power2(k) == y / Power2(k)
  {
    hide BitOr, Power2;
    OrOnes(x, k);
    OrOnes(y, k);
    FilledEqual(x / Power2(k), y / Power2(k), Power2(k));
  }

  /** The masks of add_node: TIME_NEAR_MASK, and what the loop over the levels makes of it. */
  lemma Masks(i: nat)
    requires i <= 3
    ensures Power2(8) == TIME_NEAR && Power2(8) - 1 == 0xff && Power2(8 + 6 * i) == Span(i)
  {
    var p8, p14, p20 := Power2(8), Power2(14), Power2(20);
    assert Power2(26) == 64 * p20 && p20 == 64 * p14 && p14 == 64 * p8;
  }

  /** How many clock values level i spans in one of its slots. */
  function Span(i: nat): (s: nat)
    requires i <= 3
    ensures s > 0
  {
    if i == 0 then 0x100 else if i == 1 then 0x4000 else if i == 2 then 0x10_0000 else 0x400_0000
  }

  /** add_node: the list for a node that expires at e, when the clock is t. */
  function PlaceOf(e: nat, t: nat): (p: Place)
    ensures p.Near? ==> p.slot < TIME_NEAR
    ensures p.Level? ==> p.level <= 3 && p.idx < TIME_LEVEL
  {
    if e / 0x100 == t / 0x100 then Near(e % TIME_NEAR)
    else if e / 0x4000 == t / 0x4000 then Level(0, e / 0x100 % TIME_LEVEL)
    else if e / 0x10_0000 == t / 0x10_0000 then Level(1, e / 0x4000 % TIME_LEVEL)
    else if e / 0x400_0000 == t / 0x400_0000 then Level(2, e / 0x10_0000 % TIME_LEVEL)
    else Level(3, e / 0x400_0000 % TIME_LEVEL)
  }

  datatype Move = Stay | Cascade(level: nat, idx: nat)

  /** timer_shift: which list is redistributed when the clock becomes ct. */
  function MoveAt(ct: nat): (m: Move)
    requires ct < WRAP
    ensures m.Cascade? ==> m.level <= 3 && m.idx < TIME_LEVEL
  {
    if ct == 0 then Cascade(3, 0)
    else if ct % 0x100 != 0 then Stay
    else if ct / 0x100 % TIME_LEVEL != 0 then Cascade(0, ct / 0x100 % TIME_LEVEL)
    else if ct / 0x4000 % TIME_LEVEL != 0 then Cascade(1, ct / 0x4000 % TIME_LEVEL)
    else if ct / 0x10_0000 % TIME_LEVEL != 0 then Cascade(2, ct / 0x10_0000 % TIME_LEVEL)
    else Cascade(3, ct / 0x400_0000 % TIME_LEVEL)
  }

  /** How many ticks lie between the clock and e. */
  function Ahead(e: nat, t: nat): nat
    requires e < WRAP && t < WRAP
  {
    if e >= t then e - t else e + WRAP - t
  }

  function Tick(t: nat): (r: nat)
    requires t < WRAP
    ensures r < WRAP
  {
    if t + 1 == WRAP then 0 else t + 1
  }

  /** The lists that a cascade refills: the near ones and those of lower levels. */
  predicate Lower(p: Place, level: nat) { p.Near? || p.level < level }

  /** The node at the head of the wheel is due, and only it. */
  lemma DueIsCurrentSlot(e: nat, t: nat)
    requires e < WRAP && t < WRAP
    ensures PlaceOf(e, t) == Near(t % TIME_NEAR) <==> e == t
  {
    assert e == e / 0x100 * 0x100 + e % 0x100;
    assert t == t / 0x100 * 0x100 + t % 0x100;
  }

  // ---- Clock values as digits ----

  datatype Digits = Digits(d4: nat, d3: nat, d2: nat, d1: nat, d0: nat)

  function DigitsOf(x: nat): Digits
  {
    Digits(x / 0x400_0000, x / 0x10_0000 % 64, x / 0x4000 % 64, x / 0x100 % 64, x % 0x100)
  }

  predicate Proper(d: Digits) { d.d4 < 64 && d.d3 < 64 && d.d2 < 64 && d.d1 < 64 && d.d0 < 0x100 }

  function Value(d: Digits): nat { (((d.d4 * 64 + d.d3) * 64 + d.d2) * 64 + d.d1) * 0x100 + d.d0 }

  function PlaceBy(e: Digits, t: Digits): Place
  {
    if e.d4 != t.d4 then Level(3, e.d4)
    else if e.d3 != t.d3 then Level(2, e.d3)
    else if e.d2 != t.d2 then Level(1, e.d2)
    else if e.d1 != t.d1 then Level(0, e.d1)
    else Near(e.d0)
  }

  /** The carries of one tick. */
  function Next(t: Digits): Digits
  {
    if t.d0 < 0xff then t.(d0 := t.d0 + 1)
    else if t.d1 < 63 then t.(d1 := t.d1 + 1, d0 := 0)
    else if t.d2 < 63 then t.(d2 := t.d2 + 1, d1 := 0, d0 := 0)
    else if t.d3 < 63 then t.(d3 := t.d3 + 1, d2 := 0, d1 := 0, d0 := 0)
    else if t.d4 < 63 then t.(d4 := t.d4 + 1, d3 := 0, d2 := 0, d1 := 0, d0 := 0)
    else Digits(0, 0, 0, 0, 0)
  }

  /** The list to redistribute is named by the highest digit that a carry reached. */
  function MoveBy(u: Digits): Move
  {
    if u.d0 != 0 then Stay
    else if u.d1 != 0 then Cascade(0, u.d1)
    else if u.d2 != 0 then Cascade(1, u.d2)
    else if u.d3 != 0 then Cascade(2, u.d3)
    else Cascade(3, u.d4)
  }

  lemma Quotients(x: nat)
    ensures x / 0x4000 == x / 0x100 / 64
    ensures x / 0x10_0000 == x / 0x4000 / 64
    ensures x / 0x400_0000 == x / 0x10_0000 / 64
  {
  }

  lemma Split(y: nat, n: nat)
    requires n > 0
    ensures y == y / n * n + y % n && y % n < n
  {
  }

  lemma Join(y: nat, q: nat, r: nat)
    requires r < 64
    ensures (q * 64 + r) / 64 == q && (q * 64 + r) % 64 == r
  {
  }

  lemma ValueOf(x: nat)
    requires x < WRAP
    ensures Proper(DigitsOf(x)) && Value(DigitsOf(x)) == x
  {
    Quotients(x);
    Split(x, 0x100);
    Split(x / 0x100, 64);
    Split(x / 0x4000, 64);
    Split(x / 0x10_0000, 64);
  }

  lemma Equal64(a: nat, r: nat, b: nat, s: nat)
    requires a * 64 + r == b * 64 + s && r < 64 && s < 64
    ensures a == b && r == s
  {
  }

  lemma Unique(c: Digits, d: Digits)
    requires Proper(c) && Proper(d) && Value(c) == Value(d)
    ensures c == d
  {
    var c3, d3 := c.d4 * 64 + c.d3, d.d4 * 64 + d.d3;
    var c2, d2 := c3 * 64 + c.d2, d3 * 64 + d.d2;
    var c1, d1 := c2 * 64 + c.d1, d2 * 64 + d.d1;
    assert c1 == d1 && c.d0 == d.d0;
    Equal64(c2, c.d1, d2, d.d1);
    Equal64(c3, c.d2, d3, d.d2);
    Equal64(c.d4, c.d3, d.d4, d.d3);
  }

  lemma PlaceByDigits(e: nat, t: nat)
    requires e < WRAP && t < WRAP
    ensures PlaceOf(e, t) == PlaceBy(DigitsOf(e), DigitsOf(t))
  {
    Quotients(e);
    Quotients(t);
    Split(e / 0x100, 64);
    Split(t / 0x100, 64);
    Split(e / 0x4000, 64);
    Split(t / 0x4000, 64);
    Split(e / 0x10_0000, 64);
    Split(t / 0x10_0000, 64);
    ValueOf(e);
  }

  lemma NextValue(t: Digits)
    requires Proper(t)
    ensures Proper(Next(t)) && Value(Next(t)) == if Value(t) + 1 == WRAP then 0 else Value(t) + 1
  {
  }

  lemma NextDigits(t: nat)
    requires t < WRAP
    ensures DigitsOf(Tick(t)) == Next(DigitsOf(t))
  {
    hide DigitsOf;
    ValueOf(t);
    ValueOf(Tick(t));
    NextValue(DigitsOf(t));
    Unique(DigitsOf(Tick(t)), Next(DigitsOf(t)));
  }

  lemma TopDigit(u: nat)
    requires u < WRAP
    ensures u / 0x400_0000 < 64
  {
  }

  lemma Small(d: nat)
    requires d < 64
    ensures d % 64 == d
  {
  }

  lemma MoveByDigits(u: nat)
    requires u < WRAP
    ensures MoveAt(u) == MoveBy(DigitsOf(u))
  {
    if u > 0 {
      TopDigit(u);
      Small(u / 0x400_0000);
    }
  }

  /** When nothing is redistributed, everything is in its place already. */
  lemma StayKeeps(e: nat, t: nat)
    requires e < WRAP && t < WRAP && MoveAt(Tick(t)).Stay?
    ensures PlaceOf(e, Tick(t)) == PlaceOf(e, t)
  {
    hide DigitsOf, PlaceOf, MoveAt;
    NextDigits(t);
    MoveByDigits(Tick(t));
    PlaceByDigits(e, t);
    PlaceByDigits(e, Tick(t));
  }

  /** A cascade empties exactly the list it should: nodes in it belong below, nothing was there
      before, and every other node stays where it is. */
  lemma CascadeExact(e: nat, t: nat)
    requires e < WRAP && t < WRAP && 1 <= Ahead(e, t) <= MAX_DELAY && MoveAt(Tick(t)).Cascade?
    ensures var u, m := Tick(t), MoveAt(Tick(t));
            if PlaceOf(e, t) == Level(m.level, m.idx) then Lower(PlaceOf(e, u), m.level)
            else !Lower(PlaceOf(e, t), m.level) && PlaceOf(e, u) == PlaceOf(e, t)
  {
    hide DigitsOf, PlaceOf, MoveAt;
    NextDigits(t);
    MoveByDigits(Tick(t));
    PlaceByDigits(e, t);
    PlaceByDigits(e, Tick(t));
    ValueOf(e);
    ValueOf(t);
    CascadeByDigits(DigitsOf(e), DigitsOf(t));
  }

  lemma CascadeByDigits(e: Digits, t: Digits)
    requires Proper(e) && Proper(t) && MoveBy(Next(t)).Cascade?
    requires Value(e) < WRAP && Value(t) < WRAP && 1 <= Ahead(Value(e), Value(t)) <= MAX_DELAY
    ensures var u, m := Next(t), MoveBy(Next(t));
            if PlaceBy(e, t) == Level(m.level, m.idx) then Lower(PlaceBy(e, u), m.level)
            else !Lower(PlaceBy(e, t), m.level) && PlaceBy(e, u) == PlaceBy(e, t)
  {
  }

  /** add_node's search: the first level whose block still holds both. */
  lemma FoundLevel(e: nat, t: nat, i: nat)
    requires i <= 3 && e / 0x100 != t / 0x100
    requires i > 0 ==> e / 0x4000 != t / 0x4000
    requires i > 1 ==> e / 0x10_0000 != t / 0x10_0000
    requires i > 2 ==> e / 0x400_0000 != t / 0x400_0000
    requires i < 3 ==> e / Span(i + 1) == t / Span(i + 1)
    ensures PlaceOf(e, t) == Level(i, e / Span(i) % TIME_LEVEL)
  {
  }

  /** timer_shift's search has passed level i: all lower digits of the clock are zero. */
  predicate Rolled(ct: nat, i: nat)
    requires i <= 3
  {
    && ct % Span(i) == 0
    && (i > 0 ==> ct / 0x100 % TIME_LEVEL == 0)
    && (i > 1 ==> ct / 0x4000 % TIME_LEVEL == 0)
    && (i > 2 ==> ct / 0x10_0000 % TIME_LEVEL == 0)
  }

  lemma ShiftLoop(ct: nat, i: nat)
    requires 0 < ct < WRAP && i <= 3 && Rolled(ct, i)
    ensures var idx := ct / Span(i) % TIME_LEVEL;
            if idx != 0 then MoveAt(ct) == Cascade(i, idx)
            else i < 3 && Rolled(ct, i + 1) && ct / Span(i) / TIME_LEVEL == ct / Span(i + 1)
  {
    hide PlaceOf;
    if i == 0 { Digit0(ct); } else if i == 1 { Digit1(ct); } else if i == 2 { Digit2(ct); } else { Digit3(ct); }
  }

  lemma Digit0(ct: nat)
    requires ct % 0x100 == 0
    ensures ct / 0x100 / 64 == ct / 0x4000
    ensures ct / 0x100 % 64 == 0 ==> ct % 0x4000 == 0
  {
  }

  lemma Digit1(ct: nat)
    requires ct % 0x4000 == 0
    ensures ct % 0x100 == 0 && ct / 0x4000 / 64 == ct / 0x10_0000
    ensures ct / 0x4000 % 64 == 0 ==> ct % 0x10_0000 == 0
  {
  }

  lemma Digit2(ct: nat)
    requires ct % 0x10_0000 == 0
    ensures ct % 0x100 == 0 && ct / 0x10_0000 / 64 == ct / 0x400_0000
    ensures ct / 0x10_0000 % 64 == 0 ==> ct % 0x400_0000 == 0
  {
  }

  lemma Digit3(ct: nat)
    requires 0 < ct < WRAP && ct % 0x400_0000 == 0
    ensures ct % 0x100 == 0 && ct / 0x400_0000 % 64 != 0
  {
  }

  lemma NearPlace(e: nat, t: nat)
    ensures e / TIME_NEAR == t / TIME_NEAR ==> PlaceOf(e, t) == Near(e % TIME_NEAR)
  {
  }

  lemma MoveNone(ct: nat)
    requires 0 < ct < WRAP
    ensures ct % TIME_NEAR != 0 ==> MoveAt(ct).Stay?
    ensures ct % TIME_NEAR == 0 ==> Rolled(ct, 0)
  {
  }

  lemma MoveAtWrap()
    ensures MoveAt(0) == Cascade(3, 0)
  {
  }

  lemma RolledMeans(ct: nat, i: nat)
    requires i <= 3 && Rolled(ct, i)
    ensures ct % Span(i) == 0
  {
  }
}
