/** skynet/lualib-src/lua-crypt.c: multiplication and powers modulo the largest 64-bit prime, in 64-bit
    arithmetic that wraps around, and the key exchange built on them. */
module ModArith {
  import opened Remainders

  const P: nat := 0xffff_ffff_ffff_ffc5
  const WRAP: nat := 0x1_0000_0000_0000_0000

  /** A 64-bit result. */
  function U64(x: int): (r: nat)
    ensures r < WRAP
  {
    x % WRAP
  }

  lemma U64Fits(x: int)
    requires 0 <= x < WRAP
    ensures U64(x) == x
  {
  }

  function Pow(a: nat, b: nat): nat
  {
    if b == 0 then 1 else Pow(a, b - 1) * a
  }

  // ---- Remainders ----

  lemma Quotient(x: nat, m: nat) returns (q: nat)
    requires m > 0
    ensures x == m * q + x % m
  {
    q := x / m;
  }

  /** Adding a multiple of m. */
  lemma RemainderAdd(x: nat, m: nat, k: nat)
    requires m > 0
    ensures (x + m * k) % m == x % m
  {
    var q := Quotient(x, m);
    assert m * (q + k) == m * q + m * k;
    ModUnique(x + m * k, m, q + k, x % m);
  }

  /** A factor may be reduced first. */
  lemma RemainderTimes(x: nat, y: nat, m: nat)
    requires m > 0
    ensures (x % m * y) % m == (x * y) % m
  {
    var q := Quotient(x, m);
    assert x * y == (m * q + x % m) * y == x % m * y + m * (q * y);
    RemainderAdd(x % m * y, m, q * y);
  }

  lemma RemainderTimesBoth(x: nat, y: nat, m: nat)
    requires m > 0
    ensures (x % m * (y % m)) % m == (x * y) % m
  {
    RemainderTimes(x, y % m, m);
    assert x * (y % m) == y % m * x && x * y == y * x;
    RemainderTimes(y, x, m);
  }

  // ---- mul_mod_p ----

  lemma Halve(a: nat, b: nat)
    ensures a * b == (2 * a) * (b / 2) + (if b % 2 == 1 then a else 0)
  {
    var h := b / 2;
    if b % 2 == 1 {
      assert a * (2 * h + 1) == a * (2 * h) + a;
    }
    assert a * (2 * h) == (2 * a) * h;
  }

  lemma Distribute(a: nat, f: nat, h: nat)
    ensures (a + P * f) * h == a * h + P * (f * h)
  {
  }

  /** One bit of the multiplier: the invariant of mul_mod_p's loop. */
  lemma MulStep(m: nat, a: nat, b: nat, m': nat, a': nat, e: nat, f: nat)
    requires b > 0 && m' + P * e == m + (if b % 2 == 1 then a else 0) && a' + P * f == 2 * a
    ensures (m' + a' * (b / 2)) % P == (m + a * b) % P
  {
    var h := b / 2;
    Halve(a, b);
    Distribute(a', f, h);
    RemainderAdd(m' + a' * h, P, e + f * h);
  }

  function Product(a: nat, b: nat): nat { a * b }

  /** The invariant of mul_mod_p's loop, which counts down the bits of b. */
  ghost predicate MulInv(m: nat, a: nat, b: nat, product: nat)
  {
    m < P && a <= P && (m + a * b) % P == product % P
  }

  /** The accumulator after one bit. */
  function Accumulate(m: nat, a: nat, odd: bool): (r: nat)
    requires m < P && a <= P
    ensures r < P
  {
    if !odd then m else if m >= P - a then m - (P - a) else U64(m + a)
  }

  /** The multiplicand after one bit; doubling may wrap around, and taking P away wraps back. */
  function Double(a: nat): (r: nat)
    requires a <= P
    ensures r <= P
  {
    if a >= P - a then (DoubleWraps(a); U64(U64(a * 2) - P)) else U64(a * 2)
  }

  lemma BitStep(m: nat, a: nat, b: nat, product: nat)
    requires MulInv(m, a, b, product) && b > 0
    ensures MulInv(Accumulate(m, a, b % 2 == 1), Double(a), b / 2, product)
  {
    var m', a' := Accumulate(m, a, b % 2 == 1), Double(a);
    var s := m + (if b % 2 == 1 then a else 0);
    if s < P { U64Fits(s); }
    if a >= P - a { DoubleWraps(a); } else { U64Fits(a * 2); }
    MulStep(m, a, b, m', a', if s == m' then 0 else 1, if a' == 2 * a then 0 else 1);
  }

  /** For every a up to P, although 2a and m + a may not fit 64 bits. */
  method MulModP(a0: nat, b0: nat) returns (m: nat)
    requires a0 <= P && b0 < WRAP
    ensures m == Product(a0, b0) % P
  {
    hide MulInv, Product;
    var a: nat, b: nat := a0, b0;
    m := 0;
    MulStarts(a0, b0);
    while b != 0
      invariant m < P && a <= P && MulInv(m, a, b, Product(a0, b0))
      decreases b
    {
      BitStep(m, a, b, Product(a0, b0));
      if b % 2 == 1 {
        var t := P - a;
        if m >= t { m := m - t; } else { m := U64(m + a); }
      }
      if a >= P - a {
        a := U64(U64(a * 2) - P);
      } else {
        a := U64(a * 2);
      }
      b := b / 2;
    }
    MulEnds(m, a, Product(a0, b0));
  }

  lemma MulStarts(a: nat, b: nat)
    requires a <= P
    ensures MulInv(0, a, b, Product(a, b))
  {
  }

  lemma MulEnds(m: nat, a: nat, product: nat)
    requires MulInv(m, a, 0, product)
    ensures m == product % P
  {
    assert a * 0 == 0;
    ModUnique(m, P, 0, m);
  }

  /** Doubling may wrap around, and taking P away wraps back. */
  lemma DoubleWraps(a: nat)
    requires a <= P && a >= P - a
    ensures U64(U64(a * 2) - P) == 2 * a - P
  {
    if a * 2 >= WRAP { assert U64(a * 2) == a * 2 - WRAP; } else { U64Fits(a * 2); }
  }

  // ---- pow_mod_p ----

  lemma {:induction false} PowAdd(a: nat, b: nat, c: nat)
    ensures Pow(a, b + c) == Pow(a, b) * Pow(a, c)
    decreases c
  {
    if c > 0 {
      PowAdd(a, b, c - 1);
      assert Pow(a, b + c) == Pow(a, b + c - 1) * a;
      assert Pow(a, b) * Pow(a, c - 1) * a == Pow(a, b) * (Pow(a, c - 1) * a);
    }
  }

  lemma {:induction false} PowTimes(a: nat, b: nat, c: nat)
    ensures Pow(Pow(a, b), c) == Pow(a, b * c)
    decreases c
  {
    if c > 0 {
      PowTimes(a, b, c - 1);
      PowAdd(a, b * (c - 1), b);
      assert b * c == b * (c - 1) + b;
    } else {
      assert b * c == 0;
    }
  }

  lemma {:induction false} PowReduced(a: nat, b: nat, m: nat)
    requires m > 0
    ensures Pow(a % m, b) % m == Pow(a, b) % m
    decreases b
  {
    if b > 0 {
      PowReduced(a, b - 1, m);
      RemainderTimesBoth(Pow(a % m, b - 1), a % m, m);
      RemainderTimesBoth(Pow(a, b - 1), a, m);
      assert a % m % m == a % m by { ModUnique(a % m, m, 0, a % m); }
    }
  }

  /** What pow_mod_p gives: the power, reduced, unless there is nothing to multiply. */
  ghost function PowResult(a: nat, b: nat): nat
  {
    if b == 1 then a else Pow(a, b) % P
  }

  lemma PowResultReduced(a: nat, b: nat)
    requires a <= P && b >= 1
    ensures PowResult(a, b) <= P && PowResult(a, b) % P == Pow(a, b) % P
  {
    assert Pow(a, 0) == 1;
    if b == 1 { assert Pow(a, 1) == a; }
  }

  /** The exponent must not be zero: the source's callers refuse it. */
  method PowModP(a: nat, b: nat) returns (t: nat)
    requires a <= P && 1 <= b < WRAP
    ensures t == PowResult(a, b)
    decreases b
  {
    if b == 1 { return a; }
    var half := PowModP(a, b / 2);
    PowResultReduced(a, b / 2);
    t := MulModP(half, half);
    HalfPower(a, b / 2, half);
    if b % 2 == 1 {
      var u := MulModP(t, a);
      OddPower(a, b / 2, t);
      t := u;
    }
    assert b == b / 2 + b / 2 + b % 2;
  }

  lemma HalfPower(a: nat, h: nat, half: nat)
    requires half % P == Pow(a, h) % P
    ensures (half * half) % P == Pow(a, h + h) % P
  {
    RemainderTimesBoth(half, half, P);
    RemainderTimesBoth(Pow(a, h), Pow(a, h), P);
    PowAdd(a, h, h);
  }

  lemma OddPower(a: nat, h: nat, t: nat)
    requires t == Pow(a, h + h) % P
    ensures (t * a) % P == Pow(a, h + h + 1) % P
  {
    RemainderTimes(Pow(a, h + h), a, P);
  }

  // ---- powmodp ----

  ghost function PowmodpResult(a: nat, b: nat): nat
  {
    PowResult(if a > P then a % P else a, b)
  }

  method Powmodp(a0: nat, b: nat) returns (r: nat)
    requires a0 < WRAP && 1 <= b < WRAP
    ensures r == PowmodpResult(a0, b)
  {
    var a := a0;
    if a > P { a := a % P; }
    r := PowModP(a, b);
  }

  /** powmodp is the power modulo P, except for one argument: P itself, to the power one, is not
      reduced, because the source reduces only what is greater than P. */
  lemma PowmodpExact(a: nat, b: nat)
    requires a < WRAP && 1 <= b
    ensures PowmodpResult(a, b) == Pow(a, b) % P <==> !(a == P && b == 1)
    ensures a == P && b == 1 ==> PowmodpResult(a, b) == P && Pow(a, b) % P == 0
  {
    assert Pow(a, 0) == 1;
    if b == 1 {
      assert Pow(a, 1) == a;
      if a < P { ModUnique(a, P, 0, a); }
      if a == P { ModUnique(P, P, 1, 0); }
      if a > P { assert a % P < P; }
    } else if a > P {
      PowReduced(a, b, P);
    }
  }

  // ---- The key exchange ----

  const G: nat := 5

  /** The inverse of the generator modulo P. */
  const INVERSE: nat := 7378697629483820623

  lemma {:induction false} PowOfProduct(a: nat, c: nat, b: nat)
    ensures Pow(a * c, b) == Pow(a, b) * Pow(c, b)
    decreases b
  {
    if b > 0 {
      PowOfProduct(a, c, b - 1);
      var x, y := Pow(a, b - 1), Pow(c, b - 1);
      assert x * y * (a * c) == (x * a) * (y * c);
    }
  }

  lemma {:induction false} PowOfOne(b: nat)
    ensures Pow(1, b) == 1
    decreases b
  {
    if b > 0 { PowOfOne(b - 1); }
  }

  /** What one side publishes is never zero, so the other side does not refuse it. */
  lemma PublicNotZero(x: nat)
    requires x >= 1
    ensures 0 < PowmodpResult(G, x) < P
  {
    var p := Pow(G, x);
    PowmodpExact(G, x);
    InverseOfPower(x);
    RemainderTimes(p, Pow(INVERSE, x), P);
    ModUnique(0, P, 0, 0);
    ZeroProduct(p % P, Pow(INVERSE, x));
  }

  lemma ZeroProduct(x: nat, y: nat)
    ensures x == 0 ==> x * y == 0
  {
  }

  /** The power of the generator has an inverse. */
  lemma InverseOfPower(x: nat)
    ensures (Pow(G, x) * Pow(INVERSE, x)) % P == 1
  {
    PowOfProduct(G, INVERSE, x);
    assert G * INVERSE == P * 2 + 1;
    ModUnique(G * INVERSE, P, 2, 1);
    PowReduced(G * INVERSE, x, P);
    PowOfOne(x);
    ModUnique(1, P, 0, 1);
  }

  /** Both sides of the exchange compute the same secret. */
  lemma SameSecret(x: nat, y: nat)
    requires 1 <= x && 1 <= y
    ensures PowmodpResult(PowmodpResult(G, x), y) == PowmodpResult(PowmodpResult(G, y), x)
    ensures PowmodpResult(PowmodpResult(G, x), y) == Pow(G, x * y) % P
  {
    OneSide(x, y);
    OneSide(y, x);
    assert x * y == y * x;
  }

  lemma OneSide(x: nat, y: nat)
    requires 1 <= x && 1 <= y
    ensures PowmodpResult(PowmodpResult(G, x), y) == Pow(G, x * y) % P
  {
    PublicNotZero(x);
    PowmodpExact(G, x);
    PowmodpExact(PowmodpResult(G, x), y);
    PowReduced(Pow(G, x), y, P);
    PowTimes(G, x, y);
  }
}
