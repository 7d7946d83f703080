/** Arithmetic of the slots of skynet/skynet-src/skynet_handle.c.  The number of slots is a power of two,
    so that masking a handle is taking a remainder. */
module HandleMath {
  import opened Remainders

  const HANDLE_MASK: nat := 0xff_ffff
  const HANDLES: nat := 0x100_0000

  /** The slot of a handle, in a table of n slots. */
  function SlotOf(h: nat, n: nat): (r: nat)
    requires n > 0
    ensures r < n
  {
    h % n
  }

  /** A number of slots: a power of two, at least 4 and at most 2^24. */
  ghost predicate Slots(n: nat)
  {
    4 <= n <= HANDLES && exists k: nat :: k <= 24 && n == Power2(k)
  }

  lemma {:induction false} PowerAdd(a: nat, b: nat)
    ensures Power2(a + b) == Power2(a) * Power2(b)
    decreases a
  {
    if a > 0 {
      PowerAdd(a - 1, b);
      calc {
        Power2(a + b);
        2 * Power2(a - 1 + b);
        2 * (Power2(a - 1) * Power2(b));
        Power2(a) * Power2(b);
      }
    }
  }

  lemma Power24()
    ensures Power2(24) == HANDLES
  {
    assert Power2(12) == 4096;
    PowerAdd(12, 12);
  }

  /** The number of slots divides 2^24. */
  lemma SlotsDivide(n: nat) returns (q: nat)
    requires Slots(n)
    ensures HANDLES == n * q && q > 0
  {
    var k: nat :| k <= 24 && n == Power2(k);
    PowerAdd(k, 24 - k);
    Power24();
    q := Power2(24 - k);
  }

  lemma {:induction false} PowerGrows(a: nat, b: nat)
    requires a < b
    ensures Power2(a) < Power2(b)
    decreases b
  {
    if a < b - 1 { PowerGrows(a, b - 1); }
  }

  /** Doubling the slots, when there are fewer than 2^24, gives a number of slots, and keeps the source's
      assertion. */
  lemma SlotsDouble(n: nat)
    requires Slots(n) && n < HANDLES
    ensures Slots(2 * n) && 2 * n - 1 <= HANDLE_MASK
  {
    var k: nat :| k <= 24 && n == Power2(k);
    Power24();
    if k == 24 { assert false; }
    assert Power2(k + 1) == 2 * n;
    if k + 1 < 24 { PowerGrows(k + 1, 24); }
  }

  /** Going half way round the slots. */
  lemma ModHalf(x: nat, s: nat)
    requires s > 0
    ensures (x + s) % (2 * s) == if x % (2 * s) < s then x % (2 * s) + s else x % (2 * s) - s
  {
    var q, r := x / (2 * s), x % (2 * s);
    assert x == 2 * s * q + r;
    if r < s {
      ModUnique(x + s, 2 * s, q, r + s);
    } else {
      assert 2 * s * (q + 1) == 2 * s * q + 2 * s;
      ModUnique(x + s, 2 * s, q + 1, r - s);
    }
  }

  lemma Twice(s: nat, m: nat, q: nat)
    requires m == 2 * s
    ensures s * (2 * q) == m * q && s * (2 * q + 1) == m * q + s
  {
  }

  lemma HalfSlot(x: nat, s: nat, m: nat, q: nat, r: nat)
    requires s > 0 && m == 2 * s && x == m * q + r && r < m
    ensures SlotOf(x, s) == if r < s then r else r - s
  {
    var p := 2 * q;
    Twice(s, m, q);
    if r < s {
      ModUnique(x, s, p, r);
    } else {
      ModUnique(x, s, p + 1, r - s);
    }
  }

  lemma Divide(x: nat, m: nat) returns (q: nat, r: nat)
    requires m > 0
    ensures x == m * q + r && r < m && r == SlotOf(x, m)
  {
    q, r := x / m, x % m;
    DivMod(x, m);
  }

  /** After doubling, an entry stays or moves by the old number of slots. */
  lemma SlotDouble(x: nat, s: nat)
    requires s > 0
    ensures SlotOf(x, 2 * s) == SlotOf(x, s) || SlotOf(x, 2 * s) == SlotOf(x, s) + s
  {
    hide SlotOf;
    var m := 2 * s;
    var q, r := Divide(x, m);
    HalfSlot(x, s, m, q, r);
  }

  lemma ModSmall(x: nat, m: nat)
    requires x < m
    ensures x % m == x
  {
    ModUnique(x, m, 0, x);
  }

  lemma Distribute(n: nat, a: nat, q: nat, h: nat)
    requires n * q == HANDLES
    ensures n * (a + q * h) == n * a + h * HANDLES
  {
    assert n * (q * h) == (n * q) * h;
    assert n * (a + q * h) == n * a + n * (q * h);
  }

  /** The harbor bits do not matter for the slot. */
  lemma HarborSlot(local: nat, harbor: nat, n: nat)
    requires Slots(n)
    ensures SlotOf(local + harbor * HANDLES, n) == SlotOf(local, n)
  {
    hide Slots;
    var q := SlotsDivide(n);
    var a, r := local / n, local % n;
    DivMod(local, n);
    Distribute(n, a, q, harbor);
    var b := a + q * harbor;
    ModUnique(local + harbor * HANDLES, n, b, r);
  }

  /** The handle tried in round i, when the search starts at `first`: zero is skipped. */
  function Probe(first: nat, i: nat): nat
  {
    if first + i <= HANDLE_MASK then first + i
    else if first + i <= 2 * HANDLE_MASK then first + i - HANDLE_MASK
    else 1
  }

  /** How the search goes from one handle to the next. */
  lemma ProbeNext(first: nat, i: nat)
    requires 1 <= first <= HANDLES && i < HANDLES
    ensures var h := if i == 0 then first else Probe(first, i - 1) + 1;
            Probe(first, i) == if h > HANDLE_MASK then 1 else h
    ensures 1 <= Probe(first, i) <= HANDLE_MASK
  {
  }

  /** A full round over twice s slots tries two handles whose slots are s apart. */
  lemma ProbesOpposite(first: nat, s: nat) returns (i: nat, j: nat)
    requires Slots(2 * s) && 2 <= s && 1 <= first <= HANDLES
    ensures i < 2 * s && j < 2 * s && SlotOf(Probe(first, i), 2 * s) + s == SlotOf(Probe(first, j), 2 * s)
  {
    var a, b := 0, s;
    if first + s > HANDLE_MASK {
      var w := HANDLE_MASK + 1 - first;
      if w < s {
        a, b := w, w + s;
      } else {
        a, b := s, 1;
        WrapOpposite(s);
      }
    }
    var x, y := Probe(first, a), Probe(first, b);
    if y == x + s { ModHalf(x, s); }
    if x % (2 * s) < s { i, j := a, b; } else { i, j := b, a; }
  }

  lemma WrapOpposite(s: nat)
    requires Slots(2 * s) && 2 <= s
    ensures 1 % (2 * s) == 1 && (HANDLES - s + 1) % (2 * s) == s + 1
  {
    var q := SlotsDivide(2 * s);
    ModSmall(1, 2 * s);
    assert HANDLES - s + 1 == 2 * s * (q - 1) + (s + 1);
    ModUnique(HANDLES - s + 1, 2 * s, q - 1, s + 1);
  }

  /** Slot k is tried in a round over n slots. */
  ghost predicate Tried(first: nat, n: nat, k: nat)
    requires n > 0
  {
    exists i :: 0 <= i < n && SlotOf(Probe(first, i), n) == k
  }

  /** A round that passes the last handle in its middle, or a table of full size: zero is reserved, so the
      round leaves out slot zero. */
  predicate LeavesOutZero(first: nat, n: nat) { n == HANDLES || first <= HANDLE_MASK < first + n - 1 }

  /** Slot zero is tried exactly when the round does not leave it out. */
  lemma ZeroTried(first: nat, n: nat)
    requires Slots(n) && 1 <= first <= HANDLES
    ensures Tried(first, n, 0) <==> !LeavesOutZero(first, n)
  {
    if n == HANDLES {
      forall i | 0 <= i < n ensures SlotOf(Probe(first, i), n) != 0 {
        ProbeNext(first, i);
        ModSmall(Probe(first, i), n);
      }
    } else if LeavesOutZero(first, n) {
      forall i | 0 <= i < n ensures SlotOf(Probe(first, i), n) != 0 { WrappedNotZero(first, n, i); }
    } else {
      StraightTries(first, n, 0);
    }
  }

  lemma StraightTries(first: nat, n: nat, k: nat)
    requires Slots(n) && 1 <= first <= HANDLES && !LeavesOutZero(first, n) && k < n
    ensures Tried(first, n, k)
  {
    var start := if first > HANDLE_MASK then 1 else first;
    var i := Offset(start, n, k);
    assert Probe(first, i) == start + i;
  }

  /** Every other slot is tried in every round. */
  lemma OthersTried(first: nat, n: nat, k: nat)
    requires Slots(n) && 1 <= first <= HANDLES && 0 < k < n
    ensures Tried(first, n, k)
  {
    if n == HANDLES {
      var i := if k >= first then k - first else k + HANDLE_MASK - first;
      assert Probe(first, i) == k;
      ModSmall(k, n);
    } else if LeavesOutZero(first, n) {
      var w := HANDLES - first;
      if k >= n - w {
        var i := k - (n - w);
        var q := SlotsDivide(n);
        assert Probe(first, i) == n * (q - 1) + k;
        ModUnique(Probe(first, i), n, q - 1, k);
      } else {
        var i := k + w - 1;
        assert Probe(first, i) == k;
        ModSmall(k, n);
      }
    } else {
      StraightTries(first, n, k);
    }
  }

  /** A round tries every slot, but for slot zero in the rounds that leave it out. */
  lemma RoundTriesAll(first: nat, n: nat)
    requires Slots(n) && 1 <= first <= HANDLES
    ensures (forall k :: 0 <= k < n ==> Tried(first, n, k)) <==> !LeavesOutZero(first, n)
  {
    ZeroTried(first, n);
    forall k | 0 < k < n ensures Tried(first, n, k) { OthersTried(first, n, k); }
  }

  lemma WrappedNotZero(first: nat, n: nat, i: nat)
    requires Slots(n) && first <= HANDLE_MASK < first + n - 1 && 1 <= first && i < n
    ensures SlotOf(Probe(first, i), n) != 0
  {
    if first + i <= HANDLE_MASK {
      var q := SlotsDivide(n);
      var d := HANDLES - (first + i);
      assert first + i == n * (q - 1) + (n - d);
      ModUnique(first + i, n, q - 1, n - d);
    } else {
      ModSmall(first + i - HANDLE_MASK, n);
    }
  }

  /** How far slot k is ahead of a handle. */
  lemma Offset(start: nat, n: nat, k: nat) returns (i: nat)
    requires n > 0 && k < n
    ensures i < n && SlotOf(start + i, n) == k
  {
    var q, r := start / n, start % n;
    DivMod(start, n);
    if r <= k {
      i := k - r;
      ModUnique(start + i, n, q, k);
    } else {
      i := n + k - r;
      assert n * (q + 1) == n * q + n;
      ModUnique(start + i, n, q + 1, k);
    }
  }
}
