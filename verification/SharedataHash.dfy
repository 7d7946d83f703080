/** The hash part of skynet/lualib-src/lua-sharedata.c: a layout of nodes in chains, and what the two
    passes that fill it keep true. */
module SharedataHash {

  datatype Option<T> = None | Some(value: T)

  /** Keys of Lua tables; strings stand for their index in the string table. */
  datatype Key = IntKey(k: int) | StrKey(s: string) | TableKey(id: nat) | FloatKey(r: real) | OtherKey(n: nat)

  type Value = nat

  /** A pair of a table, in the order of lua_next.  A Lua table never holds nil. */
  datatype Pair = Pair(key: Key, value: Value)

  const WRAP: nat := 0x1_0000_0000

  /** An empty slot has no value (the source does not initialize its key, hash and link); `next` is negative at the
      end of a chain. */
  datatype Node = Node(key: Key, value: Option<Value>, next: int, keyhash: nat, nocolliding: bool)

  const EMPTY_NODE := Node(IntKey(0), None, -1, 0, false)

  /** calchash, which may be any function here. */
  type StringHash = string -> nat

  /** The 32-bit hash of a key. */
  function KeyHash(sh: StringHash, key: Key): (r: nat)
    ensures r < WRAP
  {
    match key
    case IntKey(k) => k % WRAP
    case StrKey(s) => sh(s) % WRAP
    case _ => 0
  }

  /** The main position of a key, in n slots. */
  function Main(sh: StringHash, key: Key, n: nat): (r: nat)
    requires n > 0
    ensures r < n
  {
    KeyHash(sh, key) % n
  }

  /** What the slots and chains are, for the pairs ps: slot s holds pair src[s], or nothing if that is
      negative; chain c[p] starts in slot p, its main position, and links the keys with that main
      position. */
  ghost predicate Layout(sh: StringHash, h: seq<Node>, c: seq<seq<nat>>, ps: seq<Pair>, src: seq<int>)
  {
    && |c| == |h| == |src|
    && (forall s :: 0 <= s < |h| ==> SlotOK(sh, h, c, ps, src, s))
    && (forall s, t :: 0 <= s < t < |src| && 0 <= src[s] ==> src[s] != src[t])
    && (forall p :: 0 <= p < |c| ==> ChainOK(sh, h, c[p], p))
  }

  ghost predicate SlotOK(sh: StringHash, h: seq<Node>, c: seq<seq<nat>>, ps: seq<Pair>, src: seq<int>, s: nat)
    requires s < |h| == |c| == |src|
  {
    var n := h[s];
    && (n.value.Some? <==> 0 <= src[s])
    && (n.value.None? ==> n == EMPTY_NODE)
    && (n.value.Some? ==>
          && src[s] < |ps| && n.key == ps[src[s]].key && n.value.value == ps[src[s]].value
          && n.keyhash == KeyHash(sh, n.key)
          && InChain(c[Main(sh, n.key, |h|)], s)
          && (n.nocolliding ==> |c[Main(sh, n.key, |h|)]| == 1))
  }

  ghost predicate InChain(chain: seq<nat>, s: nat) { exists i :: 0 <= i < |chain| && chain[i] == s }

  ghost predicate ChainOK(sh: StringHash, h: seq<Node>, chain: seq<nat>, p: nat)
  {
    && (chain != [] ==> chain[0] == p)
    && (forall i :: 0 <= i < |chain| ==> LinkOK(sh, h, chain, p, i))
  }

  ghost predicate LinkOK(sh: StringHash, h: seq<Node>, chain: seq<nat>, p: nat, i: nat)
    requires i < |chain|
  {
    && chain[i] < |h| && h[chain[i]].value.Some? && Main(sh, h[chain[i]].key, |h|) == p
    && h[chain[i]].next == if i + 1 < |chain| then chain[i + 1] else -1
  }

  lemma HeadTaken(sh: StringHash, h: seq<Node>, chain: seq<nat>, p: nat)
    requires ChainOK(sh, h, chain, p) && chain != []
    ensures p < |h| && h[p].value.Some?
  {
    assert LinkOK(sh, h, chain, p, 0);
  }

  function MainNode(sh: StringHash, p: Pair): Node { Node(p.key, Some(p.value), -1, KeyHash(sh, p.key), true) }

  /** The first pass: a key goes to its main position, if that is free. */
  lemma PlaceMain(sh: StringHash, h: seq<Node>, c: seq<seq<nat>>, ps: seq<Pair>, src: seq<int>, i: nat)
    requires Layout(sh, h, c, ps, src) && i < |ps| && i !in src && |h| > 0
    requires h[Main(sh, ps[i].key, |h|)].value.None?
    ensures var p := Main(sh, ps[i].key, |h|); Layout(sh, h[p := MainNode(sh, ps[i])], c[p := [p]], ps, src[p := i])
  {
    hide KeyHash, Main;
    var p := Main(sh, ps[i].key, |h|);
    var h', c', src' := h[p := MainNode(sh, ps[i])], c[p := [p]], src[p := i];
    assert ChainOK(sh, h, c[p], p);
    if c[p] != [] { HeadTaken(sh, h, c[p], p); }
    forall s | 0 <= s < |h'| ensures SlotOK(sh, h', c', ps, src', s) {
      assert SlotOK(sh, h, c, ps, src, s);
      if s == p { assert c'[p][0] == p; }
    }
    forall q | 0 <= q < |c'| ensures ChainOK(sh, h', c'[q], q) {
      assert ChainOK(sh, h, c[q], q);
      forall j | 0 <= j < |c'[q]| ensures LinkOK(sh, h', c'[q], q, j) {
        if q != p { assert LinkOK(sh, h, c[q], q, j); }
      }
    }
  }

  /** The second pass: a key whose main position is taken goes to a free slot, behind the head of its
      chain. */
  function Linked(sh: StringHash, h: seq<Node>, p: nat, n: nat, pair: Pair): seq<Node>
    requires p < |h| && n < |h| && p != n
  {
    h[n := Node(pair.key, Some(pair.value), h[p].next, KeyHash(sh, pair.key), false)][p := h[p].(next := n, nocolliding := false)]
  }

  lemma PlaceColliding(sh: StringHash, h: seq<Node>, c: seq<seq<nat>>, ps: seq<Pair>, src: seq<int>, i: nat, n: nat)
    requires Layout(sh, h, c, ps, src) && i < |ps| && i !in src && n < |h| && h[n].value.None?
    requires c[Main(sh, ps[i].key, |h|)] != []
    ensures var p := Main(sh, ps[i].key, |h|);
            && p != n && h[p].value.Some?
            && Layout(sh, Linked(sh, h, p, n, ps[i]), c[p := [p, n] + c[p][1..]], ps, src[n := i])
  {
    hide KeyHash, Main;
    var p := Main(sh, ps[i].key, |h|);
    assert ChainOK(sh, h, c[p], p) && LinkOK(sh, h, c[p], p, 0);
    var h', chain' := Linked(sh, h, p, n, ps[i]), [p, n] + c[p][1..];
    var c', src' := c[p := chain'], src[n := i];
    CollidingSlots(sh, h, c, ps, src, i, n);
    forall q | 0 <= q < |c'| ensures ChainOK(sh, h', c'[q], q) {
      assert ChainOK(sh, h, c[q], q);
      forall j | 0 <= j < |c'[q]| ensures LinkOK(sh, h', c'[q], q, j) {
        if q != p {
          assert LinkOK(sh, h, c[q], q, j);
        } else if j >= 2 {
          assert LinkOK(sh, h, c[p], p, j - 1);
          ChainDistinct(sh, h, c, ps, src, p, j - 1);
        } else if j == 1 && |c[p]| > 1 {
          assert c[p][1..][0] == c[p][1];
        }
      }
    }
  }

  lemma CollidingSlots(sh: StringHash, h: seq<Node>, c: seq<seq<nat>>, ps: seq<Pair>, src: seq<int>, i: nat, n: nat)
    requires Layout(sh, h, c, ps, src) && i < |ps| && n < |h| && h[n].value.None?
    requires var p := Main(sh, ps[i].key, |h|); c[p] != [] && c[p][0] == p && p != n && h[p].value.Some? && Main(sh, h[p].key, |h|) == p
    ensures var p := Main(sh, ps[i].key, |h|);
            var h', c', src' := Linked(sh, h, p, n, ps[i]), c[p := [p, n] + c[p][1..]], src[n := i];
            forall s :: 0 <= s < |h'| ==> SlotOK(sh, h', c', ps, src', s)
  {
    hide KeyHash, Main;
    var p := Main(sh, ps[i].key, |h|);
    var h', chain' := Linked(sh, h, p, n, ps[i]), [p, n] + c[p][1..];
    var c', src' := c[p := chain'], src[n := i];
    forall s | 0 <= s < |h'| ensures SlotOK(sh, h', c', ps, src', s) {
      assert SlotOK(sh, h, c, ps, src, s);
      if s == n {
        assert chain'[1] == n;
      } else if h[s].value.Some? {
        var q := Main(sh, h[s].key, |h|);
        if q == p {
          var j :| 0 <= j < |c[p]| && c[p][j] == s;
          assert chain'[if j == 0 then 0 else j + 1] == s;
          assert s != p ==> |c[p]| > 1;
        }
      }
    }
  }

  /** Behind its head, a chain does not come back to it. */
  lemma ChainDistinct(sh: StringHash, h: seq<Node>, c: seq<seq<nat>>, ps: seq<Pair>, src: seq<int>, p: nat, i: nat)
    requires Layout(sh, h, c, ps, src) && p < |c| && 0 < i < |c[p]|
    ensures c[p][i] != p
  {
    hide KeyHash, Main;
    assert ChainOK(sh, h, c[p], p);
    if c[p][i] == p { NoReturn(sh, h, c[p], p, i); }
  }

  /** Walking a chain twice from the same slot ends twice at the same place. */
  lemma {:induction false} NoReturn(sh: StringHash, h: seq<Node>, chain: seq<nat>, p: nat, i: nat)
    requires ChainOK(sh, h, chain, p) && 0 < i < |chain|
    ensures chain[i] != chain[0]
  {
    hide KeyHash, Main;
    if chain[i] == chain[0] {
      var k := |chain| - 1 - i;
      Walk(sh, h, chain, p, i, k);
      LastIsNew(sh, h, chain, p, k);
    }
  }

  lemma LastIsNew(sh: StringHash, h: seq<Node>, chain: seq<nat>, p: nat, k: nat)
    requires ChainOK(sh, h, chain, p) && k < |chain| - 1
    ensures chain[k] != chain[|chain| - 1]
  {
    assert LinkOK(sh, h, chain, p, k) && LinkOK(sh, h, chain, p, |chain| - 1);
  }

  lemma {:induction false} Walk(sh: StringHash, h: seq<Node>, chain: seq<nat>, p: nat, d: nat, k: nat)
    requires ChainOK(sh, h, chain, p) && 0 < d && d + k < |chain| && chain[d] == chain[0]
    ensures chain[d + k] == chain[k]
    decreases k
  {
    hide KeyHash, Main;
    if k > 0 {
      Walk(sh, h, chain, p, d, k - 1);
      assert LinkOK(sh, h, chain, p, k - 1) && LinkOK(sh, h, chain, p, d + k - 1);
    }
  }

  /** Every occupied slot leads, link by link, to the end of its chain: lookups end. */
  lemma WhereInChain(sh: StringHash, h: seq<Node>, c: seq<seq<nat>>, ps: seq<Pair>, src: seq<int>, s: nat) returns (p: nat, i: nat)
    requires Layout(sh, h, c, ps, src) && s < |h| && h[s].value.Some?
    ensures p == Main(sh, h[s].key, |h|) && p < |c| && i < |c[p]| && c[p][i] == s
    ensures ChainOK(sh, h, c[p], p)
  {
    hide KeyHash, Main;
    p := Main(sh, h[s].key, |h|);
    assert SlotOK(sh, h, c, ps, src, s);
    i :| 0 <= i < |c[p]| && c[p][i] == s;
  }

  // ---- Lookups ----

  /** The first slot of a chain, from position i on, that holds a key; -1 if there is none. */
  ghost function FindFrom(h: seq<Node>, chain: seq<nat>, key: Key, i: nat): (slot: int)
    requires i <= |chain| && forall j :: 0 <= j < |chain| ==> chain[j] < |h|
    ensures slot >= 0 ==> slot < |h| && h[slot].key == key && slot in chain
    ensures slot < 0 ==> slot == -1 && forall j :: i <= j < |chain| ==> h[chain[j]].key != key
    decreases |chain| - i
  {
    if i == |chain| then -1 else if h[chain[i]].key == key then chain[i] else FindFrom(h, chain, key, i + 1)
  }

  lemma ChainInside(sh: StringHash, h: seq<Node>, c: seq<seq<nat>>, ps: seq<Pair>, src: seq<int>, p: nat)
    requires Layout(sh, h, c, ps, src) && p < |c|
    ensures forall j :: 0 <= j < |c[p]| ==> c[p][j] < |h|
  {
    hide KeyHash, Main;
    assert ChainOK(sh, h, c[p], p);
    forall j | 0 <= j < |c[p]| ensures c[p][j] < |h| { assert LinkOK(sh, h, c[p], p, j); }
  }

  /** Where a key is: in the chain of its main position. */
  ghost function SlotFor(sh: StringHash, h: seq<Node>, c: seq<seq<nat>>, ps: seq<Pair>, src: seq<int>, key: Key): (slot: int)
    requires Layout(sh, h, c, ps, src)
    ensures slot >= 0 ==> slot < |h| && h[slot].key == key
    ensures slot < 0 ==> slot == -1
  {
    if h == [] then -1
    else
      ChainInside(sh, h, c, ps, src, Main(sh, key, |h|));
      FindFrom(h, c[Main(sh, key, |h|)], key, 0)
  }

  /** A key that is in some slot is found. */
  lemma HeldIsFound(sh: StringHash, h: seq<Node>, c: seq<seq<nat>>, ps: seq<Pair>, src: seq<int>, s: nat)
    requires Layout(sh, h, c, ps, src) && s < |h| && h[s].value.Some?
    ensures SlotFor(sh, h, c, ps, src, h[s].key) >= 0
  {
    hide KeyHash, Main;
    var p, i := WhereInChain(sh, h, c, ps, src, s);
    ChainInside(sh, h, c, ps, src, p);
  }

  /** What is found has a value, that of a pair with the same key. */
  lemma FoundIsHeld(sh: StringHash, h: seq<Node>, c: seq<seq<nat>>, ps: seq<Pair>, src: seq<int>, key: Key)
    requires Layout(sh, h, c, ps, src)
    ensures var s := SlotFor(sh, h, c, ps, src, key);
            s >= 0 ==> 0 <= src[s] < |ps| && ps[src[s]].key == key && h[s].value == Some(ps[src[s]].value)
  {
    hide KeyHash, Main;
    var s := SlotFor(sh, h, c, ps, src, key);
    if s >= 0 {
      var p := Main(sh, key, |h|);
      assert ChainOK(sh, h, c[p], p);
      var j :| 0 <= j < |c[p]| && c[p][j] == s;
      assert LinkOK(sh, h, c[p], p, j) && SlotOK(sh, h, c, ps, src, s);
    }
  }

  /** Following the links from the main position of a key finds it, also when that slot belongs to another
      chain, where the key is not. */
  lemma FromMain(sh: StringHash, h: seq<Node>, c: seq<seq<nat>>, ps: seq<Pair>, src: seq<int>, key: Key) returns (p: nat, i: nat)
    requires Layout(sh, h, c, ps, src) && |h| > 0 && h[Main(sh, key, |h|)].value.Some?
    ensures p < |c| && i < |c[p]| && c[p][i] == Main(sh, key, |h|) && ChainOK(sh, h, c[p], p)
    ensures forall j :: 0 <= j < |c[p]| ==> c[p][j] < |h|
    ensures FindFrom(h, c[p], key, i) == SlotFor(sh, h, c, ps, src, key)
  {
    hide KeyHash, Main;
    var q := Main(sh, key, |h|);
    p, i := WhereInChain(sh, h, c, ps, src, q);
    ChainInside(sh, h, c, ps, src, p);
    ChainInside(sh, h, c, ps, src, q);
    assert ChainOK(sh, h, c[q], q);
    assert c[q] != [] ==> LinkOK(sh, h, c[q], q, 0);
    if p == q {
      if i > 0 { ChainDistinct(sh, h, c, ps, src, p, i); }
    } else {
      forall j | 0 <= j < |c[p]| ensures h[c[p][j]].key != key { assert LinkOK(sh, h, c[p], p, j); }
    }
  }

  /** A slot marked as not colliding is all that its chain holds. */
  lemma AloneInChain(sh: StringHash, h: seq<Node>, c: seq<seq<nat>>, ps: seq<Pair>, src: seq<int>, key: Key)
    requires Layout(sh, h, c, ps, src) && |h| > 0 && h[Main(sh, key, |h|)].value.Some?
    requires var n := h[Main(sh, key, |h|)]; n.nocolliding && n.keyhash != KeyHash(sh, key)
    ensures SlotFor(sh, h, c, ps, src, key) == -1
  {
    hide Main;
    var n := Main(sh, key, |h|);
    assert SlotOK(sh, h, c, ps, src, n);
    var p, i := FromMain(sh, h, c, ps, src, key);
    assert LinkOK(sh, h, c[p], p, i);
  }

  /** The cast of an integer key to 32 bits. */
  function Truncated(k: int): int
  {
    if k % WRAP < WRAP / 2 then k % WRAP else k % WRAP - WRAP
  }

  /** What ishashkey makes of a key: an integer is cast, and a table is no string for lua_tolstring, which
      yields an empty one. */
  function Narrowed(key: Key): Key
  {
    if key.IntKey? then IntKey(Truncated(key.k)) else if key.TableKey? then StrKey("") else key
  }

  /** Keys that become the same: integers that differ by a multiple of 2^32, and tables and the empty string. */
  predicate Merge(a: Key, b: Key)
  {
    a == b || (a.IntKey? && b.IntKey? && (a.k - b.k) % WRAP == 0) || (BecomesEmpty(a) && BecomesEmpty(b))
  }

  predicate BecomesEmpty(key: Key) { key.TableKey? || key == StrKey("") }

  /** Keys that stay what they are: all but tables, and integers of more than 32 bits. */
  predicate Fits(key: Key) { !key.TableKey? && (key.IntKey? ==> -(WRAP / 2) <= key.k < WRAP / 2) }

  lemma NarrowedMerges(a: Key, b: Key)
    ensures Narrowed(a) == Narrowed(b) <==> Merge(a, b)
  {
    if a.IntKey? && b.IntKey? { TruncatedMerges(a.k, b.k); }
  }

  lemma TruncatedMerges(j: int, k: int)
    ensures Truncated(j) == Truncated(k) <==> (j - k) % WRAP == 0
  {
  }

  lemma NarrowedFits(key: Key)
    ensures Narrowed(key) == key <==> Fits(key)
    ensures Fits(Narrowed(key))
  {
  }
}
