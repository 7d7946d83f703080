/** The two passes of skynet/lualib-src/lua-sharedata.c that fill a table, and which pairs get a slot. */
module SharedataFill {
  import opened SharedataHash

  /** One more than the largest int. */
  const INT_LIMIT: nat := 0x8000_0000

  ghost predicate Distinct(ps: seq<Pair>)
  {
    forall i, j :: 0 <= i < j < |ps| ==> ps[i].key != ps[j].key
  }

  /** The keys that countsize does not reject. */
  predicate Accepted(key: Key) { key.IntKey? || key.StrKey? || key.TableKey? }

  ghost predicate AllAccepted(ps: seq<Pair>) { forall i :: 0 <= i < |ps| ==> Accepted(ps[i].key) }

  /** The pairs as both passes see them. */
  ghost function Cast(ps: seq<Pair>): (ns: seq<Pair>)
    ensures |ns| == |ps| && forall i :: 0 <= i < |ps| ==> ns[i] == Pair(Narrowed(ps[i].key), ps[i].value)
  {
    seq(|ps|, i requires 0 <= i < |ps| => Pair(Narrowed(ps[i].key), ps[i].value))
  }

  predicate InArray(key: Key, sizearray: nat) { key.IntKey? && 0 < key.k <= sizearray }

  /** The pairs for which countsize provides a slot; it looks at the key before the cast. */
  ghost function Counted(ps: seq<Pair>, sizearray: nat): set<nat>
  {
    set i: nat | i < |ps| && !InArray(ps[i].key, sizearray)
  }

  /** A key of the array part fits 32 bits: whatever is outside after the cast was outside before. */
  lemma CountedAt(ps: seq<Pair>, sizearray: nat, i: nat)
    requires i < |ps| && sizearray < INT_LIMIT && !InArray(Narrowed(ps[i].key), sizearray)
    ensures i in Counted(ps, sizearray) && |Counted(ps, sizearray)| > 0
  {
    assert i in Counted(ps, sizearray);
  }

  /** countsize: an error if there is a key that is neither an integer, a string nor a table. */
  method CountSize(ps: seq<Pair>, sizearray: nat) returns (ok: bool, n: nat)
    ensures ok <==> AllAccepted(ps)
    ensures ok ==> n == |Counted(ps, sizearray)|
  {
    ok, n := true, 0;
    var i := 0;
    assert Counted(ps[..0], sizearray) == {};
    while i < |ps|
      invariant i <= |ps| && n == |Counted(ps[..i], sizearray)| && AllAccepted(ps[..i])
    {
      if !Accepted(ps[i].key) { return false, 0; }
      assert Counted(ps[..i + 1], sizearray) == Counted(ps[..i], sizearray) + (if InArray(ps[i].key, sizearray) then {} else {i});
      n := n + 1;
      if InArray(ps[i].key, sizearray) { n := n - 1; }
      i := i + 1;
    }
    assert ps[..i] == ps;
  }

  // ---- The array part ----

  /** What a table means, if a later pair replaces an earlier one. */
  ghost function Meaning(ps: seq<Pair>): map<Key, Value>
  {
    if ps == [] then map[] else Meaning(ps[..|ps| - 1])[ps[|ps| - 1].key := ps[|ps| - 1].value]
  }

  lemma {:induction false} MeaningHas(ps: seq<Pair>, i: nat)
    requires i < |ps|
    ensures ps[i].key in Meaning(ps)
    decreases |ps|
  {
    if i < |ps| - 1 { MeaningHas(ps[..|ps| - 1], i); }
  }

  lemma {:induction false} MeaningKey(ps: seq<Pair>, k: Key) returns (i: nat)
    requires k in Meaning(ps)
    ensures i < |ps| && ps[i].key == k && ps[i].value == Meaning(ps)[k]
    decreases |ps|
  {
    if ps[|ps| - 1].key == k { i := |ps| - 1; } else { i := MeaningKey(ps[..|ps| - 1], k); }
  }

  ghost predicate ArrayOK(arr: seq<Option<Value>>, ps: seq<Pair>)
  {
    forall i :: 0 <= i < |arr| ==> arr[i] == if IntKey(i + 1) in Meaning(ps) then Some(Meaning(ps)[IntKey(i + 1)]) else None
  }

  lemma NoArray(arr: seq<Option<Value>>)
    requires forall i :: 0 <= i < |arr| ==> arr[i].None?
    ensures ArrayOK(arr, [])
  {
  }

  /** setarray, for a key of the array part. */
  lemma ArrayStep(arr: seq<Option<Value>>, ps: seq<Pair>, i: nat)
    requires i < |ps| && ArrayOK(arr, ps[..i])
    ensures var key := ps[i].key;
            ArrayOK(if InArray(key, |arr|) then arr[key.k - 1 := Some(ps[i].value)] else arr, ps[..i + 1])
  {
    assert ps[..i + 1][..i] == ps[..i];
  }

  /** lua_rawgeti. */
  function RawGet(ps: seq<Pair>, key: Key): Option<Value>
  {
    if ps == [] then None else if ps[|ps| - 1].key == key then Some(ps[|ps| - 1].value) else RawGet(ps[..|ps| - 1], key)
  }

  /** When no pair needs a slot, reading the array part key by key gives what the passes would give. */
  lemma {:induction false} RawGetMeans(ps: seq<Pair>, key: Key)
    requires key.IntKey? && 0 < key.k < INT_LIMIT
    requires forall i :: 0 <= i < |ps| ==> ps[i].key.IntKey? && 0 < ps[i].key.k < INT_LIMIT
    ensures RawGet(ps, key) == if key in Meaning(Cast(ps)) then Some(Meaning(Cast(ps))[key]) else None
    decreases |ps|
  {
    if ps != [] {
      RawGetMeans(ps[..|ps| - 1], key);
      assert Cast(ps)[..|ps| - 1] == Cast(ps[..|ps| - 1]);
    }
  }

  // ---- The passes ----

  /** Pair i is the first with its main position. */
  ghost predicate IsFirst(sh: StringHash, ns: seq<Pair>, sizearray: nat, n: nat, i: int)
  {
    && 0 <= i < |ns| && n > 0 && !InArray(ns[i].key, sizearray)
    && forall j :: 0 <= j < i && !InArray(ns[j].key, sizearray) ==> Main(sh, ns[j].key, n) != Main(sh, ns[i].key, n)
  }

  /** Pair i gets a slot: its key is not that of a pair before it that took their main position. */
  ghost predicate Placed(sh: StringHash, ns: seq<Pair>, sizearray: nat, n: nat, i: int)
  {
    && 0 <= i < |ns| && !InArray(ns[i].key, sizearray)
    && forall j :: 0 <= j < i && IsFirst(sh, ns, sizearray, n, j) ==> ns[j].key != ns[i].key
  }

  lemma OneFirst(sh: StringHash, ns: seq<Pair>, sizearray: nat, n: nat, i: int, j: int)
    requires IsFirst(sh, ns, sizearray, n, i) && IsFirst(sh, ns, sizearray, n, j)
    requires Main(sh, ns[i].key, n) == Main(sh, ns[j].key, n)
    ensures i == j
  {
  }

  lemma FirstIsPlaced(sh: StringHash, ns: seq<Pair>, sizearray: nat, n: nat, i: int)
    requires IsFirst(sh, ns, sizearray, n, i)
    ensures Placed(sh, ns, sizearray, n, i)
  {
    hide KeyHash;
  }

  /** Pass one has processed the first i pairs: the first pair of each main position has it. */
  ghost predicate FirstPass(sh: StringHash, ns: seq<Pair>, sizearray: nat, h: seq<Node>, c: seq<seq<nat>>, src: seq<int>, i: nat)
  {
    && i <= |ns|
    && Layout(sh, h, c, ns, src)
    && (forall s :: 0 <= s < |h| && 0 <= src[s] ==>
          src[s] < i && c[s] != [] && IsFirst(sh, ns, sizearray, |h|, src[s]) && Main(sh, h[s].key, |h|) == s)
    && (forall j :: 0 <= j < i && !InArray(ns[j].key, sizearray) ==> |h| > 0 && 0 <= src[Main(sh, ns[j].key, |h|)] <= j)
  }

  /** Pass two has processed the first i pairs. */
  ghost predicate SecondPass(sh: StringHash, ns: seq<Pair>, sizearray: nat, h: seq<Node>, c: seq<seq<nat>>, src: seq<int>, i: nat)
  {
    && i <= |ns|
    && Layout(sh, h, c, ns, src)
    && (forall j :: 0 <= j < |ns| && !InArray(ns[j].key, sizearray) ==> MainOK(sh, ns, sizearray, h, c, src, j))
    && (forall s :: 0 <= s < |h| && 0 <= src[s] ==>
          Placed(sh, ns, sizearray, |h|, src[s]) && (src[s] < i || IsFirst(sh, ns, sizearray, |h|, src[s])))
    && (forall j :: 0 <= j < i && Placed(sh, ns, sizearray, |h|, j) ==> j in src)
  }

  /** The main position of pair j is taken, by the first pair that has it. */
  ghost predicate MainOK(sh: StringHash, ns: seq<Pair>, sizearray: nat, h: seq<Node>, c: seq<seq<nat>>, src: seq<int>, j: nat)
    requires j < |ns|
  {
    && |h| > 0 && |c| == |h| == |src|
    && var p := Main(sh, ns[j].key, |h|);
       c[p] != [] && 0 <= src[p] <= j && IsFirst(sh, ns, sizearray, |h|, src[p]) && h[p].key == ns[src[p]].key
       && Main(sh, h[p].key, |h|) == p && h[p].value.Some?
  }

  lemma FirstStarts(sh: StringHash, ns: seq<Pair>, sizearray: nat, h: seq<Node>, c: seq<seq<nat>>, src: seq<int>)
    requires |h| == |c| == |src|
    requires (forall s :: 0 <= s < |h| ==> h[s] == EMPTY_NODE && src[s] == -1) && (forall s :: 0 <= s < |c| ==> c[s] == [])
    ensures FirstPass(sh, ns, sizearray, h, c, src, 0)
  {
    hide KeyHash, Main;
  }

  /** One round of fillnocolliding, for a hash key. */
  lemma FirstStep(sh: StringHash, ns: seq<Pair>, sizearray: nat, h: seq<Node>, c: seq<seq<nat>>, src: seq<int>, i: nat)
    requires FirstPass(sh, ns, sizearray, h, c, src, i) && i < |ns| && !InArray(ns[i].key, sizearray) && |h| > 0
    ensures var p := Main(sh, ns[i].key, |h|);
            if h[p].value.Some? then FirstPass(sh, ns, sizearray, h, c, src, i + 1)
            else FirstPass(sh, ns, sizearray, h[p := MainNode(sh, ns[i])], c[p := [p]], src[p := i], i + 1)
  {
    hide KeyHash, Main;
    var p := Main(sh, ns[i].key, |h|);
    assert SlotOK(sh, h, c, ns, src, p);
    if h[p].value.None? {
      hide Layout, SlotOK;
      PlaceMain(sh, h, c, ns, src, i);
      assert IsFirst(sh, ns, sizearray, |h|, i);
    }
  }

  /** fillnocolliding gives no slot to the keys of the array part. */
  lemma FirstSkip(sh: StringHash, ns: seq<Pair>, sizearray: nat, h: seq<Node>, c: seq<seq<nat>>, src: seq<int>, i: nat)
    requires FirstPass(sh, ns, sizearray, h, c, src, i) && i < |ns| && InArray(ns[i].key, sizearray)
    ensures FirstPass(sh, ns, sizearray, h, c, src, i + 1)
  {
    hide KeyHash, Main, Layout;
  }

  /** The first pass ends with every main position taken. */
  lemma FirstDone(sh: StringHash, ns: seq<Pair>, sizearray: nat, h: seq<Node>, c: seq<seq<nat>>, src: seq<int>)
    requires FirstPass(sh, ns, sizearray, h, c, src, |ns|)
    ensures SecondPass(sh, ns, sizearray, h, c, src, 0)
  {
    hide KeyHash, Main, IsFirst, Placed;
    forall s | 0 <= s < |h| && 0 <= src[s] ensures Placed(sh, ns, sizearray, |h|, src[s]) {
      FirstIsPlaced(sh, ns, sizearray, |h|, src[s]);
    }
    forall j | 0 <= j < |ns| && !InArray(ns[j].key, sizearray) ensures MainOK(sh, ns, sizearray, h, c, src, j) {
      assert SlotOK(sh, h, c, ns, src, Main(sh, ns[j].key, |h|));
    }
  }

  lemma SecondSizes(sh: StringHash, ns: seq<Pair>, sizearray: nat, h: seq<Node>, c: seq<seq<nat>>, src: seq<int>, i: nat)
    requires SecondPass(sh, ns, sizearray, h, c, src, i)
    ensures |c| == |h| == |src|
  {
  }

  lemma MainTaken(sh: StringHash, ns: seq<Pair>, sizearray: nat, h: seq<Node>, c: seq<seq<nat>>, src: seq<int>, i: nat, j: nat)
    requires SecondPass(sh, ns, sizearray, h, c, src, i) && j < |ns| && !InArray(ns[j].key, sizearray)
    ensures |h| > 0 && MainOK(sh, ns, sizearray, h, c, src, j) && h[Main(sh, ns[j].key, |h|)].value.Some?
  {
    hide KeyHash, Main, Layout;
  }

  /** A pair whose key is not at its main position gets a slot, and has none yet. */
  lemma NotYet(sh: StringHash, ns: seq<Pair>, sizearray: nat, h: seq<Node>, c: seq<seq<nat>>, src: seq<int>, i: nat)
    requires SecondPass(sh, ns, sizearray, h, c, src, i) && i < |ns| && !InArray(ns[i].key, sizearray)
    requires |h| > 0 && h[Main(sh, ns[i].key, |h|)].key != ns[i].key
    ensures Placed(sh, ns, sizearray, |h|, i) && i !in src
  {
    hide KeyHash, Main, Layout, IsFirst;
    var p := Main(sh, ns[i].key, |h|);
    assert MainOK(sh, ns, sizearray, h, c, src, i);
    forall j | 0 <= j < i && IsFirst(sh, ns, sizearray, |h|, j) ensures ns[j].key != ns[i].key {
      if ns[j].key == ns[i].key { OneFirst(sh, ns, sizearray, |h|, j, src[p]); }
    }
    if i in src {
      OneFirst(sh, ns, sizearray, |h|, i, src[p]);
    }
  }

  /** One round of fillcolliding, for a key that is at its main position or in the array part. */
  lemma SecondSkip(sh: StringHash, ns: seq<Pair>, sizearray: nat, h: seq<Node>, c: seq<seq<nat>>, src: seq<int>, i: nat)
    requires SecondPass(sh, ns, sizearray, h, c, src, i) && i < |ns|
    requires !InArray(ns[i].key, sizearray) ==> |h| > 0 && h[Main(sh, ns[i].key, |h|)].key == ns[i].key
    ensures SecondPass(sh, ns, sizearray, h, c, src, i + 1)
  {
    hide KeyHash, Main, Layout, IsFirst;
    if Placed(sh, ns, sizearray, |h|, i) {
      SecondSizes(sh, ns, sizearray, h, c, src, i);
      assert MainOK(sh, ns, sizearray, h, c, src, i);
      assert src[Main(sh, ns[i].key, |h|)] == i;
    }
  }

  /** One round of fillcolliding, for a key that is not at its main position. */
  lemma SecondStep(sh: StringHash, ns: seq<Pair>, sizearray: nat, h: seq<Node>, c: seq<seq<nat>>, src: seq<int>, i: nat, n: nat)
    requires SecondPass(sh, ns, sizearray, h, c, src, i) && i < |ns| && !InArray(ns[i].key, sizearray)
    requires |h| > 0 && h[Main(sh, ns[i].key, |h|)].key != ns[i].key && n < |h| && h[n].value.None?
    ensures var p := Main(sh, ns[i].key, |h|);
            && p != n && n < |src|
            && SecondPass(sh, ns, sizearray, Linked(sh, h, p, n, ns[i]), c[p := [p, n] + c[p][1..]], src[n := i], i + 1)
  {
    hide KeyHash, Main, Layout, IsFirst, Placed;
    var p := Main(sh, ns[i].key, |h|);
    SecondSizes(sh, ns, sizearray, h, c, src, i);
    assert MainOK(sh, ns, sizearray, h, c, src, i);
    NotYet(sh, ns, sizearray, h, c, src, i);
    PlaceColliding(sh, h, c, ns, src, i, n);
    var h', c', src' := Linked(sh, h, p, n, ns[i]), c[p := [p, n] + c[p][1..]], src[n := i];
    EmptySource(sh, h, c, ns, src, n);
    forall j | 0 <= j < |ns| && !InArray(ns[j].key, sizearray) ensures MainOK(sh, ns, sizearray, h', c', src', j) {
      assert MainOK(sh, ns, sizearray, h, c, src, j);
    }
    forall j | 0 <= j < i + 1 && Placed(sh, ns, sizearray, |h'|, j) ensures j in src' {
      if j == i {
        assert src'[n] == i;
      } else {
        var s :| 0 <= s < |src| && src[s] == j;
        assert src'[s] == j;
      }
    }
  }

  lemma EmptySource(sh: StringHash, h: seq<Node>, c: seq<seq<nat>>, ns: seq<Pair>, src: seq<int>, n: nat)
    requires Layout(sh, h, c, ns, src) && n < |h|
    ensures h[n].value.Some? <==> 0 <= src[n]
  {
    assert SlotOK(sh, h, c, ns, src, n);
  }

  // ---- Counting slots ----

  /** The pairs that the first n slots hold. */
  ghost function Sources(src: seq<int>, n: nat): set<nat>
    requires n <= |src|
  {
    if n == 0 then {} else if src[n - 1] < 0 then Sources(src, n - 1) else Sources(src, n - 1) + {src[n - 1]}
  }

  lemma {:induction false} SourcesMember(src: seq<int>, n: nat, i: nat)
    requires n <= |src|
    ensures i in Sources(src, n) <==> exists s :: 0 <= s < n && src[s] == i
  {
    if n > 0 { SourcesMember(src, n - 1, i); }
  }

  /** Distinct sources are as many as slots exactly when no slot is empty. */
  lemma {:induction false} SourcesSize(src: seq<int>, n: nat)
    requires n <= |src| && forall s, t :: 0 <= s < t < |src| && 0 <= src[s] ==> src[s] != src[t]
    ensures |Sources(src, n)| <= n && (|Sources(src, n)| == n <==> forall s :: 0 <= s < n ==> 0 <= src[s])
  {
    if n > 0 {
      SourcesSize(src, n - 1);
      if src[n - 1] >= 0 { SourcesMember(src, n - 1, src[n - 1]); }
    }
  }

  /** Only pairs that were counted have slots. */
  lemma SourcesCounted(sh: StringHash, ps: seq<Pair>, sizearray: nat, h: seq<Node>, c: seq<seq<nat>>, src: seq<int>, i: nat)
    requires SecondPass(sh, Cast(ps), sizearray, h, c, src, i) && sizearray < INT_LIMIT
    ensures Sources(src, |src|) <= Counted(ps, sizearray)
  {
    hide KeyHash, Main, Layout, IsFirst, Counted, Sources;
    SecondSizes(sh, Cast(ps), sizearray, h, c, src, i);
    forall j | j in Sources(src, |src|) ensures j in Counted(ps, sizearray) {
      SourcesMember(src, |src|, j);
      var s :| 0 <= s < |src| && src[s] == j;
      assert Placed(sh, Cast(ps), sizearray, |h|, src[s]);
      CountedAt(ps, sizearray, j);
    }
  }

  lemma Subset(a: set<nat>, b: set<nat>)
    requires a <= b
    ensures |a| <= |b| && (|a| == |b| ==> a == b)
  {
    assert b == a + (b - a);
  }

  /** There are as many slots as counted pairs, so there is a free one for each pair that needs it. */
  lemma SlotIsFree(sh: StringHash, ps: seq<Pair>, sizearray: nat, h: seq<Node>, c: seq<seq<nat>>, src: seq<int>, i: nat)
    requires SecondPass(sh, Cast(ps), sizearray, h, c, src, i) && sizearray < INT_LIMIT && |h| == |Counted(ps, sizearray)|
    requires i < |ps| && !InArray(Narrowed(ps[i].key), sizearray) && |h| > 0
    requires h[Main(sh, Narrowed(ps[i].key), |h|)].key != Narrowed(ps[i].key)
    ensures exists s :: 0 <= s < |h| && h[s].value.None?
  {
    hide KeyHash, Main, Layout, Placed, Counted, Sources;
    SecondSizes(sh, Cast(ps), sizearray, h, c, src, i);
    NotYet(sh, Cast(ps), sizearray, h, c, src, i);
    CountedAt(ps, sizearray, i);
    SourcesCounted(sh, ps, sizearray, h, c, src, i);
    SourcesDistinct(sh, h, c, Cast(ps), src);
    SourcesSize(src, |src|);
    Subset(Sources(src, |src|), Counted(ps, sizearray));
    SourcesMember(src, |src|, i);
    var s :| 0 <= s < |src| && src[s] < 0;
    EmptySource(sh, h, c, Cast(ps), src, s);
  }

  lemma SourcesDistinct(sh: StringHash, h: seq<Node>, c: seq<seq<nat>>, ns: seq<Pair>, src: seq<int>)
    requires Layout(sh, h, c, ns, src)
    ensures |src| == |h| && forall s, t :: 0 <= s < t < |src| && 0 <= src[s] ==> src[s] != src[t]
  {
    hide SlotOK, ChainOK;
  }

  // ---- Converted tables ----

  /** Everything that lookups and iteration rely on. */
  ghost predicate Converted(sh: StringHash, ps: seq<Pair>, arr: seq<Option<Value>>, h: seq<Node>, c: seq<seq<nat>>, src: seq<int>)
  {
    && Distinct(ps) && AllAccepted(ps)
    && ArrayOK(arr, Cast(ps))
    && SecondPass(sh, Cast(ps), |arr|, h, c, src, |ps|)
    && |h| == |Counted(ps, |arr|)|
  }

  lemma ConvertedLayout(sh: StringHash, ps: seq<Pair>, arr: seq<Option<Value>>, h: seq<Node>, c: seq<seq<nat>>, src: seq<int>)
    requires Converted(sh, ps, arr, h, c, src)
    ensures Layout(sh, h, c, Cast(ps), src)
  {
  }

  lemma NothingCounted(sh: StringHash, ps: seq<Pair>, sizearray: nat)
    requires |Counted(ps, sizearray)| == 0 && sizearray < INT_LIMIT
    ensures forall i :: 0 <= i < |ps| ==> ps[i].key.IntKey? && 0 < ps[i].key.k < INT_LIMIT
    ensures SecondPass(sh, Cast(ps), sizearray, [], [], [], |ps|)
  {
    assert Counted(ps, sizearray) == {};
    forall i: nat | i < |ps| ensures InArray(ps[i].key, sizearray) { assert i !in Counted(ps, sizearray); }
  }

  lemma MainIs(sh: StringHash, key: Key, n: nat)
    requires n > 0
    ensures Main(sh, key, n) == KeyHash(sh, key) % n
  {
  }

  lemma SlotHash(sh: StringHash, h: seq<Node>, c: seq<seq<nat>>, ns: seq<Pair>, src: seq<int>, s: nat)
    requires Layout(sh, h, c, ns, src) && s < |h| && h[s].value.Some?
    ensures h[s].keyhash == KeyHash(sh, h[s].key)
  {
    assert SlotOK(sh, h, c, ns, src, s);
  }

  /** Some slot holds the key of each pair that is not in the array part. */
  lemma KeyHeld(sh: StringHash, ns: seq<Pair>, sizearray: nat, h: seq<Node>, c: seq<seq<nat>>, src: seq<int>, i: nat) returns (s: nat)
    requires SecondPass(sh, ns, sizearray, h, c, src, |ns|) && i < |ns| && !InArray(ns[i].key, sizearray)
    ensures s < |h| && h[s].value.Some? && h[s].key == ns[i].key
  {
    hide KeyHash, Main, IsFirst;
    assert MainOK(sh, ns, sizearray, h, c, src, i);
    s := Main(sh, ns[i].key, |h|);
    if h[s].key != ns[i].key {
      NotYetDone(sh, ns, sizearray, h, c, src, i);
      s :| 0 <= s < |src| && src[s] == i;
      assert SlotOK(sh, h, c, ns, src, s);
    }
  }

  lemma NotYetDone(sh: StringHash, ns: seq<Pair>, sizearray: nat, h: seq<Node>, c: seq<seq<nat>>, src: seq<int>, i: nat)
    requires SecondPass(sh, ns, sizearray, h, c, src, |ns|) && i < |ns| && !InArray(ns[i].key, sizearray)
    requires |h| > 0 && h[Main(sh, ns[i].key, |h|)].key != ns[i].key
    ensures i in src
  {
    hide KeyHash, Main, Layout, IsFirst;
    var p := Main(sh, ns[i].key, |h|);
    assert MainOK(sh, ns, sizearray, h, c, src, i);
    forall j | 0 <= j < i && IsFirst(sh, ns, sizearray, |h|, j) ensures ns[j].key != ns[i].key {
      if ns[j].key == ns[i].key { OneFirst(sh, ns, sizearray, |h|, j, src[p]); }
    }
    assert Placed(sh, ns, sizearray, |h|, i);
  }

  // ---- Unfilled slots ----

  ghost predicate Filled(h: seq<Node>) { forall s :: 0 <= s < |h| ==> h[s].value.Some? }

  /** Every slot is filled if and only if every counted pair gets one. */
  lemma FilledIfPlaced(sh: StringHash, ps: seq<Pair>, sizearray: nat, h: seq<Node>, c: seq<seq<nat>>, src: seq<int>)
    requires SecondPass(sh, Cast(ps), sizearray, h, c, src, |ps|) && sizearray < INT_LIMIT && |h| == |Counted(ps, sizearray)|
    ensures Filled(h) <==> forall i :: i in Counted(ps, sizearray) ==> Placed(sh, Cast(ps), sizearray, |h|, i)
  {
    hide KeyHash, Main, Layout, Placed, IsFirst, Counted, Sources;
    var all := Sources(src, |src|);
    SourcesCounted(sh, ps, sizearray, h, c, src, |ps|);
    SourcesDistinct(sh, h, c, Cast(ps), src);
    SourcesSize(src, |src|);
    Subset(all, Counted(ps, sizearray));
    forall s: nat | s < |h| ensures h[s].value.Some? <==> 0 <= src[s] { EmptySource(sh, h, c, Cast(ps), src, s); }
    if Filled(h) {
      forall i | i in Counted(ps, sizearray) ensures Placed(sh, Cast(ps), sizearray, |h|, i) {
        SourcesMember(src, |src|, i);
        var s :| 0 <= s < |src| && src[s] == i;
        assert Placed(sh, Cast(ps), sizearray, |h|, src[s]);
      }
    }
    if forall i :: i in Counted(ps, sizearray) ==> Placed(sh, Cast(ps), sizearray, |h|, i) {
      forall i | i in Counted(ps, sizearray) ensures i in all {
        CountedInside(ps, sizearray, i);
        SourcesMember(src, |src|, i);
      }
      assert all == Counted(ps, sizearray);
    }
  }

  lemma CountedInside(ps: seq<Pair>, sizearray: nat, i: nat)
    requires i in Counted(ps, sizearray)
    ensures i < |ps| && !InArray(ps[i].key, sizearray)
  {
  }
}
