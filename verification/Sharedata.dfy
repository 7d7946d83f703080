/** skynet/lualib-src/lua-sharedata.c: a table is converted once, in two passes over its pairs, and then only
    read.  countsize looks at the keys as Lua has them, both passes and all lookups at their cast to
    32 bits, and a key that is a table counts but is taken for the empty string. */
module Sharedata {
  import opened SharedataHash
  import opened SharedataFill

  /** The keys of the array part from position i on. */
  ghost function ArrayKeys(arr: seq<Option<Value>>, i: nat): seq<Key>
    requires i <= |arr|
    decreases |arr| - i
  {
    if i == |arr| then [] else if arr[i].Some? then [IntKey(i + 1)] + ArrayKeys(arr, i + 1) else ArrayKeys(arr, i + 1)
  }

  ghost function NodeKeys(h: seq<Node>, s: nat): seq<Key>
    requires s <= |h|
    decreases |h| - s
  {
    if s == |h| then [] else [h[s].key] + NodeKeys(h, s + 1)
  }

  function FirstOf(ks: seq<Key>): Option<Key> { if ks == [] then None else Some(ks[0]) }

  lemma {:induction false} ArrayKeysMember(arr: seq<Option<Value>>, i: nat, k: Key)
    requires i <= |arr|
    ensures k in ArrayKeys(arr, i) <==> k.IntKey? && i < k.k <= |arr| && arr[k.k - 1].Some?
    decreases |arr| - i
  {
    if i < |arr| { ArrayKeysMember(arr, i + 1, k); }
  }

  lemma {:induction false} NodeKeysMember(h: seq<Node>, s: nat, k: Key)
    requires s <= |h|
    ensures k in NodeKeys(h, s) <==> exists t :: s <= t < |h| && h[t].key == k
    decreases |h| - s
  {
    if s < |h| {
      var rest := NodeKeys(h, s + 1);
      NodeKeysMember(h, s + 1, k);
      assert k in [h[s].key] + rest <==> k == h[s].key || k in rest;
    }
  }

  ghost predicate NoRepeat(ks: seq<Key>) { forall i, j :: 0 <= i < j < |ks| ==> ks[i] != ks[j] }

  lemma {:induction false} ArrayKeysNoRepeat(arr: seq<Option<Value>>, i: nat)
    requires i <= |arr|
    ensures NoRepeat(ArrayKeys(arr, i))
    decreases |arr| - i
  {
    if i < |arr| {
      ArrayKeysNoRepeat(arr, i + 1);
      ArrayKeysMember(arr, i + 1, IntKey(i + 1));
    }
  }

  lemma {:induction false} NodeKeysNoRepeat(h: seq<Node>, s: nat)
    requires s <= |h| && forall t, u :: 0 <= t < u < |h| ==> h[t].key != h[u].key
    ensures NoRepeat(NodeKeys(h, s))
    decreases |h| - s
  {
    if s < |h| {
      NodeKeysNoRepeat(h, s + 1);
      NodeKeysMember(h, s + 1, h[s].key);
    }
  }

  // ---- The table ----

  class Table {
    const sh: StringHash
    const sizearray: nat
    var arr: array<Option<Value>>
    var hash: array<Node>
    ghost var c: seq<seq<nat>>
    ghost var src: seq<int>

    /** The pairs the table was made of. */
    ghost var ps: seq<Pair>

    ghost predicate Valid()
      reads this, arr, hash
    {
      arr.Length == sizearray && Converted(sh, ps, arr[..], hash[..], c, src)
    }

    /** The slot of a hash key, or -1. */
    ghost function Slot(key: Key): (slot: int)
      requires Valid()
      reads this, arr, hash
      ensures -1 <= slot < hash.Length
    {
      SlotFor(sh, hash[..], c, Cast(ps), src, key)
    }

    /** What the table holds for a key that has been cast. */
    ghost function Get(key: Key): Option<Value>
      requires Valid()
      reads this, arr, hash
    {
      if InArray(key, sizearray) then arr[key.k - 1]
      else if Slot(key) < 0 then None else hash[Slot(key)].value
    }

    /** The slot where a lookup starts has been filled; else its fields are not initialized. */
    predicate Ready(key: Key)
      reads this, hash
    {
      hash.Length == 0 || hash[Main(sh, key, hash.Length)].value.Some?
    }

    constructor Empty(stringHash: StringHash, arraySize: nat, hashSize: nat)
      ensures sh == stringHash && sizearray == arraySize && arr.Length == arraySize && hash.Length == hashSize
      ensures fresh(arr) && fresh(hash)
      ensures forall i :: 0 <= i < arraySize ==> arr[i].None?
      ensures forall s :: 0 <= s < hashSize ==> hash[s] == EMPTY_NODE
    {
      sh, sizearray := stringHash, arraySize;
      arr := new Option<Value>[arraySize](_ => None);
      hash := new Node[hashSize](_ => EMPTY_NODE);
      c, src, ps := [], [], [];
    }

    /** fillnocolliding: array values, and every hash key whose main position is free. */
    method FillNoColliding(all: seq<Pair>)
      requires arr.Length == sizearray < INT_LIMIT && hash.Length == |Counted(all, sizearray)|
      requires forall i :: 0 <= i < sizearray ==> arr[i].None?
      requires forall s :: 0 <= s < hash.Length ==> hash[s] == EMPTY_NODE
      requires (arr as object) != (hash as object)
      modifies arr, hash, this`c, this`src
      ensures ArrayOK(arr[..], Cast(all)) && FirstPass(sh, Cast(all), sizearray, hash[..], c, src, |all|)
    {
      hide Layout, Main, KeyHash, FirstPass, ArrayOK, Counted;
      ghost var ns := Cast(all);
      c, src := seq(hash.Length, _ => []), seq(hash.Length, _ => -1);
      FirstStarts(sh, ns, sizearray, hash[..], c, src);
      NoArray(arr[..]);
      assert ns[..0] == [];
      var i := 0;
      while i < |all|
        invariant i <= |all| == |ns| && hash.Length == |Counted(all, sizearray)| == |c| == |src|
        invariant FirstPass(sh, ns, sizearray, hash[..], c, src, i) && ArrayOK(arr[..], ns[..i])
      {
        var pair := Pair(Narrowed(all[i].key), all[i].value);
        ArrayStep(arr[..], ns, i);
        if InArray(pair.key, sizearray) {
          FirstSkip(sh, ns, sizearray, hash[..], c, src, i);
          ghost var before := arr[..];
          arr[pair.key.k - 1] := Some(pair.value);
          assert arr[..] == before[pair.key.k - 1 := Some(pair.value)];
        } else {
          CountedAt(all, sizearray, i);
          FirstStep(sh, ns, sizearray, hash[..], c, src, i);
          var p := Main(sh, pair.key, hash.Length);
          if hash[p].value.None? {
            ghost var before := hash[..];
            hash[p] := MainNode(sh, pair);
            assert hash[..] == before[p := hash[p]];
            c, src := c[p := [p]], src[p := i];
          }
        }
        i := i + 1;
      }
      assert ns[..i] == ns;
    }

    /** fillcolliding: every other hash key goes to the next free slot, behind its main position. */
    method FillColliding(all: seq<Pair>)
      requires sizearray < INT_LIMIT && hash.Length == |Counted(all, sizearray)|
      requires SecondPass(sh, Cast(all), sizearray, hash[..], c, src, 0)
      modifies hash, this`c, this`src
      ensures SecondPass(sh, Cast(all), sizearray, hash[..], c, src, |all|)
    {
      hide Layout, Main, KeyHash, SecondPass, Counted;
      ghost var ns := Cast(all);
      SecondSizes(sh, ns, sizearray, hash[..], c, src, 0);
      var i, emptyslot := 0, 0;
      while i < |all|
        invariant i <= |all| && emptyslot <= hash.Length == |c| == |src| == |Counted(all, sizearray)|
        invariant SecondPass(sh, ns, sizearray, hash[..], c, src, i)
        invariant forall s :: 0 <= s < emptyslot ==> hash[s].value.Some?
      {
        var pair := Pair(Narrowed(all[i].key), all[i].value);
        if !InArray(pair.key, sizearray) {
          MainTaken(sh, ns, sizearray, hash[..], c, src, i, i);
          var p := Main(sh, pair.key, hash.Length);
          if hash[p].key != pair.key {
            SlotIsFree(sh, all, sizearray, hash[..], c, src, i);
            var n := emptyslot;
            while n < hash.Length && hash[n].value.Some?
              invariant emptyslot <= n <= hash.Length && forall s :: 0 <= s < n ==> hash[s].value.Some?
            {
              n := n + 1;
            }
            assert n < hash.Length;
            emptyslot := n + 1;
            SecondStep(sh, ns, sizearray, hash[..], c, src, i, n);
            ghost var before := hash[..];
            hash[n] := Node(pair.key, Some(pair.value), hash[p].next, KeyHash(sh, pair.key), false);
            hash[p] := hash[p].(next := n, nocolliding := false);
            assert hash[..] == Linked(sh, before, p, n, pair);
            c, src := c[p := [p, n] + c[p][1..]], src[n := i];
          } else {
            SecondSkip(sh, ns, sizearray, hash[..], c, src, i);
          }
        } else {
          SecondSkip(sh, ns, sizearray, hash[..], c, src, i);
        }
        i := i + 1;
      }
    }

    /** lookup_key: the slot of a hash key, or -1. */
    method LookupKey(key: Key) returns (slot: int)
      requires Valid() && !InArray(key, sizearray) && Ready(key)
      ensures slot == Slot(key)
    {
      hide Layout, Main, KeyHash, Converted;
      ghost var h, ns := hash[..], Cast(ps);
      ConvertedLayout(sh, ps, arr[..], h, c, src);
      if hash.Length == 0 { return -1; }
      var keyhash := KeyHash(sh, key);
      var n := keyhash % hash.Length;
      MainIs(sh, key, hash.Length);
      if keyhash != hash[n].keyhash && hash[n].nocolliding {
        AloneInChain(sh, h, c, ns, src, key);
        return -1;
      }
      ghost var p, i := FromMain(sh, h, c, ns, src, key);
      while true
        invariant 0 <= n < hash.Length && p < |c| && i < |c[p]| && c[p][i] == n && ChainOK(sh, h, c[p], p)
        invariant forall j :: 0 <= j < |c[p]| ==> c[p][j] < |h|
        invariant FindFrom(h, c[p], key, i) == SlotFor(sh, h, c, ns, src, key)
        decreases |c[p]| - i
      {
        assert LinkOK(sh, h, c[p], p, i);
        SlotHash(sh, h, c, ns, src, n);
        if keyhash == hash[n].keyhash && hash[n].key == key { return n; }
        if hash[n].next < 0 { return -1; }
        assert LinkOK(sh, h, c[p], p, i + 1);
        n := hash[n].next;
        i := i + 1;
      }
    }

    /** lindexconf: an error if the key is neither an integer nor a string. */
    method IndexConf(key: Key) returns (ok: bool, v: Option<Value>)
      requires Valid()
      requires key.IntKey? || key.StrKey? ==> InArray(Narrowed(key), sizearray) || Ready(Narrowed(key))
      ensures ok == (key.IntKey? || key.StrKey?)
      ensures v == if ok then Get(Narrowed(key)) else None
    {
      if !key.IntKey? && !key.StrKey? { return false, None; }
      ok := true;
      var k := Narrowed(key);
      if InArray(k, sizearray) { return true, arr[k.k - 1]; }
      var slot := LookupKey(k);
      v := if slot < 0 then None else hash[slot].value;
    }

    /** The order in which keys are visited. */
    ghost function Order(): seq<Key>
      reads this, arr, hash
    {
      ArrayKeys(arr[..], 0) + NodeKeys(hash[..], 0)
    }

    /** The keys behind a given one. */
    ghost function Behind(key: Key, slot: nat): seq<Key>
      requires slot <= hash.Length && (InArray(key, arr.Length) || slot < hash.Length)
      reads this, arr, hash
    {
      if InArray(key, arr.Length) then ArrayKeys(arr[..], key.k) + NodeKeys(hash[..], 0) else NodeKeys(hash[..], slot + 1)
    }

    method FirstHash() returns (k: Option<Key>)
      ensures k == FirstOf(NodeKeys(hash[..], 0))
    {
      k := if hash.Length > 0 then Some(hash[0].key) else None;
    }

    /** The first key of the array part from a position on, or else the first of the hash. */
    method ScanArray(from: nat) returns (k: Option<Key>)
      requires from <= arr.Length
      ensures k == FirstOf(ArrayKeys(arr[..], from) + NodeKeys(hash[..], 0))
    {
      var i := from;
      while i < arr.Length
        invariant from <= i <= arr.Length && ArrayKeys(arr[..], from) == ArrayKeys(arr[..], i)
      {
        if arr[i].Some? { return Some(IntKey(i + 1)); }
        i := i + 1;
      }
      k := FirstHash();
    }

    /** lnextkey: the first key, or the one behind a given key; nothing behind a key that is not there or is a
        float, and an error if it is no number and no string. */
    method NextKey(prev: Option<Key>) returns (ok: bool, k: Option<Key>)
      requires Valid()
      requires prev.Some? && (prev.value.IntKey? || prev.value.StrKey?) ==>
                 InArray(Narrowed(prev.value), sizearray) || Ready(Narrowed(prev.value))
      ensures ok <==> (prev.Some? ==> !prev.value.TableKey? && !prev.value.OtherKey?)
      ensures prev.None? ==> k == FirstOf(Order())
      ensures prev.Some? && (prev.value.IntKey? || prev.value.StrKey?) ==>
                var key := Narrowed(prev.value);
                if InArray(key, sizearray) then k == FirstOf(Behind(key, 0))
                else if Slot(key) < 0 then k.None? else k == FirstOf(Behind(key, Slot(key)))
      ensures prev.Some? && !prev.value.IntKey? && !prev.value.StrKey? ==> k.None?
    {
      ok := true;
      if prev.None? {
        k := ScanArray(0);
        return;
      }
      if !prev.value.IntKey? && !prev.value.StrKey? { return prev.value.FloatKey?, None; }
      var key := Narrowed(prev.value);
      if InArray(key, sizearray) {
        k := ScanArray(key.k);
        return;
      }
      var slot := LookupKey(key);
      if slot < 0 || slot + 1 == hash.Length { return true, None; }
      k := Some(hash[slot + 1].key);
    }
  }

  /** convtable: the array has `sizearray` places, and the hash exactly as many as countsize says; an error, and
      no table, if countsize reports one. */
  method Convert(sh: StringHash, ps: seq<Pair>, sizearray: nat) returns (t: Table?)
    requires Distinct(ps) && sizearray < INT_LIMIT
    ensures t == null <==> !AllAccepted(ps)
    ensures t != null ==> fresh(t) && t.Valid() && t.ps == ps && t.sh == sh && t.sizearray == sizearray
  {
    hide Layout, FirstPass, SecondPass, Meaning, Counted, KeyHash, Main;
    var ok, sizehash := CountSize(ps, sizearray);
    if !ok { return null; }
    t := new Table.Empty(sh, sizearray, sizehash);
    t.ps := ps;
    if sizehash != 0 {
      t.FillNoColliding(ps);
      FirstDone(sh, Cast(ps), sizearray, t.hash[..], t.c, t.src);
      t.FillColliding(ps);
    } else {
      var i := 0;
      while i < sizearray
        invariant i <= sizearray && t.arr.Length == sizearray
        invariant forall k :: 0 <= k < i ==> t.arr[k] == RawGet(ps, IntKey(k + 1))
        modifies t.arr
      {
        t.arr[i] := RawGet(ps, IntKey(i + 1));
        i := i + 1;
      }
      NothingCounted(sh, ps, sizearray);
      forall k | 0 <= k < sizearray
        ensures t.arr[k] == if IntKey(k + 1) in Meaning(Cast(ps)) then Some(Meaning(Cast(ps))[IntKey(k + 1)]) else None
      {
        RawGetMeans(ps, IntKey(k + 1));
      }
      t.c, t.src := [], [];
      assert t.hash[..] == [];
    }
    assert ArrayOK(t.arr[..], Cast(ps));
    assert SecondPass(sh, Cast(ps), sizearray, t.hash[..], t.c, t.src, |ps|);
  }

  // ---- What the table means ----

  /** Keys that merge have the same value. */
  ghost predicate Agreeing(ps: seq<Pair>)
  {
    forall i, j :: 0 <= i < j < |ps| && Merge(ps[i].key, ps[j].key) ==> ps[i].value == ps[j].value
  }

  /** A lookup finds something exactly for the keys that become the key of some pair, and then the value of
      such a pair. */
  lemma GetMeans(t: Table, key: Key)
    requires t.Valid() && t.sizearray < INT_LIMIT
    ensures t.Get(key).Some? <==> exists i :: 0 <= i < |t.ps| && Narrowed(t.ps[i].key) == key
    ensures t.Get(key).Some? ==> exists i :: 0 <= i < |t.ps| && Narrowed(t.ps[i].key) == key && t.ps[i].value == t.Get(key).value
  {
    hide Layout, Main, KeyHash, Meaning;
    var ns := Cast(t.ps);
    if InArray(key, t.sizearray) {
      assert t.arr[key.k - 1] == t.arr[..][key.k - 1];
      if key in Meaning(ns) {
        var i := MeaningKey(ns, key);
        assert ns[i].key == key;
      }
      forall i | 0 <= i < |ns| && ns[i].key == key ensures key in Meaning(ns) { MeaningHas(ns, i); }
    } else {
      FoundIsHeld(t.sh, t.hash[..], t.c, ns, t.src, key);
      if t.Slot(key) >= 0 { assert ns[t.src[t.Slot(key)]].key == key; }
      forall i | 0 <= i < |ns| && ns[i].key == key ensures t.Slot(key) >= 0 {
        var s := KeyHeld(t.sh, ns, t.sizearray, t.hash[..], t.c, t.src, i);
        HeldIsFound(t.sh, t.hash[..], t.c, ns, t.src, s);
      }
    }
  }

  /** Every key of the source table is found with its value, as what it has become, if and only if keys that
      merge agree. */
  lemma FindsExactly(t: Table)
    requires t.Valid() && t.sizearray < INT_LIMIT
    ensures (forall i :: 0 <= i < |t.ps| ==> t.Get(Narrowed(t.ps[i].key)) == Some(t.ps[i].value)) <==> Agreeing(t.ps)
  {
    hide Table.Get, Converted, Narrowed, Merge;
    forall i, j | 0 <= i < |t.ps| && 0 <= j < |t.ps|
      ensures Narrowed(t.ps[i].key) == Narrowed(t.ps[j].key) <==> Merge(t.ps[i].key, t.ps[j].key)
    {
      NarrowedMerges(t.ps[i].key, t.ps[j].key);
    }
    forall i | 0 <= i < |t.ps|
      ensures exists j :: 0 <= j < |t.ps| && Narrowed(t.ps[j].key) == Narrowed(t.ps[i].key) && Some(t.ps[j].value) == t.Get(Narrowed(t.ps[i].key))
    {
      GetMeans(t, Narrowed(t.ps[i].key));
    }
  }

  /** The lookup of a key of the source table starts at a slot that was filled. */
  lemma SourceIsReady(t: Table, i: nat)
    requires t.Valid() && i < |t.ps|
    ensures InArray(Narrowed(t.ps[i].key), t.sizearray) || t.Ready(Narrowed(t.ps[i].key))
  {
    hide Layout, Main, KeyHash;
    if !InArray(Narrowed(t.ps[i].key), t.sizearray) {
      MainTaken(t.sh, Cast(t.ps), t.sizearray, t.hash[..], t.c, t.src, |t.ps|, i);
    }
  }

  /** Every slot is filled if and only if every pair that was counted gets one: its key is still outside the
      array part after the cast, and no pair before it with the same key took their main position. */
  lemma FilledExactly(t: Table)
    requires t.Valid() && t.sizearray < INT_LIMIT
    ensures Filled(t.hash[..])
            <==> forall i :: i in Counted(t.ps, t.sizearray) ==> Placed(t.sh, Cast(t.ps), t.sizearray, t.hash.Length, i)
  {
    hide SecondPass, Counted, Placed;
    FilledIfPlaced(t.sh, t.ps, t.sizearray, t.hash[..], t.c, t.src);
  }

  ghost predicate NoneMerge(ps: seq<Pair>) { forall i, j :: 0 <= i < j < |ps| ==> !Merge(ps[i].key, ps[j].key) }

  lemma NoneMergeDistinct(ps: seq<Pair>)
    requires NoneMerge(ps)
    ensures Distinct(Cast(ps))
  {
    hide Narrowed, Merge;
    forall i, j | 0 <= i < j < |ps| ensures Narrowed(ps[i].key) != Narrowed(ps[j].key) {
      NarrowedMerges(ps[i].key, ps[j].key);
    }
  }

  /** When no keys merge, only keys that the cast moves into the array part leave slots empty. */
  lemma FilledWhenInjective(t: Table)
    requires t.Valid() && t.sizearray < INT_LIMIT && NoneMerge(t.ps)
    ensures Filled(t.hash[..]) <==> forall i :: i in Counted(t.ps, t.sizearray) ==> !InArray(Narrowed(t.ps[i].key), t.sizearray)
  {
    hide SecondPass, Counted, IsFirst, Narrowed, NoneMerge;
    NoneMergeDistinct(t.ps);
    FilledExactly(t);
    forall i | i in Counted(t.ps, t.sizearray) ensures i < |t.ps| { CountedInside(t.ps, t.sizearray, i); }
  }

  lemma FilledIsReady(t: Table, key: Key)
    requires Filled(t.hash[..])
    ensures t.Ready(key)
  {
    hide Main;
    if t.hash.Length > 0 { assert t.hash[..][Main(t.sh, key, t.hash.Length)].value.Some?; }
  }

  /** {[-1] = a, [2^32 - 1] = b}: the second pair is lost, and a slot stays empty. */
  method MergedKeys(sh: StringHash, a: Value, b: Value) returns (t: Table, v: Option<Value>)
    ensures fresh(t) && t.Valid() && t.ps == [Pair(IntKey(-1), a), Pair(IntKey(0xffff_ffff), b)]
    ensures v == Some(a) && !Filled(t.hash[..])
  {
    t, v := ConvertTwo(sh, IntKey(-1), IntKey(0xffff_ffff), a, b);
  }

  /** {[{}] = a, [""] = b}, when the table comes first: the empty string gets the value of the table. */
  method MergedTable(sh: StringHash, a: Value, b: Value) returns (t: Table, v: Option<Value>)
    ensures fresh(t) && t.Valid() && t.ps == [Pair(TableKey(0), a), Pair(StrKey(""), b)]
    ensures v == Some(a) && !Filled(t.hash[..])
  {
    t, v := ConvertTwo(sh, TableKey(0), StrKey(""), a, b);
  }

  /** Of two keys that merge the second is lost. */
  method ConvertTwo(sh: StringHash, k: Key, l: Key, a: Value, b: Value) returns (t: Table, v: Option<Value>)
    requires k != l && Merge(k, l) && Accepted(k) && (l.IntKey? || l.StrKey?)
    ensures fresh(t) && t.Valid() && t.ps == [Pair(k, a), Pair(l, b)]
    ensures v == Some(a) && !Filled(t.hash[..])
  {
    hide Layout, Counted, SecondPass, Merge, Narrowed;
    var ps := [Pair(k, a), Pair(l, b)];
    t := Convert(sh, ps, 0);
    CountedBoth(ps, 0);
    SourceIsReady(t, 1);
    var _, v' := t.IndexConf(l);
    v := v';
    SecondIsLost(t);
    FilledExactly(t);
  }

  lemma CountedBoth(ps: seq<Pair>, sizearray: nat)
    requires |ps| == 2 && !InArray(ps[1].key, sizearray)
    ensures 1 in Counted(ps, sizearray)
  {
  }

  lemma SecondIsLost(t: Table)
    requires t.Valid() && t.sizearray == 0 && |t.ps| == 2 && Merge(t.ps[0].key, t.ps[1].key)
    requires t.hash.Length > 0
    ensures !Placed(t.sh, Cast(t.ps), 0, t.hash.Length, 1) && t.Get(Narrowed(t.ps[1].key)) == Some(t.ps[0].value)
  {
    hide Layout, Main, KeyHash, Counted, Narrowed, Merge;
    NarrowedMerges(t.ps[0].key, t.ps[1].key);
    var ns, key := Cast(t.ps), Narrowed(t.ps[0].key);
    assert IsFirst(t.sh, ns, 0, t.hash.Length, 0);
    GetMeans(t, key);
    FoundIsHeld(t.sh, t.hash[..], t.c, ns, t.src, key);
    var s := t.Slot(key);
    assert Placed(t.sh, ns, 0, t.hash.Length, t.src[s]);
  }

  /** {[1] = a, [2^32 + 1] = b}: the second pair replaces the first one, and its slot stays empty. */
  method MovedKey(sh: StringHash, a: Value, b: Value) returns (t: Table, v: Option<Value>)
    ensures fresh(t) && t.Valid() && t.ps == [Pair(IntKey(1), a), Pair(IntKey(0x1_0000_0001), b)]
    ensures v == Some(b) && !Filled(t.hash[..])
  {
    hide Layout, Counted, SecondPass;
    var ps := [Pair(IntKey(1), a), Pair(IntKey(0x1_0000_0001), b)];
    t := Convert(sh, ps, 1);
    var _, v' := t.IndexConf(IntKey(1));
    v := v';
    assert Cast(ps)[..1] + [Cast(ps)[1]] == Cast(ps);
    assert t.arr[0] == t.arr[..][0];
    CountedBoth(ps, 1);
    FilledExactly(t);
  }

  // ---- Iteration ----

  ghost predicate AllFit(ps: seq<Pair>) { forall i :: 0 <= i < |ps| ==> Fits(ps[i].key) }

  lemma FitsStay(ps: seq<Pair>)
    ensures AllFit(ps) <==> forall i :: 0 <= i < |ps| ==> Narrowed(ps[i].key) == ps[i].key
    ensures AllFit(ps) ==> Cast(ps) == ps
    ensures AllFit(ps) && Distinct(ps) ==> NoneMerge(ps)
  {
    hide Narrowed, Merge, Fits;
    forall i | 0 <= i < |ps| ensures Narrowed(ps[i].key) == ps[i].key <==> Fits(ps[i].key) { NarrowedFits(ps[i].key); }
    forall i, j | 0 <= i < j < |ps| ensures Narrowed(ps[i].key) == Narrowed(ps[j].key) <==> Merge(ps[i].key, ps[j].key) {
      NarrowedMerges(ps[i].key, ps[j].key);
    }
  }

  ghost predicate IsKey(ps: seq<Pair>, k: Key) { exists i :: 0 <= i < |ps| && ps[i].key == k }

  /** Without a cast that changes something, every slot is filled, each with a key of its own. */
  lemma AllPlaced(t: Table)
    requires t.Valid() && t.sizearray < INT_LIMIT && AllFit(t.ps)
    ensures Cast(t.ps) == t.ps && Filled(t.hash[..])
    ensures forall s, u :: 0 <= s < u < t.hash.Length ==> t.hash[..][s].key != t.hash[..][u].key
    ensures forall s :: 0 <= s < t.hash.Length ==> !InArray(t.hash[..][s].key, t.sizearray)
  {
    hide Main, KeyHash, Counted, IsFirst, Narrowed, Merge, Fits;
    FitsStay(t.ps);
    FilledWhenInjective(t);
    forall i | i in Counted(t.ps, t.sizearray) ensures i < |t.ps| && !InArray(Narrowed(t.ps[i].key), t.sizearray) {
      CountedInside(t.ps, t.sizearray, i);
    }
    var h := t.hash[..];
    forall s: nat | s < |h| ensures 0 <= t.src[s] < |t.ps| && h[s].key == t.ps[t.src[s]].key && !InArray(h[s].key, t.sizearray) {
      assert SlotOK(t.sh, h, t.c, t.ps, t.src, s);
      assert Placed(t.sh, t.ps, t.sizearray, |h|, t.src[s]);
    }
  }

  /** The keys that are visited have all been cast. */
  lemma VisitedFit(t: Table, k: Key)
    requires t.Valid() && t.sizearray < INT_LIMIT && k in t.Order()
    ensures Narrowed(k) == k && (k.IntKey? || k.StrKey?)
  {
    hide Main, KeyHash, Fits, ArrayKeys, NodeKeys;
    NarrowedFits(k);
    ArrayKeysMember(t.arr[..], 0, k);
    NodeKeysMember(t.hash[..], 0, k);
    if !(k in ArrayKeys(t.arr[..], 0)) {
      var s :| 0 <= s < t.hash.Length && t.hash[..][s].key == k;
      assert SlotOK(t.sh, t.hash[..], t.c, Cast(t.ps), t.src, s);
      if t.src[s] >= 0 { NarrowedFits(t.ps[t.src[s]].key); }
    }
  }

  lemma OrderHasKeys(t: Table, k: Key)
    requires t.Valid() && t.sizearray < INT_LIMIT && AllFit(t.ps)
    ensures k in t.Order() <==> IsKey(t.ps, k)
  {
    hide Main, KeyHash, Layout, Meaning, Counted;
    AllPlaced(t);
    ArrayKeysMember(t.arr[..], 0, k);
    NodeKeysMember(t.hash[..], 0, k);
    GetMeans(t, k);
    if k in t.Order() { VisitedFit(t, k); }
    assert t.Slot(k) >= 0 ==> t.hash[..][t.Slot(k)].key == k;
    forall i | 0 <= i < |t.ps| && t.ps[i].key == k ensures Narrowed(t.ps[i].key) == k {}
    if InArray(k, t.sizearray) {
      assert t.arr[k.k - 1] == t.arr[..][k.k - 1];
    } else if k in t.Order() {
      var s :| 0 <= s < t.hash.Length && t.hash[..][s].key == k;
      HeldIsFound(t.sh, t.hash[..], t.c, Cast(t.ps), t.src, s);
      FoundIsHeld(t.sh, t.hash[..], t.c, Cast(t.ps), t.src, k);
    }
  }

  /** Iteration visits the keys of the source table, each once, if and only if none of them is a table and all
      integers fit 32 bits. */
  lemma OrderIsTable(t: Table)
    requires t.Valid() && t.sizearray < INT_LIMIT
    ensures (NoRepeat(t.Order()) && forall k :: k in t.Order() <==> IsKey(t.ps, k)) <==> AllFit(t.ps)
  {
    hide Converted, Table.Valid, Table.Order, AllFit;
    FitsStay(t.ps);
    if AllFit(t.ps) {
      forall k ensures k in t.Order() <==> IsKey(t.ps, k) { OrderHasKeys(t, k); }
      OrderOnce(t);
    } else if forall k :: k in t.Order() <==> IsKey(t.ps, k) {
      var i :| 0 <= i < |t.ps| && Narrowed(t.ps[i].key) != t.ps[i].key;
      assert IsKey(t.ps, t.ps[i].key);
      VisitedFit(t, t.ps[i].key);
    }
  }

  lemma OrderOnce(t: Table)
    requires t.Valid() && t.sizearray < INT_LIMIT && AllFit(t.ps)
    ensures NoRepeat(t.Order())
  {
    hide Main, KeyHash, Layout;
    AllPlaced(t);
    ArrayKeysNoRepeat(t.arr[..], 0);
    NodeKeysNoRepeat(t.hash[..], 0);
    forall k | k in ArrayKeys(t.arr[..], 0) ensures InArray(k, t.sizearray) { ArrayKeysMember(t.arr[..], 0, k); }
    forall k | k in NodeKeys(t.hash[..], 0) ensures !InArray(k, t.sizearray) { NodeKeysMember(t.hash[..], 0, k); }
    Joined(ArrayKeys(t.arr[..], 0), NodeKeys(t.hash[..], 0), t.sizearray);
  }

  lemma Joined(a: seq<Key>, b: seq<Key>, sizearray: nat)
    requires NoRepeat(a) && NoRepeat(b)
    requires (forall k :: k in a ==> InArray(k, sizearray)) && (forall k :: k in b ==> !InArray(k, sizearray))
    ensures NoRepeat(a + b)
  {
    forall i, j | 0 <= i < j < |a + b| ensures (a + b)[i] != (a + b)[j] {
      if i < |a| <= j { assert (a + b)[i] in a && (a + b)[j] in b; }
    }
  }

  /** What is still to be visited. */
  ghost predicate Tail(arr: seq<Option<Value>>, h: seq<Node>, rest: seq<Key>)
  {
    || (exists i :: 0 <= i <= |arr| && rest == ArrayTail(arr, h, i))
    || (exists s :: 0 <= s <= |h| && rest == NodeKeys(h, s))
  }

  ghost function ArrayTail(arr: seq<Option<Value>>, h: seq<Node>, i: nat): seq<Key>
    requires i <= |arr|
  {
    ArrayKeys(arr, i) + NodeKeys(h, 0)
  }

  /** The first key of the array part from i on, and what follows it. */
  lemma {:induction false} ArrayFirst(arr: seq<Option<Value>>, i: nat) returns (n: nat)
    requires i <= |arr| && ArrayKeys(arr, i) != []
    ensures 0 < n <= |arr| && ArrayKeys(arr, i) == [IntKey(n)] + ArrayKeys(arr, n)
    decreases |arr| - i
  {
    if arr[i].Some? { n := i + 1; } else { n := ArrayFirst(arr, i + 1); }
  }

  lemma NodesLeft(arr: seq<Option<Value>>, h: seq<Node>, rest: seq<Key>) returns (s: nat)
    requires Tail(arr, h, rest) && rest != [] && !exists i :: 0 <= i <= |arr| && rest == ArrayTail(arr, h, i) && ArrayKeys(arr, i) != []
    ensures s < |h| && rest == NodeKeys(h, s)
  {
    if exists i :: 0 <= i <= |arr| && rest == ArrayTail(arr, h, i) { s := 0; }
    else { s :| 0 <= s <= |h| && rest == NodeKeys(h, s); }
  }

  /** What comes behind a key: of the hash part it is found in its own slot. */
  ghost function After(t: Table, key: Key): seq<Key>
    requires t.Valid() && (InArray(key, t.sizearray) || t.Slot(key) >= 0)
    reads t, t.arr, t.hash
  {
    t.Behind(key, if InArray(key, t.sizearray) then 0 else t.Slot(key))
  }

  /** Going on behind the first key of what is left leaves the rest of it. */
  lemma TailStep(t: Table, rest: seq<Key>)
    requires t.Valid() && t.sizearray < INT_LIMIT && AllFit(t.ps) && Tail(t.arr[..], t.hash[..], rest) && rest != []
    ensures InArray(rest[0], t.sizearray) || t.Slot(rest[0]) >= 0
    ensures After(t, rest[0]) == rest[1..] && Tail(t.arr[..], t.hash[..], rest[1..])
  {
    hide Layout, ArrayKeys, Main, KeyHash;
    var arr, h := t.arr[..], t.hash[..];
    AllPlaced(t);
    if i :| 0 <= i <= |arr| && rest == ArrayTail(arr, h, i) && ArrayKeys(arr, i) != [] {
      var n := ArrayFirst(arr, i);
      assert rest == [IntKey(n)] + ArrayTail(arr, h, n);
    } else {
      var s := NodesLeft(arr, h, rest);
      HeldIsFound(t.sh, h, t.c, Cast(t.ps), t.src, s);
      assert t.Slot(h[s].key) == s;
      assert rest[1..] == NodeKeys(h, s + 1);
    }
  }

  /** Iteration with lnextkey visits every key exactly once, and ends. */
  method Keys(t: Table) returns (ks: seq<Key>)
    requires t.Valid() && t.sizearray < INT_LIMIT && AllFit(t.ps)
    ensures NoRepeat(ks) && forall k :: k in ks <==> IsKey(t.ps, k)
  {
    hide Converted, ArrayKeys, NodeKeys, NoRepeat, Filled;
    OrderIsTable(t);
    AllPlaced(t);
    ks := [];
    ghost var rest := t.Order();
    assert rest == ArrayTail(t.arr[..], t.hash[..], 0);
    var ok, k := t.NextKey(None);
    while k.Some?
      invariant ks + rest == t.Order() && k == FirstOf(rest) && Tail(t.arr[..], t.hash[..], rest)
      decreases |rest|
    {
      ks := ks + [k.value];
      assert k.value in t.Order() by { assert rest[0] in ks; }
      VisitedFit(t, k.value);
      FilledIsReady(t, k.value);
      TailStep(t, rest);
      ok, k := t.NextKey(k);
      rest := rest[1..];
    }
    assert rest == [];
    assert ks + [] == ks;
  }
}
