/** The round trip of skynet/lualib-src/lua-seri.c: unpacking what was packed gives the same values. */
module SeriRoundTrip {
  import opened SeriFormat

  /** The value that unpacking builds: the same tables, with their pairs in the order of the stream. */
  ghost function Normal(v: Value): Value
    decreases v, 2, 0
  {
    if v.Table? then Table(NormalHash(v, |v.pairs|), v.n) else v
  }

  /** The pairs that have been built after i array elements. */
  ghost function NormalArray(v: Value, i: nat): seq<Pair>
    requires v.Table? && i <= v.n
    decreases v, 0, i
  {
    if i == 0 then []
    else
      var k := Find(v.pairs, Integer(i));
      if k < 0 || v.pairs[k].value.Nil? then NormalArray(v, i - 1)
      else NormalArray(v, i - 1) + [Pair(Integer(i), Normal(v.pairs[k].value))]
  }

  /** The pairs that have been built after k pairs of the hash part. */
  ghost function NormalHash(v: Value, k: nat): seq<Pair>
    requires v.Table? && k <= |v.pairs|
    decreases v, 1, k
  {
    if k == 0 then NormalArray(v, v.n)
    else if InArray(v.pairs[k - 1].key, v.n) then NormalHash(v, k - 1)
    else NormalHash(v, k - 1) + [NormalPair(v, k - 1)]
  }

  ghost function NormalPair(v: Value, k: nat): Pair
    requires v.Table? && k < |v.pairs|
    decreases v, 0, 0
  {
    Pair(Normal(v.pairs[k].key), Normal(v.pairs[k].value))
  }

  // ---- Numbers and strings ----

  lemma TakeFront(a: Bytes, rest: Bytes)
    ensures Take(a + rest, |a|) == Good(a, rest)
  {
  }

  lemma NumberBack(n: nat, k: nat, signed: bool, rest: Bytes)
    requires n < Power256(k)
    ensures ReadNumber(Little(n, k) + rest, k, signed) == Good(if signed then Signed(n, Power256(k)) else n, rest)
  {
    TakeFront(Little(n, k), rest);
    LittleBack(n, k);
  }

  lemma SignedBack(i: int, m: nat)
    requires m > 0 && m % 2 == 0 && -(m / 2) <= i < m / 2
    ensures Signed(Unsigned(i, m), m) == i
  {
  }

  lemma IntegerBack(i: int, rest: Bytes)
    requires FitsInt64(i)
    ensures var b := PackInteger(i) + rest;
            b != [] && b[0] % 8 == TYPE_NUMBER && b[0] / 8 != NUMBER_REAL && ReadInteger(b[1..], b[0] / 8) == Good(i, rest)
  {
    hide Little, FromLittle, Power256, ReadNumber, Take;
    Powers();
    var b, w := PackInteger(i) + rest, 0x1_0000_0000;
    if i == 0 {
      assert b[1..] == rest;
    } else if !FitsInt32(i) {
      var q := 0x1_0000_0000_0000_0000;
      SignedBack(i, q);
      NumberBack(Unsigned(i, q), 8, true, rest);
      assert b[1..] == Little(Unsigned(i, q), 8) + rest;
    } else if i < 0 {
      SignedBack(i, w);
      NumberBack(Unsigned(i, w), 4, true, rest);
      assert b[1..] == Little(Unsigned(i, w), 4) + rest;
    } else if i < 0x100 {
      NumberBack(i, 1, false, rest);
      assert b[1..] == Little(i, 1) + rest;
    } else if i < 0x1_0000 {
      NumberBack(i, 2, false, rest);
      assert b[1..] == Little(i, 2) + rest;
    } else {
      NumberBack(i, 4, true, rest);
      assert b[1..] == Little(i, 4) + rest;
    }
  }

  lemma StringBack(s: Bytes, rest: Bytes)
    requires |s| < 0x8000_0000
    ensures Unpack(PackString(s) + rest) == Good(String(s), rest)
  {
    hide Little, FromLittle, Power256;
    Powers();
    var b := PackString(s) + rest;
    TakeFront(s, rest);
    if |s| < MAX_COOKIE {
      assert b[1..] == s + rest;
    } else {
      LongStringBack(s, if |s| < 0x1_0000 then 2 else 4, b, rest);
    }
  }

  lemma LongStringBack(s: Bytes, k: nat, b: Bytes, rest: Bytes)
    requires (k == 2 || k == 4) && |s| < Power256(k) && b == [Combine(TYPE_LONG_STRING, k)] + Little(|s|, k) + s + rest
    ensures Unpack(b) == Good(String(s), rest)
  {
    hide Little, FromLittle, Power256;
    assert b[1..] == Little(|s|, k) + (s + rest);
    TakeFront(Little(|s|, k), s + rest);
    TakeFront(s, rest);
    LittleBack(|s|, k);
  }

  lemma HeadBack(n: nat, rest: Bytes)
    requires n < 0x8000_0000
    ensures var b := PackHead(n) + rest;
            b != [] && b[0] % 8 == TYPE_TABLE && ReadSize(b[1..], b[0] / 8) == Good(n, rest)
  {
    hide PackInteger, ReadInteger;
    var b := PackHead(n) + rest;
    if n >= MAX_COOKIE - 1 {
      assert b[1..] == PackInteger(n) + rest;
      IntegerBack(n, rest);
    } else {
      assert b[1..] == rest;
    }
  }

  // ---- Keys of the pairs that have been built ----

  lemma {:induction false} ArrayKeys(v: Value, i: nat, j: nat)
    requires v.Table? && i <= v.n && j < |NormalArray(v, i)|
    ensures NormalArray(v, i)[j].key.Integer? && 0 < NormalArray(v, i)[j].key.i <= i
    decreases i
  {
    if i > 0 && j < |NormalArray(v, i - 1)| { ArrayKeys(v, i - 1, j); }
  }

  lemma {:induction false} HashKeys(v: Value, k: nat, j: nat)
    requires v.Table? && k <= |v.pairs| && j < |NormalHash(v, k)|
    ensures var key := NormalHash(v, k)[j].key;
            InArray(key, v.n) || exists l :: 0 <= l < k && Normal(v.pairs[l].key) == key
    decreases k
  {
    hide Normal;
    if k == 0 {
      ArrayKeys(v, v.n, j);
    } else if j < |NormalHash(v, k - 1)| {
      HashKeys(v, k - 1, j);
    } else {
      assert Normal(v.pairs[k - 1].key) == NormalHash(v, k)[j].key;
    }
  }

  lemma SetNew(pairs: seq<Pair>, key: Value, value: Value)
    requires key.Table? || forall j :: 0 <= j < |pairs| ==> pairs[j].key != key
    ensures RawSet(pairs, key, value) == if value.Nil? then pairs else pairs + [Pair(key, value)]
  {
  }

  // ---- The round trip ----

  /** Whatever follows a packed value is left alone; so values come back one after the other. */
  lemma {:induction false} PackedBack(v: Value, depth: nat, rest: Bytes)
    requires Packable(v) && Pack(v, depth).Some?
    ensures Unpack(Pack(v, depth).value + rest) == Good(Normal(v), rest)
    decreases v, 2, 0
  {
    hide PackInteger, PackString, PackHead, ReadInteger, ReadSize, UnpackArray, UnpackHash, PackArray, PackHash, NormalHash, Find, Packable;
    var b := Pack(v, depth).value + rest;
    match v {
      case Nil => assert b[1..] == rest;
      case Boolean(_) => assert b[1..] == rest;
      case Integer(i) =>
        PackableParts(v);
        IntegerBack(i, rest);
      case Real(bits) =>
        PackableParts(v);
        assert b[1..] == bits + rest;
        TakeFront(bits, rest);
      case Pointer(bits) =>
        PackableParts(v);
        assert b[1..] == bits + rest;
        TakeFront(bits, rest);
      case String(s) =>
        PackableParts(v);
        StringBack(s, rest);
      case Table(pairs, n) => TableBack(v, depth, rest);
    }
  }

  lemma PackableParts(v: Value)
    requires Packable(v)
    ensures v.Integer? ==> FitsInt64(v.i)
    ensures v.Real? || v.Pointer? ==> |v.bits| == 8
    ensures v.String? ==> |v.s| < 0x8000_0000
  {
  }

  lemma {:induction false} TableBack(v: Value, depth: nat, rest: Bytes)
    requires v.Table? && Packable(v) && Pack(v, depth).Some?
    ensures Unpack(Pack(v, depth).value + rest) == Good(Normal(v), rest)
    decreases v, 1, 1
  {
    hide PackHead, ReadSize, UnpackArray, UnpackHash, PackArray, PackHash, NormalArray, NormalHash, Find;
    var b := Pack(v, depth).value + rest;
    var h, a, t := PackHead(v.n), PackArray(v, depth + 1, 0).value, PackHash(v, depth + 1, 0).value;
    assert b == h + (a + (t + rest));
    HeadBack(v.n, a + (t + rest));
    ArrayBack(v, depth + 1, 0, t + rest);
    NormalStart(v);
    HashBack(v, depth + 1, 0, rest);
  }

  lemma NormalStart(v: Value)
    requires v.Table?
    ensures NormalArray(v, 0) == [] && NormalHash(v, 0) == NormalArray(v, v.n)
  {
  }

  lemma {:induction false} ArrayBack(v: Value, depth: nat, i: nat, rest: Bytes)
    requires v.Table? && Packable(v) && i <= v.n && PackArray(v, depth, i).Some?
    ensures UnpackArray(PackArray(v, depth, i).value + rest, NormalArray(v, i), i, v.n) == Good(NormalArray(v, v.n), rest)
    decreases v, 0, v.n - i
  {
    hide Pack, Unpack, Find, RawSet;
    if i < v.n {
      var k := Find(v.pairs, Integer(i + 1));
      var x := if k < 0 then PackNil(depth).value else Pack(v.pairs[k].value, depth).value;
      var more := PackArray(v, depth, i + 1).value;
      var y := if k < 0 then Nil else Normal(v.pairs[k].value);
      assert PackArray(v, depth, i).value + rest == x + (more + rest);
      if k < 0 { NilBack(more + rest); } else { PackedBack(v.pairs[k].value, depth, more + rest); }
      ArraySet(v, i, y);
      ArrayBack(v, depth, i + 1, rest);
    } else {
      assert PackArray(v, depth, i).value + rest == rest;
    }
  }

  lemma NilBack(rest: Bytes)
    ensures Unpack([TYPE_NIL] + rest) == Good(Nil, rest)
  {
    assert ([TYPE_NIL] + rest)[1..] == rest;
  }

  lemma ArraySet(v: Value, i: nat, y: Value)
    requires v.Table? && i < v.n
    requires var k := Find(v.pairs, Integer(i + 1)); y == if k < 0 then Nil else Normal(v.pairs[k].value)
    ensures RawSet(NormalArray(v, i), Integer(i + 1), y) == NormalArray(v, i + 1)
  {
    hide RawSet, Find, NormalHash;
    forall j | 0 <= j < |NormalArray(v, i)| ensures NormalArray(v, i)[j].key != Integer(i + 1) { ArrayKeys(v, i, j); }
    SetNew(NormalArray(v, i), Integer(i + 1), y);
  }

  lemma {:induction false} HashBack(v: Value, depth: nat, k: nat, rest: Bytes)
    requires v.Table? && Packable(v) && k <= |v.pairs| && PackHash(v, depth, k).Some?
    ensures UnpackHash(PackHash(v, depth, k).value + rest, NormalHash(v, k)) == Good(NormalHash(v, |v.pairs|), rest)
    decreases v, 0, |v.pairs| - k
  {
    hide Pack, Unpack, RawSet, NormalArray;
    if k == |v.pairs| {
      NilBack(rest);
    } else if InArray(v.pairs[k].key, v.n) {
      HashBack(v, depth, k + 1, rest);
    } else {
      var key, value := v.pairs[k].key, v.pairs[k].value;
      var a, b, more := Pack(key, depth).value, Pack(value, depth).value, PackHash(v, depth, k + 1).value;
      assert PackHash(v, depth, k).value + rest == a + (b + (more + rest));
      PackedBack(key, depth, b + (more + rest));
      PackedBack(value, depth, more + rest);
      HashSet(v, k);
      HashBack(v, depth, k + 1, rest);
    }
  }

  lemma HashSet(v: Value, k: nat)
    requires v.Table? && Packable(v) && k < |v.pairs| && !InArray(v.pairs[k].key, v.n)
    ensures var p := NormalPair(v, k);
            !p.key.Nil? && !p.value.Nil? && RawSet(NormalHash(v, k), p.key, p.value) == NormalHash(v, k + 1)
  {
    hide RawSet, NormalArray;
    var p := NormalPair(v, k);
    NormalKeeps(v, k);
    PairParts(v, k);
    if !v.pairs[k].key.Table? {
      forall l | 0 <= l < k ensures Normal(v.pairs[l].key) != p.key { NormalKeeps(v, l); }
      forall j | 0 <= j < |NormalHash(v, k)| ensures NormalHash(v, k)[j].key != p.key { HashKeys(v, k, j); }
    }
    SetNew(NormalHash(v, k), p.key, p.value);
  }

  // ---- The same table ----

  lemma {:induction false} FindUnique(pairs: seq<Pair>, k: nat)
    requires k < |pairs| && forall j :: k < j < |pairs| ==> pairs[j].key != pairs[k].key
    ensures Find(pairs, pairs[k].key) == k
    decreases |pairs|
  {
    if k < |pairs| - 1 { FindUnique(pairs[..|pairs| - 1], k); }
  }

  lemma FindAppend(pairs: seq<Pair>, p: Pair, key: Value)
    ensures Find(pairs + [p], key) == if p.key == key then |pairs| else Find(pairs, key)
  {
    assert (pairs + [p])[..|pairs|] == pairs;
  }

  /** What has been built for a key of the array part. */
  lemma {:induction false} ArrayGets(v: Value, i: nat, key: Value)
    requires v.Table? && i <= v.n
    ensures Get(NormalArray(v, i), key) == if InArray(key, i) then Normal(Get(v.pairs, key)) else Nil
    decreases i
  {
    hide Find;
    if i > 0 {
      ArrayGets(v, i - 1, key);
      var k := Find(v.pairs, Integer(i));
      if k >= 0 { FindAppend(NormalArray(v, i - 1), Pair(Integer(i), Normal(v.pairs[k].value)), key); }
    } else {
      FindNothing(key);
    }
  }

  lemma FindNothing(key: Value)
    ensures Find([], key) == -1
  {
  }

  /** What has been built for a key that is no table, after k pairs. */
  lemma {:induction false} HashGets(v: Value, k: nat, key: Value)
    requires v.Table? && Packable(v) && k <= |v.pairs| && !key.Table?
    ensures Get(NormalHash(v, k), key) ==
            if InArray(key, v.n) then Normal(Get(v.pairs, key))
            else if Find(v.pairs, key) < k then Normal(Get(v.pairs, key)) else Nil
    decreases k
  {
    hide Find, Packable;
    if k == 0 {
      ArrayGets(v, v.n, key);
    } else {
      HashGets(v, k - 1, key);
      KeyFound(v, k - 1);
      NormalKeeps(v, k - 1);
      if !InArray(v.pairs[k - 1].key, v.n) { FindAppend(NormalHash(v, k - 1), NormalPair(v, k - 1), key); }
    }
  }

  lemma KeyFound(v: Value, k: nat)
    requires v.Table? && Packable(v) && k < |v.pairs|
    ensures !v.pairs[k].key.Table? ==> Find(v.pairs, v.pairs[k].key) == k
  {
    if !v.pairs[k].key.Table? {
      forall j | k < j < |v.pairs| ensures v.pairs[j].key != v.pairs[k].key {}
      FindUnique(v.pairs, k);
    }
  }

  /** What is unpacked has, for every key that is no table, the same value. */
  lemma SameTable(v: Value, key: Value)
    requires v.Table? && Packable(v) && !key.Table?
    ensures Get(Normal(v).pairs, key) == Normal(Get(v.pairs, key)) && Normal(v).n == v.n
  {
    HashGets(v, |v.pairs|, key);
  }

  /** The pairs whose key is a table, in order. */
  ghost function TableKeyed(pairs: seq<Pair>): (r: seq<nat>)
    ensures forall m :: 0 <= m < |r| ==> r[m] < |pairs| && pairs[r[m]].key.Table?
  {
    if pairs == [] then []
    else
      var init := pairs[..|pairs| - 1];
      TableKeyed(init) + if pairs[|pairs| - 1].key.Table? then [|init|] else []
  }

  /** Two values are the same: equal, if they are no tables; else tables of the same length, that have the same
      keys other than tables, with the same values, and as many keys that are tables, in the same order, each
      with the same value. */
  ghost predicate Same(v: Value, w: Value)
    decreases v
  {
    if !v.Table? then w == v
    else
      && w.Table? && w.n == v.n
      && (forall k :: 0 <= k < |v.pairs| && !v.pairs[k].key.Table? ==>
            var j := Find(w.pairs, v.pairs[k].key); j >= 0 && Same(v.pairs[k].value, w.pairs[j].value))
      && (forall j :: 0 <= j < |w.pairs| && !w.pairs[j].key.Table? ==> Find(v.pairs, w.pairs[j].key) >= 0)
      && var a, b := TableKeyed(v.pairs), TableKeyed(w.pairs);
         && |a| == |b|
         && forall m :: 0 <= m < |a| ==>
              Same(v.pairs[a[m]].key, w.pairs[b[m]].key) && Same(v.pairs[a[m]].value, w.pairs[b[m]].value)
  }

  lemma TableKeyedAppend(pairs: seq<Pair>, p: Pair)
    ensures TableKeyed(pairs + [p]) == TableKeyed(pairs) + if p.key.Table? then [|pairs|] else []
  {
    assert (pairs + [p])[..|pairs|] == pairs;
  }

  lemma {:induction false} NoTableKeys(v: Value, i: nat)
    requires v.Table? && i <= v.n
    ensures TableKeyed(NormalArray(v, i)) == []
    decreases i
  {
    hide Find, Normal;
    if i > 0 {
      NoTableKeys(v, i - 1);
      var k := Find(v.pairs, Integer(i));
      if k >= 0 && !v.pairs[k].value.Nil? { TableKeyedAppend(NormalArray(v, i - 1), Pair(Integer(i), Normal(v.pairs[k].value))); }
    }
  }

  /** The pairs whose key is a table come in the same order. */
  lemma {:induction false} TableKeysBack(v: Value, k: nat)
    requires v.Table? && k <= |v.pairs|
    ensures var a, b := TableKeyed(v.pairs[..k]), TableKeyed(NormalHash(v, k));
            |a| == |b| && forall m :: 0 <= m < |a| ==> NormalHash(v, k)[b[m]] == NormalPair(v, a[m])
    decreases k
  {
    hide Normal, NormalPair;
    if k == 0 {
      NoTableKeys(v, v.n);
    } else {
      TableKeysBack(v, k - 1);
      assert v.pairs[..k] == v.pairs[..k - 1] + [v.pairs[k - 1]];
      TableKeyedAppend(v.pairs[..k - 1], v.pairs[k - 1]);
      NormalKeeps(v, k - 1);
      if !InArray(v.pairs[k - 1].key, v.n) { TableKeyedAppend(NormalHash(v, k - 1), NormalPair(v, k - 1)); }
    }
  }

  lemma NormalKeeps(v: Value, k: nat)
    requires v.Table? && k < |v.pairs|
    ensures NormalPair(v, k).key.Table? <==> v.pairs[k].key.Table?
    ensures !v.pairs[k].key.Table? ==> NormalPair(v, k).key == v.pairs[k].key
  {
  }

  /** What is unpacked is the same value. */
  lemma {:induction false} SameBack(v: Value)
    requires Packable(v)
    ensures Same(v, Normal(v))
    decreases v
  {
    hide NormalHash, Find, NormalPair;
    if v.Table? {
      var w := Normal(v);
      forall k | 0 <= k < |v.pairs| && !v.pairs[k].key.Table?
        ensures var j := Find(w.pairs, v.pairs[k].key); j >= 0 && Same(v.pairs[k].value, w.pairs[j].value)
      {
        PairParts(v, k);
        SameTable(v, v.pairs[k].key);
        KeyFound(v, k);
        SameBack(v.pairs[k].value);
      }
      forall j | 0 <= j < |w.pairs| && !w.pairs[j].key.Table? ensures Find(v.pairs, w.pairs[j].key) >= 0 {
        KeyHeld(v, j);
      }
      TableKeysBack(v, |v.pairs|);
      assert v.pairs[..|v.pairs|] == v.pairs;
      var a, b := TableKeyed(v.pairs), TableKeyed(w.pairs);
      forall m | 0 <= m < |a|
        ensures Same(v.pairs[a[m]].key, w.pairs[b[m]].key) && Same(v.pairs[a[m]].value, w.pairs[b[m]].value)
      {
        PairParts(v, a[m]);
        PairIs(v, a[m]);
        SameBack(v.pairs[a[m]].key);
        SameBack(v.pairs[a[m]].value);
      }
    }
  }

  lemma PairParts(v: Value, k: nat)
    requires v.Table? && Packable(v) && k < |v.pairs|
    ensures Packable(v.pairs[k].key) && Packable(v.pairs[k].value) && !v.pairs[k].value.Nil?
    ensures !Normal(v.pairs[k].value).Nil?
  {
  }

  lemma PairIs(v: Value, k: nat)
    requires v.Table? && k < |v.pairs|
    ensures NormalPair(v, k) == Pair(Normal(v.pairs[k].key), Normal(v.pairs[k].value))
  {
  }

  /** A key that is no table and that was built is a key of the packed table. */
  lemma KeyHeld(v: Value, j: nat)
    requires v.Table? && Packable(v) && j < |Normal(v).pairs| && !Normal(v).pairs[j].key.Table?
    ensures Find(v.pairs, Normal(v).pairs[j].key) >= 0
  {
    hide NormalHash, Find, Packable;
    var key := Normal(v).pairs[j].key;
    SameTable(v, key);
    HasValue(v, |v.pairs|, j);
  }

  /** Whatever was built has a value. */
  lemma {:induction false} HasValue(v: Value, k: nat, j: nat)
    requires v.Table? && Packable(v) && k <= |v.pairs| && j < |NormalHash(v, k)| && !NormalHash(v, k)[j].key.Table?
    ensures !Get(NormalHash(v, k), NormalHash(v, k)[j].key).Nil?
    decreases k
  {
    hide Find, Packable, Normal;
    if k == 0 {
      ArrayHasValue(v, v.n, j);
    } else {
      PairParts(v, k - 1);
      var h, key := NormalHash(v, k - 1), NormalHash(v, k)[j].key;
      if j < |h| { HasValue(v, k - 1, j); }
      if !InArray(v.pairs[k - 1].key, v.n) { FindAppend(h, NormalPair(v, k - 1), key); }
    }
  }

  lemma {:induction false} ArrayHasValue(v: Value, i: nat, j: nat)
    requires v.Table? && i <= v.n && j < |NormalArray(v, i)|
    ensures !Get(NormalArray(v, i), NormalArray(v, i)[j].key).Nil?
    decreases i
  {
    hide Find;
    if i > 0 {
      var h, key, k := NormalArray(v, i - 1), NormalArray(v, i)[j].key, Find(v.pairs, Integer(i));
      if j < |h| { ArrayHasValue(v, i - 1, j); }
      if k >= 0 && !v.pairs[k].value.Nil? { FindAppend(h, Pair(Integer(i), Normal(v.pairs[k].value)), key); }
    }
  }

  // ---- Depth ----

  /** How deeply tables with elements are nested. */
  ghost function Height(v: Value): nat
    decreases v, 1
  {
    if !v.Table? || (v.n == 0 && v.pairs == []) then 0 else 1 + Highest(v, |v.pairs|)
  }

  function Max(a: nat, b: nat): nat { if a < b then b else a }

  /** The greatest height among the keys and values of the first k pairs. */
  ghost function Highest(v: Value, k: nat): nat
    requires v.Table? && k <= |v.pairs|
    decreases v, 0, k
  {
    if k == 0 then 0
    else
      Max(Highest(v, k - 1), Max(Height(v.pairs[k - 1].key), Height(v.pairs[k - 1].value)))
  }

  ghost function PairHeight(v: Value, l: nat): nat
    requires v.Table? && l < |v.pairs|
  {
    Max(Height(v.pairs[l].key), Height(v.pairs[l].value))
  }

  lemma {:induction false} HighestIs(v: Value, k: nat, limit: int)
    requires v.Table? && k <= |v.pairs|
    ensures Highest(v, k) <= limit <==> 0 <= limit && forall l :: 0 <= l < k ==> PairHeight(v, l) <= limit
    decreases k
  {
    hide Height;
    if k > 0 {
      HighestIs(v, k - 1, limit);
      assert Highest(v, k) == Max(Highest(v, k - 1), PairHeight(v, k - 1));
    }
  }

  ghost predicate Fits(v: Value, depth: nat) { depth + Height(v) <= MAX_DEPTH }

  /** Packing fails exactly when tables are nested too deeply. */
  lemma {:induction false} PackFits(v: Value, depth: nat)
    requires Packable(v)
    ensures Pack(v, depth).Some? <==> Fits(v, depth)
    decreases v, 2, 0
  {
    hide PackInteger, PackString, PackHead, Packable, Highest, PackArray, PackHash, Find;
    if v.Table? && depth <= MAX_DEPTH { TableFits(v, depth); }
  }

  lemma {:induction false} TableFits(v: Value, depth: nat)
    requires v.Table? && Packable(v) && depth <= MAX_DEPTH
    ensures PackArray(v, depth + 1, 0).Some? && PackHash(v, depth + 1, 0).Some? <==> Fits(v, depth)
    decreases v, 1, 0
  {
    hide PackArray, PackHash;
    ArrayFits(v, depth + 1, 0);
    HashFits(v, depth + 1, 0);
    PartsFit(v, depth, depth + 1);
  }

  /** Every pair is packed once, as an element or as a pair. */
  lemma PartsFit(v: Value, depth: nat, inner: nat)
    requires v.Table? && Packable(v) && depth <= MAX_DEPTH && inner == depth + 1
    ensures ElementsFit(v, inner) && PairsFit(v, inner) <==> Fits(v, depth)
  {
    hide Find, Highest, Packable;
    HighestIs(v, |v.pairs|, MAX_DEPTH - inner);
    if ElementsFit(v, inner) && PairsFit(v, inner) {
      forall l | 0 <= l < |v.pairs| ensures PairHeight(v, l) <= MAX_DEPTH - inner { OnePairFits(v, inner, l); }
      if v.n > 0 { assert ElementFits(v, inner, 1); }
      if v.pairs != [] { assert PairHeight(v, 0) <= MAX_DEPTH - inner; }
    }
    if Fits(v, depth) {
      forall l | 0 <= l < |v.pairs| ensures Fits(v.pairs[l].key, inner) && Fits(v.pairs[l].value, inner) {
        assert PairHeight(v, l) <= MAX_DEPTH - inner;
      }
    }
  }

  lemma OnePairFits(v: Value, inner: nat, l: nat)
    requires v.Table? && Packable(v) && l < |v.pairs| && ElementsFit(v, inner) && PairsFit(v, inner)
    ensures Fits(v.pairs[l].key, inner) && Fits(v.pairs[l].value, inner)
  {
    hide Find;
    if InArray(v.pairs[l].key, v.n) {
      KeyFound(v, l);
      assert v.pairs[l].key == Integer(v.pairs[l].key.i);
      assert ElementFits(v, inner, v.pairs[l].key.i);
    } else {
      assert PairFits(v, inner, l);
    }
  }

  ghost predicate ElementsFit(v: Value, depth: nat)
    requires v.Table?
  {
    forall j :: 0 < j <= v.n ==> ElementFits(v, depth, j)
  }

  ghost predicate PairsFit(v: Value, depth: nat)
    requires v.Table?
  {
    forall l :: 0 <= l < |v.pairs| && !InArray(v.pairs[l].key, v.n) ==> PairFits(v, depth, l)
  }

  ghost predicate ElementFits(v: Value, depth: nat, j: nat)
    requires v.Table?
  {
    var k := Find(v.pairs, Integer(j));
    depth <= MAX_DEPTH && (k >= 0 ==> Fits(v.pairs[k].value, depth))
  }

  ghost predicate PairFits(v: Value, depth: nat, l: nat)
    requires v.Table? && l < |v.pairs|
  {
    depth <= MAX_DEPTH && Fits(v.pairs[l].key, depth) && Fits(v.pairs[l].value, depth)
  }

  lemma {:induction false} ArrayFits(v: Value, depth: nat, i: nat)
    requires v.Table? && Packable(v) && i <= v.n
    ensures PackArray(v, depth, i).Some? <==> forall j :: i < j <= v.n ==> ElementFits(v, depth, j)
    decreases v, 0, v.n - i
  {
    hide Pack, Find, Height;
    if i < v.n {
      ArrayFits(v, depth, i + 1);
      var k := Find(v.pairs, Integer(i + 1));
      if k >= 0 { PackFits(v.pairs[k].value, depth); }
      var first := if k < 0 then PackNil(depth) else Pack(v.pairs[k].value, depth);
      assert ElementFits(v, depth, i + 1) ==> first.Some?;
      assert first.Some? && k >= 0 ==> depth <= MAX_DEPTH;
    }
  }

  lemma {:induction false} HashFits(v: Value, depth: nat, k: nat)
    requires v.Table? && Packable(v) && k <= |v.pairs|
    ensures PackHash(v, depth, k).Some? <==> forall l :: k <= l < |v.pairs| && !InArray(v.pairs[l].key, v.n) ==> PairFits(v, depth, l)
    decreases v, 0, |v.pairs| - k
  {
    hide Pack;
    if k < |v.pairs| {
      HashFits(v, depth, k + 1);
      PackFits(v.pairs[k].key, depth);
      PackFits(v.pairs[k].value, depth);
    }
  }

  // ---- Lists of values ----

  /** luaseri_pack: all values, one after the other. */
  ghost function PackAll(vs: seq<Value>): Option<Bytes>
    requires forall k :: 0 <= k < |vs| ==> Packable(vs[k])
  {
    if vs == [] then Some([]) else Both(PackAll(vs[..|vs| - 1]), Pack(vs[|vs| - 1], 0))
  }

  /** luaseri_unpack: values until the end of the stream. */
  ghost function UnpackAll(b: Bytes): Option<seq<Value>>
    decreases |b|
  {
    if b == [] then Some([])
    else
      match Unpack(b)
      case Bad => None
      case Good(v, rest) =>
        match UnpackAll(rest)
        case None => None
        case Some(vs) => Some([v] + vs)
  }

  ghost function NormalAll(vs: seq<Value>): (r: seq<Value>)
    ensures |r| == |vs| && forall k :: 0 <= k < |vs| ==> r[k] == Normal(vs[k])
  {
    seq(|vs|, k requires 0 <= k < |vs| => Normal(vs[k]))
  }

  lemma {:induction false} UnpackSome(vs: seq<Value>, rest: Bytes)
    requires forall k :: 0 <= k < |vs| ==> Packable(vs[k])
    requires PackAll(vs).Some? && UnpackAll(rest).Some?
    ensures UnpackAll(PackAll(vs).value + rest) == Some(NormalAll(vs) + UnpackAll(rest).value)
    decreases |vs|
  {
    hide Pack, Unpack, Normal, UnpackAll;
    if vs == [] {
      assert PackAll(vs).value + rest == rest;
      assert NormalAll(vs) + UnpackAll(rest).value == UnpackAll(rest).value;
    } else {
      var init, last := vs[..|vs| - 1], vs[|vs| - 1];
      var a, b := PackAll(init).value, Pack(last, 0).value;
      PackedBack(last, 0, rest);
      UnpackFirst(b + rest, Normal(last), rest);
      UnpackSome(init, b + rest);
      assert PackAll(vs).value + rest == a + (b + rest);
      assert NormalAll(init) + ([Normal(last)] + UnpackAll(rest).value) == NormalAll(vs) + UnpackAll(rest).value;
    }
  }

  lemma UnpackFirst(b: Bytes, v: Value, rest: Bytes)
    requires Unpack(b) == Good(v, rest) && UnpackAll(rest).Some?
    ensures UnpackAll(b) == Some([v] + UnpackAll(rest).value)
  {
    Unpacks(b);
  }

  lemma Unpacks(b: Bytes)
    ensures Unpack(b).Good? ==> b != []
  {
  }

  /** The round trip: every list of values that are not nested too deeply comes back the same. */
  lemma RoundTrip(vs: seq<Value>)
    requires forall k :: 0 <= k < |vs| ==> Packable(vs[k])
    ensures PackAll(vs).Some? <==> forall k :: 0 <= k < |vs| ==> Height(vs[k]) <= MAX_DEPTH
    ensures PackAll(vs).Some? ==> UnpackAll(PackAll(vs).value) == Some(NormalAll(vs))
    ensures forall k :: 0 <= k < |vs| ==> Same(vs[k], NormalAll(vs)[k])
  {
    forall k | 0 <= k < |vs| ensures Same(vs[k], NormalAll(vs)[k]) { SameBack(vs[k]); }
    hide Same, Packable, Pack, Unpack, PackAll, UnpackAll, Height, Normal;
    PackAllFits(vs);
    UnpackNone();
    if PackAll(vs).Some? {
      UnpackSome(vs, []);
      assert PackAll(vs).value + [] == PackAll(vs).value;
      assert NormalAll(vs) + [] == NormalAll(vs);
    }
  }

  lemma UnpackNone()
    ensures UnpackAll([]) == Some([])
  {
  }

  lemma {:induction false} PackAllFits(vs: seq<Value>)
    requires forall k :: 0 <= k < |vs| ==> Packable(vs[k])
    ensures PackAll(vs).Some? <==> forall k :: 0 <= k < |vs| ==> Height(vs[k]) <= MAX_DEPTH
    decreases |vs|
  {
    hide Pack, Height, Packable;
    if vs != [] {
      var init := vs[..|vs| - 1];
      PackAllFits(init);
      PackFits(vs[|vs| - 1], 0);
      assert forall k :: 0 <= k < |init| ==> init[k] == vs[k];
    }
  }
}
