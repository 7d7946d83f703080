/** The streams of skynet/lualib-src/lua-seri.c beyond the round trip: what a stream says does not depend
    on what follows it, a stream that is cut short is refused, integers and strings take the fewest
    bytes, and whatever is unpacked can be packed again. */
module SeriExact {
  import opened SeriFormat
  import opened SeriRoundTrip
  import opened Remainders

  // ---- Numbers in memory order ----

  /** Byte j of a number is the digit of weight 256^j. */
  lemma {:induction false} LittleDigit(n: nat, k: nat, j: nat)
    requires j < k
    ensures Little(n, k)[j] == n / Power256(j) % 256
    decreases k
  {
    if j > 0 {
      LittleDigit(n / 256, k - 1, j - 1);
      Quotients(n, Power256(j - 1));
    }
  }

  lemma Quotients(n: nat, m: nat)
    requires m > 0
    ensures n / 256 / m == n / (256 * m)
  {
    var a := n / 256;
    var q, r := a / m, n % 256 + 256 * (a % m);
    assert a == q * m + a % m;
    assert n == 256 * (q * m + a % m) + n % 256 == q * (256 * m) + r;
    assert r < 256 * m by { assert a % m <= m - 1; }
    Divides(n, 256 * m, q, r);
  }

  lemma Divides(n: nat, m: nat, q: nat, r: nat)
    requires n == q * m + r && r < m
    ensures n / m == q
  {
    DivUnique(n, m, q, r);
  }

  lemma {:induction false} FromLittleBelow(b: Bytes)
    ensures FromLittle(b) < Power256(|b|)
    decreases |b|
  {
    if b != [] { FromLittleBelow(b[1..]); }
  }

  /** A number is written in one way. */
  lemma {:induction false} LittleOnly(b: Bytes)
    ensures Little(FromLittle(b), |b|) == b
    decreases |b|
  {
    if b != [] {
      LittleOnly(b[1..]);
      var n := FromLittle(b[1..]);
      assert (b[0] as int + 256 * n) % 256 == b[0] && (b[0] as int + 256 * n) / 256 == n;
      assert b == [b[0]] + b[1..];
    }
  }

  // ---- What follows does not matter ----

  predicate SameRead<T(==)>(r: Read<T>, after: Read<T>, more: Bytes)
  {
    r.Good? ==> after == Good(r.value, r.rest + more)
  }

  lemma TakeMore(b: Bytes, n: nat, more: Bytes)
    ensures SameRead(Take(b, n), Take(b + more, n), more)
  {
    if n <= |b| { assert (b + more)[..n] == b[..n] && (b + more)[n..] == b[n..] + more; }
  }

  lemma NumberMore(b: Bytes, k: nat, signed: bool, more: Bytes)
    ensures SameRead(ReadNumber(b, k, signed), ReadNumber(b + more, k, signed), more)
  {
    TakeMore(b, k, more);
  }

  lemma IntegerMore(b: Bytes, cookie: nat, more: Bytes)
    ensures SameRead(ReadInteger(b, cookie), ReadInteger(b + more, cookie), more)
  {
    hide ReadNumber;
    NumberMore(b, 1, false, more);
    NumberMore(b, 2, false, more);
    NumberMore(b, 4, true, more);
    NumberMore(b, 8, true, more);
  }

  lemma StringMore(b: Bytes, n: nat, more: Bytes)
    ensures SameRead(ReadString(b, n), ReadString(b + more, n), more)
  {
    TakeMore(b, n, more);
  }

  lemma LongStringMore(b: Bytes, k: nat, more: Bytes)
    ensures SameRead(ReadLongString(b, k), ReadLongString(b + more, k), more)
  {
    TakeMore(b, k, more);
    if b' :| Take(b, k) == b' && b'.Good? { StringMore(b'.rest, FromLittle(b'.value), more); }
  }

  lemma SizeMore(b: Bytes, cookie: nat, more: Bytes)
    ensures SameRead(ReadSize(b, cookie), ReadSize(b + more, cookie), more)
  {
    hide ReadInteger;
    if b != [] {
      assert (b + more)[1..] == b[1..] + more;
      IntegerMore(b[1..], b[0] / 8, more);
    }
  }

  /** A value that has been read is read in the same way from any longer stream. */
  lemma {:induction false} UnpackMore(b: Bytes, more: Bytes)
    ensures SameRead(Unpack(b), Unpack(b + more), more)
    decreases |b|, 1
  {
    hide PushValue;
    if b != [] {
      assert (b + more)[1..] == b[1..] + more;
      ValueMore(b[1..], b[0] % 8, b[0] / 8, more);
    }
  }

  lemma {:induction false} ValueMore(b: Bytes, t: nat, cookie: nat, more: Bytes)
    ensures SameRead(PushValue(b, t, cookie), PushValue(b + more, t, cookie), more)
    decreases |b|, 3
  {
    hide Take, ReadInteger, ReadString, ReadLongString, ReadSize, UnpackArray, UnpackHash;
    TakeMore(b, 8, more);
    IntegerMore(b, cookie, more);
    StringMore(b, cookie, more);
    LongStringMore(b, 2, more);
    LongStringMore(b, 4, more);
    if t == TYPE_TABLE && ReadSize(b, cookie).Good? {
      var n, rest := ReadSize(b, cookie).value, ReadSize(b, cookie).rest;
      SizeMore(b, cookie, more);
      ArrayMore(rest, [], 0, n, more);
      var a := UnpackArray(rest, [], 0, n);
      if a.Good? { HashMore(a.rest, a.value, more); }
    }
  }

  lemma {:induction false} ArrayMore(b: Bytes, pairs: seq<Pair>, i: nat, n: int, more: Bytes)
    ensures SameRead(UnpackArray(b, pairs, i, n), UnpackArray(b + more, pairs, i, n), more)
    decreases |b|, 2
  {
    hide Unpack, RawSet;
    if i < n {
      UnpackMore(b, more);
      var r := Unpack(b);
      if r.Good? { ArrayMore(r.rest, RawSet(pairs, Integer(i + 1), r.value), i + 1, n, more); }
    }
  }

  lemma {:induction false} HashMore(b: Bytes, pairs: seq<Pair>, more: Bytes)
    ensures SameRead(UnpackHash(b, pairs), UnpackHash(b + more, pairs), more)
    decreases |b|, 2
  {
    hide Unpack, RawSet;
    UnpackMore(b, more);
    var key := Unpack(b);
    if key.Good? && !key.value.Nil? {
      UnpackMore(key.rest, more);
      var v := Unpack(key.rest);
      if v.Good? { HashMore(v.rest, RawSet(pairs, key.value, v.value), more); }
    }
  }

  /** A packed value that is cut short is refused, wherever it is cut. */
  lemma CutIsRefused(v: Value, depth: nat, k: nat)
    requires Packable(v) && Pack(v, depth).Some? && k < |Pack(v, depth).value|
    ensures Unpack(Pack(v, depth).value[..k]).Bad?
  {
    hide Unpack, Pack, Packable;
    var p := Pack(v, depth).value;
    PackedBack(v, depth, []);
    UnpackMore(p[..k], p[k..]);
    assert p[..k] + p[k..] == p && p + [] == p;
  }

  // ---- The fewest bytes ----

  /** Of all streams that stand for an integer, the one that is written is the shortest, and the only one
      of its length. */
  lemma ShortestInteger(i: int, b: Bytes)
    requires FitsInt64(i)
    ensures Unpack(b) == Good(Integer(i), []) && |b| <= |PackInteger(i)| <==> b == PackInteger(i)
  {
    hide PackInteger, Unpack;
    if b == PackInteger(i) {
      IntegerUnpacks(i);
    } else if Unpack(b) == Good(Integer(i), []) && |b| <= |PackInteger(i)| {
      IntegerForm(b, i);
      NoShorter(i, b);
    }
  }

  lemma IntegerUnpacks(i: int)
    requires FitsInt64(i)
    ensures Unpack(PackInteger(i)) == Good(Integer(i), [])
  {
    hide PackInteger, ReadInteger;
    IntegerBack(i, []);
    assert PackInteger(i) + [] == PackInteger(i);
  }

  function Width(cookie: nat): nat
  {
    if cookie == NUMBER_BYTE then 1 else if cookie == NUMBER_WORD then 2 else if cookie == NUMBER_DWORD then 4
    else if cookie == NUMBER_QWORD then 8 else 0
  }

  /** How a stream may stand for an integer: a width, and the number in that many bytes. */
  ghost predicate Form(b: Bytes, i: int)
  {
    && b != [] && b[0] % 8 == TYPE_NUMBER && b[0] / 8 in {NUMBER_ZERO, NUMBER_BYTE, NUMBER_WORD, NUMBER_DWORD, NUMBER_QWORD}
    && |b| == 1 + Width(b[0] / 8)
    && var n := FromLittle(b[1..]);
       i == if b[0] / 8 >= NUMBER_DWORD then Signed(n, Power256(|b| - 1)) else n
  }

  lemma IntegerForm(b: Bytes, i: int)
    requires Unpack(b) == Good(Integer(i), [])
    ensures Form(b, i)
  {
    hide FromLittle, Power256, ReadString, ReadLongString, ReadSize, UnpackArray, UnpackHash, Signed;
    var t, cookie, c := b[0] % 8, b[0] / 8, b[1..];
    assert Unpack(b) == PushValue(c, t, cookie);
    assert t == TYPE_NUMBER by { OnlyNumbers(c, t, cookie); }
    assert ReadInteger(c, cookie) == Good(i, []);
    if cookie == NUMBER_ZERO { NoNumber(c); } else { assert c[..Width(cookie)] == c; }
  }

  lemma NoNumber(c: Bytes)
    ensures FromLittle([]) == 0
  {
  }

  lemma OnlyNumbers(c: Bytes, t: nat, cookie: nat)
    requires PushValue(c, t, cookie).Good? && PushValue(c, t, cookie).value.Integer?
    ensures t == TYPE_NUMBER
  {
    hide ReadSize, UnpackArray, UnpackHash, ReadInteger;
  }

  lemma NoShorter(i: int, b: Bytes)
    requires FitsInt64(i) && Form(b, i) && |b| <= |PackInteger(i)|
    ensures b == PackInteger(i)
  {
    hide Little, FromLittle;
    var c := b[1..];
    Powers();
    FromLittleBelow(c);
    LittleOnly(c);
    assert b == [b[0]] + c;
    assert b[0] == Combine(TYPE_NUMBER, b[0] / 8);
    FormIs(i, b[0] / 8, FromLittle(c));
  }

  /** The width and the bytes are the ones that are written. */
  lemma FormIs(i: int, cookie: nat, n: nat)
    requires FitsInt64(i) && cookie in {NUMBER_ZERO, NUMBER_BYTE, NUMBER_WORD, NUMBER_DWORD, NUMBER_QWORD}
    requires n < Power256(Width(cookie)) && 1 + Width(cookie) <= |PackInteger(i)|
    requires i == if cookie >= NUMBER_DWORD then Signed(n, Power256(Width(cookie))) else n
    ensures PackInteger(i) == [Combine(TYPE_NUMBER, cookie)] + Little(n, Width(cookie))
  {
    hide Little, Power256;
    assert Power256(0) == 1 by { NoDigits(); }
    Powers();
    if i == 0 { assert Little(n, 0) == []; }
  }

  lemma NoDigits()
    ensures Power256(0) == 1
  {
  }

  /** Of all streams that stand for a string, the one that is written is the shortest, and the only one of
      its length. */
  lemma ShortestString(s: Bytes, b: Bytes)
    requires |s| < 0x8000_0000
    ensures Unpack(b) == Good(String(s), []) && |b| <= |PackString(s)| <==> b == PackString(s)
  {
    hide PackString, Unpack;
    if b == PackString(s) {
      StringBack(s, []);
      assert PackString(s) + [] == PackString(s);
    } else if Unpack(b) == Good(String(s), []) && |b| <= |PackString(s)| {
      StringForm(b, s);
      NoShorterString(s, b);
    }
  }

  /** How a stream may stand for a string. */
  ghost predicate LongForm(b: Bytes, s: Bytes, k: nat)
    requires k < 32
  {
    b == [Combine(TYPE_LONG_STRING, k)] + Little(|s|, k) + s && |s| < Power256(k)
  }

  ghost predicate StringIn(b: Bytes, s: Bytes)
  {
    || (|s| < MAX_COOKIE && b == [Combine(TYPE_SHORT_STRING, |s|)] + s)
    || LongForm(b, s, 2) || LongForm(b, s, 4)
  }

  lemma StringForm(b: Bytes, s: Bytes)
    requires Unpack(b) == Good(String(s), [])
    ensures StringIn(b, s)
  {
    hide FromLittle, Power256, ReadInteger, ReadLongString, ReadSize, UnpackArray, UnpackHash, LongForm;
    var t, cookie, c := b[0] % 8, b[0] / 8, b[1..];
    assert b == [b[0]] + c && b[0] == Combine(t, cookie);
    assert Unpack(b) == PushValue(c, t, cookie);
    OnlyStrings(c, t, cookie);
    if t == TYPE_SHORT_STRING {
      assert c[..cookie] == c;
    } else {
      LongStringForm(b, c, cookie, s);
    }
  }

  lemma OnlyStrings(c: Bytes, t: nat, cookie: nat)
    requires PushValue(c, t, cookie).Good? && PushValue(c, t, cookie).value.String?
    ensures t == TYPE_SHORT_STRING || (t == TYPE_LONG_STRING && (cookie == 2 || cookie == 4))
  {
    hide ReadSize, UnpackArray, UnpackHash, ReadInteger;
  }

  lemma LongStringForm(b: Bytes, c: Bytes, k: nat, s: Bytes)
    requires k < 32 && b == [Combine(TYPE_LONG_STRING, k)] + c && ReadLongString(c, k) == Good(String(s), [])
    ensures LongForm(b, s, k)
  {
    hide FromLittle, Power256, Little;
    var n, rest := c[..k], c[k..];
    assert FromLittle(n) == |s| && rest == s;
    FromLittleBelow(n);
    LittleOnly(n);
    assert c == n + rest;
  }

  lemma NoShorterString(s: Bytes, b: Bytes)
    requires |s| < 0x8000_0000 && StringIn(b, s) && |b| <= |PackString(s)|
    ensures b == PackString(s)
  {
    hide Little, Power256;
    Powers();
  }

  // ---- Whatever is unpacked can be packed ----

  ghost predicate PairsPackable(pairs: seq<Pair>)
  {
    && (forall k :: 0 <= k < |pairs| ==>
          && !pairs[k].key.Nil? && !pairs[k].value.Nil?
          && Packable(pairs[k].key) && Packable(pairs[k].value))
    && (forall j, k :: 0 <= j < k < |pairs| && !pairs[k].key.Table? ==> pairs[j].key != pairs[k].key)
  }

  lemma TablePackable(pairs: seq<Pair>, n: nat)
    requires n < 0x8000_0000 && PairsPackable(pairs)
    ensures Packable(Table(pairs, n))
  {
  }

  lemma NoPairs()
    ensures PairsPackable([])
  {
  }

  /** lua_rawset keeps the keys different and drops nils. */
  lemma RawSetKeeps(pairs: seq<Pair>, key: Value, value: Value)
    requires PairsPackable(pairs) && Packable(key) && Packable(value) && !key.Nil?
    ensures PairsPackable(RawSet(pairs, key, value))
  {
    hide Packable, Find;
  }

  lemma IntegerFits(b: Bytes, cookie: nat)
    requires ReadInteger(b, cookie).Good?
    ensures FitsInt64(ReadInteger(b, cookie).value)
  {
    hide FromLittle, Power256;
    Powers();
    assert Width(cookie) <= |b| by { Enough(b, cookie); }
    FromLittleBelow(b[..Width(cookie)]);
  }

  lemma Enough(b: Bytes, cookie: nat)
    requires ReadInteger(b, cookie).Good?
    ensures Width(cookie) <= |b|
  {
    hide FromLittle, Power256;
  }

  lemma SizeFits(b: Bytes, cookie: nat)
    requires cookie < 32 && ReadSize(b, cookie).Good?
    ensures ReadSize(b, cookie).value < 0x8000_0000
  {
    hide ReadInteger;
  }

  lemma StringFits(b: Bytes, cookie: nat)
    requires |b| < 0x8000_0000
    ensures ReadString(b, cookie).Good? ==> Packable(ReadString(b, cookie).value)
    ensures ReadLongString(b, cookie).Good? ==> Packable(ReadLongString(b, cookie).value)
  {
    hide FromLittle;
  }

  /** What is unpacked from less than 2^31 bytes, whatever they are, is a value that may be packed: its
      integers fit, and in its tables no key is nil or comes twice, and no value is nil. */
  lemma {:induction false} UnpackedIsPackable(b: Bytes)
    requires |b| < 0x8000_0000
    ensures Unpack(b).Good? ==> Packable(Unpack(b).value)
    decreases |b|, 1
  {
    hide PushValue, Packable;
    if b != [] { PushedIsPackable(b[1..], b[0] % 8, b[0] / 8); }
  }

  lemma {:induction false} PushedIsPackable(b: Bytes, t: nat, cookie: nat)
    requires |b| < 0x8000_0000 && cookie < 32
    ensures PushValue(b, t, cookie).Good? ==> Packable(PushValue(b, t, cookie).value)
    decreases |b|, 3
  {
    hide ReadInteger, ReadString, ReadLongString, ReadSize, UnpackArray, UnpackHash, PairsPackable;
    StringFits(b, if t == TYPE_SHORT_STRING then cookie else if cookie == 2 then 2 else 4);
    if t == TYPE_NUMBER && ReadInteger(b, cookie).Good? { IntegerFits(b, cookie); }
    if t == TYPE_TABLE && ReadSize(b, cookie).Good? {
      SizeFits(b, cookie);
      var n, rest := ReadSize(b, cookie).value, ReadSize(b, cookie).rest;
      NoPairs();
      ArrayIsPackable(rest, [], 0, n);
      var a := UnpackArray(rest, [], 0, n);
      if a.Good? {
        HashIsPackable(a.rest, a.value);
        var h := UnpackHash(a.rest, a.value);
        if h.Good? { TablePackable(h.value, if n < 0 then 0 else n); }
      }
    }
  }

  lemma {:induction false} ArrayIsPackable(b: Bytes, pairs: seq<Pair>, i: nat, n: int)
    requires |b| < 0x8000_0000 && n < 0x8000_0000 && PairsPackable(pairs)
    ensures UnpackArray(b, pairs, i, n).Good? ==> PairsPackable(UnpackArray(b, pairs, i, n).value)
    decreases |b|, 2
  {
    hide Unpack, RawSet, PairsPackable;
    if i < n {
      var r := Unpack(b);
      if r.Good? {
        UnpackedIsPackable(b);
        RawSetKeeps(pairs, Integer(i + 1), r.value);
        ArrayIsPackable(r.rest, RawSet(pairs, Integer(i + 1), r.value), i + 1, n);
      }
    }
  }

  lemma {:induction false} HashIsPackable(b: Bytes, pairs: seq<Pair>)
    requires |b| < 0x8000_0000 && PairsPackable(pairs)
    ensures UnpackHash(b, pairs).Good? ==> PairsPackable(UnpackHash(b, pairs).value)
    decreases |b|, 2
  {
    hide Unpack, RawSet, PairsPackable, Packable;
    var key := Unpack(b);
    if key.Good? && !key.value.Nil? {
      UnpackedIsPackable(b);
      UnpackedIsPackable(key.rest);
      var v := Unpack(key.rest);
      if v.Good? {
        RawSetKeeps(pairs, key.value, v.value);
        HashIsPackable(v.rest, RawSet(pairs, key.value, v.value));
      }
    }
  }
}
