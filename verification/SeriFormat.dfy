/** The format of skynet/lualib-src/lua-seri.c: what is written for a value, and what is read back. */
module SeriFormat {

  datatype Option<T> = None | Some(value: T)

  type Byte = x: int | 0 <= x < 256
  type Bytes = seq<Byte>

  const MAX_COOKIE: nat := 32
  const MAX_DEPTH: nat := 32

  const TYPE_NIL: nat := 0
  const TYPE_BOOLEAN: nat := 1
  const TYPE_NUMBER: nat := 2
  const TYPE_USERDATA: nat := 3
  const TYPE_SHORT_STRING: nat := 4
  const TYPE_LONG_STRING: nat := 5
  const TYPE_TABLE: nat := 6

  const NUMBER_ZERO: nat := 0
  const NUMBER_BYTE: nat := 1
  const NUMBER_WORD: nat := 2
  const NUMBER_DWORD: nat := 4
  const NUMBER_QWORD: nat := 6
  const NUMBER_REAL: nat := 8

  /** A Lua value.  Reals and light userdata are the eight bytes of their representation.  A table has
      its pairs, in the order of lua_next, and its length. */
  datatype Value =
    | Nil
    | Boolean(b: bool)
    | Integer(i: int)
    | Real(bits: Bytes)
    | Pointer(bits: Bytes)
    | String(s: Bytes)
    | Table(pairs: seq<Pair>, n: nat)

  datatype Pair = Pair(key: Value, value: Value)

  // ---- Numbers in memory order ----

  function Little(n: nat, k: nat): (r: Bytes)
    ensures |r| == k
    decreases k
  {
    if k == 0 then [] else [n % 256] + Little(n / 256, k - 1)
  }

  function FromLittle(b: Bytes): nat
    decreases |b|
  {
    if b == [] then 0 else b[0] as int + 256 * FromLittle(b[1..])
  }

  function Power256(k: nat): (r: nat)
    ensures r > 0
  {
    if k == 0 then 1 else 256 * Power256(k - 1)
  }

  lemma {:induction false} LittleBack(n: nat, k: nat)
    requires n < Power256(k)
    ensures FromLittle(Little(n, k)) == n
    decreases k
  {
    if k > 0 {
      LittleBack(n / 256, k - 1);
      assert Little(n, k)[1..] == Little(n / 256, k - 1);
    }
  }

  lemma Powers()
    ensures Power256(1) == 0x100 && Power256(2) == 0x1_0000
    ensures Power256(4) == 0x1_0000_0000 && Power256(8) == 0x1_0000_0000_0000_0000
  {
    assert Power256(1) == 256 * Power256(0);
    assert Power256(2) == 256 * Power256(1);
    assert Power256(3) == 256 * Power256(2);
    assert Power256(4) == 256 * Power256(3);
    assert Power256(5) == 256 * Power256(4);
    assert Power256(6) == 256 * Power256(5);
    assert Power256(7) == 256 * Power256(6);
    assert Power256(8) == 256 * Power256(7);
  }

  /** Two's complement in a word of m values. */
  function Unsigned(i: int, m: nat): nat
    requires m > 0 && -(m as int) <= i < m
  {
    if i < 0 then i + m else i
  }

  function Signed(n: nat, m: nat): int { if 2 * n < m then n else n - m }

  predicate FitsInt32(i: int) { -0x8000_0000 <= i < 0x8000_0000 }

  predicate FitsInt64(i: int) { -0x8000_0000_0000_0000 <= i < 0x8000_0000_0000_0000 }

  // ---- Writing ----

  /** COMBINE_TYPE. */
  function Combine(t: nat, v: nat): Byte
    requires t < 8 && v < 32
  {
    t + v * 8
  }

  /** wb_integer. */
  function PackInteger(i: int): Bytes
    requires FitsInt64(i)
  {
    if i == 0 then [Combine(TYPE_NUMBER, NUMBER_ZERO)]
    else if !FitsInt32(i) then [Combine(TYPE_NUMBER, NUMBER_QWORD)] + Little(Unsigned(i, 0x1_0000_0000_0000_0000), 8)
    else if i < 0 then [Combine(TYPE_NUMBER, NUMBER_DWORD)] + Little(Unsigned(i, 0x1_0000_0000), 4)
    else if i < 0x100 then [Combine(TYPE_NUMBER, NUMBER_BYTE)] + Little(i, 1)
    else if i < 0x1_0000 then [Combine(TYPE_NUMBER, NUMBER_WORD)] + Little(i, 2)
    else [Combine(TYPE_NUMBER, NUMBER_DWORD)] + Little(i, 4)
  }

  /** wb_string. */
  function PackString(s: Bytes): Bytes
    requires |s| < 0x8000_0000
  {
    if |s| < MAX_COOKIE then [Combine(TYPE_SHORT_STRING, |s|)] + s
    else if |s| < 0x1_0000 then [Combine(TYPE_LONG_STRING, 2)] + Little(|s|, 2) + s
    else [Combine(TYPE_LONG_STRING, 4)] + Little(|s|, 4) + s
  }

  /** The head of a table: its array size, in the type byte or behind it. */
  function PackHead(n: nat): Bytes
    requires n < 0x8000_0000
  {
    if n >= MAX_COOKIE - 1 then [Combine(TYPE_TABLE, MAX_COOKIE - 1)] + PackInteger(n) else [Combine(TYPE_TABLE, n)]
  }

  /** The pair with a given key. */
  function Find(pairs: seq<Pair>, key: Value): (r: int)
    ensures -1 <= r < |pairs| && (r >= 0 ==> pairs[r].key == key)
    ensures r < 0 ==> forall k :: 0 <= k < |pairs| ==> pairs[k].key != key
  {
    if pairs == [] then -1
    else if pairs[|pairs| - 1].key == key then |pairs| - 1
    else Find(pairs[..|pairs| - 1], key)
  }

  /** lua_rawget. */
  function Get(pairs: seq<Pair>, key: Value): (v: Value)
  {
    var k := Find(pairs, key);
    if k < 0 then Nil else pairs[k].value
  }

  predicate InArray(key: Value, n: nat) { key.Integer? && 0 < key.i <= n }

  /** A value that the source may be asked to pack: keys are all different, where every table is a key of
      its own, and no pair has a nil.  Sizes fit an `int`. */
  ghost predicate Packable(v: Value)
    decreases v
  {
    match v
    case Integer(i) => FitsInt64(i)
    case Real(bits) => |bits| == 8
    case Pointer(bits) => |bits| == 8
    case String(s) => |s| < 0x8000_0000
    case Table(pairs, n) =>
      && n < 0x8000_0000
      && (forall k :: 0 <= k < |pairs| ==>
            && !pairs[k].key.Nil? && !pairs[k].value.Nil?
            && Packable(pairs[k].key) && Packable(pairs[k].value))
      && (forall j, k :: 0 <= j < k < |pairs| && !pairs[k].key.Table? ==> pairs[j].key != pairs[k].key)
    case _ => true
  }

  /** pack_one: nothing when the nesting is too deep. */
  ghost function Pack(v: Value, depth: nat): Option<Bytes>
    requires Packable(v)
    decreases v, 2, 0
  {
    if depth > MAX_DEPTH then None
    else
      match v
      case Nil => Some([TYPE_NIL])
      case Boolean(b) => Some([Combine(TYPE_BOOLEAN, if b then 1 else 0)])
      case Integer(i) => Some(PackInteger(i))
      case Real(bits) => Some([Combine(TYPE_NUMBER, NUMBER_REAL)] + bits)
      case Pointer(bits) => Some([TYPE_USERDATA] + bits)
      case String(s) => Some(PackString(s))
      case Table(pairs, n) =>
        Both(Some(PackHead(n)), Both(PackArray(v, depth + 1, 0), PackHash(v, depth + 1, 0)))
  }

  function Both(a: Option<Bytes>, b: Option<Bytes>): Option<Bytes>
  {
    if a.Some? && b.Some? then Some(a.value + b.value) else None
  }

  /** wb_table_array, from element i on. */
  ghost function PackArray(v: Value, depth: nat, i: nat): Option<Bytes>
    requires v.Table? && Packable(v) && i <= v.n
    decreases v, 1, v.n - i
  {
    if i == v.n then Some([])
    else
      var k := Find(v.pairs, Integer(i + 1));
      Both(if k < 0 then PackNil(depth) else Pack(v.pairs[k].value, depth), PackArray(v, depth, i + 1))
  }

  function PackNil(depth: nat): Option<Bytes> { if depth > MAX_DEPTH then None else Some([TYPE_NIL]) }

  /** wb_table_hash, from pair k on. */
  ghost function PackHash(v: Value, depth: nat, k: nat): Option<Bytes>
    requires v.Table? && Packable(v) && k <= |v.pairs|
    decreases v, 1, |v.pairs| - k
  {
    if k == |v.pairs| then Some([TYPE_NIL])
    else if InArray(v.pairs[k].key, v.n) then PackHash(v, depth, k + 1)
    else Both(Both(Pack(v.pairs[k].key, depth), Pack(v.pairs[k].value, depth)), PackHash(v, depth, k + 1))
  }

  // ---- Reading ----

  /** A value and what follows it; nothing for a malformed stream. */
  datatype Read<T> = Bad | Good(value: T, rest: Bytes)

  /** rb_read. */
  function Take(b: Bytes, n: nat): (r: Read<Bytes>)
    ensures r.Good? ==> |r.value| == n && |r.rest| == |b| - n
  {
    if |b| < n then Bad else Good(b[..n], b[n..])
  }

  /** get_integer. */
  function ReadInteger(b: Bytes, cookie: nat): (r: Read<int>)
    ensures r.Good? ==> |r.rest| <= |b|
  {
    if cookie == NUMBER_ZERO then Good(0, b)
    else if cookie == NUMBER_BYTE then ReadNumber(b, 1, false)
    else if cookie == NUMBER_WORD then ReadNumber(b, 2, false)
    else if cookie == NUMBER_DWORD then ReadNumber(b, 4, true)
    else if cookie == NUMBER_QWORD then ReadNumber(b, 8, true)
    else Bad
  }

  function ReadNumber(b: Bytes, k: nat, signed: bool): (r: Read<int>)
    ensures r.Good? ==> |r.rest| <= |b|
  {
    match Take(b, k)
    case Bad => Bad
    case Good(n, rest) => Good(if signed then Signed(FromLittle(n), Power256(k)) else FromLittle(n), rest)
  }

  /** get_buffer. */
  function ReadString(b: Bytes, n: nat): (r: Read<Value>)
    ensures r.Good? ==> |r.rest| <= |b|
  {
    match Take(b, n)
    case Bad => Bad
    case Good(s, rest) => Good(String(s), rest)
  }

  function ReadLongString(b: Bytes, k: nat): (r: Read<Value>)
    ensures r.Good? ==> |r.rest| <= |b|
  {
    match Take(b, k)
    case Bad => Bad
    case Good(n, rest) => ReadString(rest, FromLittle(n))
  }

  /** lua_rawset; a table is never the same key as another. */
  function RawSet(pairs: seq<Pair>, key: Value, value: Value): seq<Pair>
  {
    var k := if key.Table? then -1 else Find(pairs, key);
    if k < 0 then (if value.Nil? then pairs else pairs + [Pair(key, value)])
    else if value.Nil? then pairs[..k] + pairs[k + 1..]
    else pairs[k := Pair(key, value)]
  }

  /** The cast of a lua_Integer to int. */
  function ToInt(i: int): int { Signed(i % 0x1_0000_0000, 0x1_0000_0000) }

  /** How many array elements follow the head of a table. */
  function ReadSize(b: Bytes, cookie: nat): (r: Read<int>)
    ensures r.Good? ==> |r.rest| <= |b|
  {
    if cookie != MAX_COOKIE - 1 then Good(cookie, b)
    else if b == [] || b[0] % 8 != TYPE_NUMBER || b[0] / 8 == NUMBER_REAL then Bad
    else
      match ReadInteger(b[1..], b[0] / 8)
      case Bad => Bad
      case Good(i, rest) => Good(ToInt(i), rest)
  }

  /** unpack_one. */
  function Unpack(b: Bytes): (r: Read<Value>)
    ensures r.Good? ==> |r.rest| < |b|
    decreases |b|, 1
  {
    if b == [] then Bad else PushValue(b[1..], b[0] % 8, b[0] / 8)
  }

  /** push_value. */
  function PushValue(b: Bytes, t: nat, cookie: nat): (r: Read<Value>)
    ensures r.Good? ==> |r.rest| <= |b|
    decreases |b|, 3
  {
    if t == TYPE_NIL then Good(Nil, b)
    else if t == TYPE_BOOLEAN then Good(Boolean(cookie != 0), b)
    else if t == TYPE_NUMBER then
      if cookie == NUMBER_REAL then
        match Take(b, 8)
        case Bad => Bad
        case Good(bits, rest) => Good(Real(bits), rest)
      else
        match ReadInteger(b, cookie)
        case Bad => Bad
        case Good(i, rest) => Good(Integer(i), rest)
    else if t == TYPE_USERDATA then
      match Take(b, 8)
      case Bad => Bad
      case Good(bits, rest) => Good(Pointer(bits), rest)
    else if t == TYPE_SHORT_STRING then ReadString(b, cookie)
    else if t == TYPE_LONG_STRING then
      if cookie == 2 then ReadLongString(b, 2) else if cookie == 4 then ReadLongString(b, 4) else Bad
    else if t == TYPE_TABLE then
      match ReadSize(b, cookie)
      case Bad => Bad
      case Good(n, rest) =>
        match UnpackArray(rest, [], 0, n)
        case Bad => Bad
        case Good(pairs, more) =>
          match UnpackHash(more, pairs)
          case Bad => Bad
          case Good(all, last) => Good(Table(all, if n < 0 then 0 else n), last)
    else Bad
  }

  /** The array part of unpack_table, after i of n elements. */
  function UnpackArray(b: Bytes, pairs: seq<Pair>, i: nat, n: int): (r: Read<seq<Pair>>)
    ensures r.Good? ==> |r.rest| <= |b|
    decreases |b|, 2
  {
    if i >= n then Good(pairs, b)
    else
      match Unpack(b)
      case Bad => Bad
      case Good(v, rest) => UnpackArray(rest, RawSet(pairs, Integer(i + 1), v), i + 1, n)
  }

  /** The rest of unpack_table: pairs, until a nil. */
  function UnpackHash(b: Bytes, pairs: seq<Pair>): (r: Read<seq<Pair>>)
    ensures r.Good? ==> |r.rest| <= |b|
    decreases |b|, 2
  {
    match Unpack(b)
    case Bad => Bad
    case Good(key, rest) =>
      if key.Nil? then Good(pairs, rest)
      else
        match Unpack(rest)
        case Bad => Bad
        case Good(value, more) => UnpackHash(more, RawSet(pairs, key, value))
  }
}
