/** skynet/lualib-src/lua-seri.c as it is written: a chain of 128-byte blocks that grows while values are
    packed, and a cursor that moves while they are unpacked. */
module Seri {
  import opened SeriFormat
  import opened SeriRoundTrip

  const BLOCK_SIZE: nat := 128

  type Block = array<Byte>

  /** Byte i of a chain of blocks. */
  ghost predicate Stored(blocks: seq<Block>, contents: Bytes)
    requires forall k :: 0 <= k < |blocks| ==> blocks[k].Length == BLOCK_SIZE
    reads blocks
  {
    && |contents| <= BLOCK_SIZE * |blocks|
    && forall i :: 0 <= i < |contents| ==> blocks[i / BLOCK_SIZE][i % BLOCK_SIZE] == contents[i]
  }

  class WriteBlock {
    var blocks: seq<Block>
    var len: nat
    var ptr: nat

    /** The logical byte stream. */
    ghost var contents: Bytes

    ghost predicate Valid()
      reads this, blocks
    {
      && blocks != []
      && (forall k :: 0 <= k < |blocks| ==> blocks[k].Length == BLOCK_SIZE)
      && (forall j, k :: 0 <= j < k < |blocks| ==> blocks[j] != blocks[k])
      && ptr <= BLOCK_SIZE && len == |contents| == BLOCK_SIZE * (|blocks| - 1) + ptr
      && Stored(blocks, contents)
    }

    /** wb_init, with the first block. */
    constructor ()
      ensures Valid() && contents == [] && fresh(blocks)
    {
      var b := new Byte[BLOCK_SIZE](_ => 0);
      blocks, len, ptr, contents := [b], 0, 0, [];
    }

    /** A further block, when the current one is full. */
    method NewBlock()
      requires Valid() && ptr == BLOCK_SIZE
      modifies this`blocks, this`ptr
      ensures Valid() && ptr == 0 && contents == old(contents)
      ensures forall k :: 0 <= k < |blocks| ==> blocks[k] in old(blocks) || fresh(blocks[k])
    {
      var b := new Byte[BLOCK_SIZE](_ => 0);
      assert forall i :: 0 <= i < |contents| ==> i / BLOCK_SIZE < |blocks|;
      blocks := blocks + [b];
      ptr := 0;
    }

    /** Bytes that fit the current block. */
    method CopyIn(data: Bytes)
      requires Valid() && ptr + |data| <= BLOCK_SIZE
      modifies this`len, this`ptr, this`contents, blocks
      ensures Valid() && contents == old(contents) + data && ptr == old(ptr) + |data|
    {
      var current := blocks[|blocks| - 1];
      var i := 0;
      while i < |data|
        invariant i <= |data| && Valid()
        invariant contents == old(contents) + data[..i] && ptr == old(ptr) + i && blocks == old(blocks)
      {
        At(|blocks| - 1, ptr);
        current[ptr] := data[i];
        contents := contents + [data[i]];
        ptr, len := ptr + 1, len + 1;
        assert data[..i + 1] == data[..i] + [data[i]];
        forall k | 0 <= k < |contents| ensures blocks[k / BLOCK_SIZE][k % BLOCK_SIZE] == contents[k] {
          if k < |contents| - 1 {
            Elsewhere(k, |blocks| - 1, ptr - 1);
          }
        }
        i := i + 1;
      }
      assert data[..i] == data;
    }

    /** wb_push: as much as fits goes into the current block, and the rest into new ones. */
    method Push(buf: Bytes)
      requires Valid()
      modifies this, blocks
      ensures Valid() && contents == old(contents) + buf
      ensures forall k :: 0 <= k < |blocks| ==> blocks[k] in old(blocks) || fresh(blocks[k])
    {
      var rest := buf;
      if ptr == BLOCK_SIZE { NewBlock(); }
      while ptr + |rest| > BLOCK_SIZE
        invariant Valid() && ptr < BLOCK_SIZE && contents + rest == old(contents) + buf
        invariant forall k :: 0 <= k < |blocks| ==> blocks[k] in old(blocks) || fresh(blocks[k])
        decreases |rest|
      {
        var copy := BLOCK_SIZE - ptr;
        assert rest == rest[..copy] + rest[copy..];
        CopyIn(rest[..copy]);
        rest := rest[copy..];
        NewBlock();
      }
      CopyIn(rest);
    }

    /** seri: the chain is flattened into one buffer. */
    method Flatten() returns (buffer: array<Byte>)
      requires Valid()
      ensures fresh(buffer) && buffer[..] == contents
    {
      buffer := new Byte[len](_ => 0);
      var done, b := 0, 0;
      while done < len
        invariant done == if b < |blocks| && BLOCK_SIZE * b <= len then BLOCK_SIZE * b else len
        invariant b <= |blocks| && done <= len && buffer[..done] == contents[..done]
        decreases len - done
      {
        var n := if len - done >= BLOCK_SIZE then BLOCK_SIZE else len - done;
        var i := 0;
        while i < n
          invariant i <= n && buffer[..done + i] == contents[..done + i]
        {
          At(b, i);
          buffer[done + i] := blocks[b][i];
          i := i + 1;
        }
        done, b := done + n, b + 1;
      }
    }
  }

  lemma At(b: nat, i: nat)
    requires i < BLOCK_SIZE
    ensures (BLOCK_SIZE * b + i) / BLOCK_SIZE == b && (BLOCK_SIZE * b + i) % BLOCK_SIZE == i
  {
  }

  lemma Elsewhere(k: nat, b: nat, i: nat)
    requires k < BLOCK_SIZE * b + i && i < BLOCK_SIZE
    ensures k / BLOCK_SIZE < b || (k / BLOCK_SIZE == b && k % BLOCK_SIZE < i)
  {
  }

  // ---- Packing ----

  /** What was written, or not, since the stream was `before`. */
  ghost predicate Wrote(before: Bytes, after: Bytes, ok: bool, packed: Option<Bytes>)
  {
    (ok <==> packed.Some?) && (ok ==> after == before + packed.value)
  }

  /** A type byte and what belongs to it. */
  method PushTyped(wb: WriteBlock, n: Byte, data: Bytes)
    requires wb.Valid()
    modifies wb, wb.blocks
    ensures wb.Valid() && wb.contents == old(wb.contents) + ([n] + data) && Grown(wb, old(wb.blocks))
  {
    wb.Push([n]);
    wb.Push(data);
  }

  /** wb_integer. */
  method PutInteger(wb: WriteBlock, i: int)
    requires wb.Valid() && FitsInt64(i)
    modifies wb, wb.blocks
    ensures wb.Valid() && wb.contents == old(wb.contents) + PackInteger(i) && Grown(wb, old(wb.blocks))
  {
    hide Little;
    if i == 0 {
      wb.Push([Combine(TYPE_NUMBER, NUMBER_ZERO)]);
    } else if !FitsInt32(i) {
      PushTyped(wb, Combine(TYPE_NUMBER, NUMBER_QWORD), Little(Unsigned(i, 0x1_0000_0000_0000_0000), 8));
    } else if i < 0 {
      PushTyped(wb, Combine(TYPE_NUMBER, NUMBER_DWORD), Little(Unsigned(i, 0x1_0000_0000), 4));
    } else if i < 0x100 {
      PushTyped(wb, Combine(TYPE_NUMBER, NUMBER_BYTE), Little(i, 1));
    } else if i < 0x1_0000 {
      PushTyped(wb, Combine(TYPE_NUMBER, NUMBER_WORD), Little(i, 2));
    } else {
      PushTyped(wb, Combine(TYPE_NUMBER, NUMBER_DWORD), Little(i, 4));
    }
  }

  /** The chain only grows by new blocks. */
  twostate predicate Grown(wb: WriteBlock, before: seq<Block>)
    reads wb
  {
    forall k :: 0 <= k < |wb.blocks| ==> wb.blocks[k] in before || fresh(wb.blocks[k])
  }

  /** wb_string. */
  method PutString(wb: WriteBlock, s: Bytes)
    requires wb.Valid() && |s| < 0x8000_0000
    modifies wb, wb.blocks
    ensures wb.Valid() && wb.contents == old(wb.contents) + PackString(s) && Grown(wb, old(wb.blocks))
  {
    hide Little, Stored;
    if |s| < MAX_COOKIE {
      PushTyped(wb, Combine(TYPE_SHORT_STRING, |s|), s);
    } else {
      PutLongString(wb, s, if |s| < 0x1_0000 then 2 else 4);
    }
  }

  method PutLongString(wb: WriteBlock, s: Bytes, k: nat)
    requires wb.Valid() && k < 32
    modifies wb, wb.blocks
    ensures wb.Valid() && Grown(wb, old(wb.blocks))
    ensures wb.contents == old(wb.contents) + ([Combine(TYPE_LONG_STRING, k)] + Little(|s|, k) + s)
  {
    hide Little, Stored;
    ghost var before := wb.contents;
    PushTyped(wb, Combine(TYPE_LONG_STRING, k), Little(|s|, k));
    wb.Push(s);
    assert before + ([Combine(TYPE_LONG_STRING, k)] + Little(|s|, k)) + s == before + ([Combine(TYPE_LONG_STRING, k)] + Little(|s|, k) + s);
  }

  lemma BothStart(x: Option<Bytes>)
    ensures Both(Some([]), x) == x
  {
    if x.Some? { assert [] + x.value == x.value; }
  }

  lemma BothNext(done: Bytes, x: Option<Bytes>, y: Option<Bytes>)
    ensures x.Some? ==> Both(Some(done), Both(x, y)) == Both(Some(done + x.value), y)
    ensures x.None? ==> Both(Some(done), Both(x, y)) == None
  {
    if x.Some? && y.Some? { assert done + (x.value + y.value) == done + x.value + y.value; }
  }

  lemma ArrayStep(v: Value, depth: nat, i: nat)
    requires v.Table? && Packable(v) && i < v.n
    ensures var k := Find(v.pairs, Integer(i + 1));
            PackArray(v, depth, i) == Both(if k < 0 then PackNil(depth) else Pack(v.pairs[k].value, depth), PackArray(v, depth, i + 1))
  {
  }

  /** pack_one; a value that is nested too deeply is refused. */
  method PackOne(wb: WriteBlock, v: Value, depth: nat) returns (ok: bool)
    requires wb.Valid() && Packable(v)
    modifies wb, wb.blocks
    ensures wb.Valid() && Grown(wb, old(wb.blocks)) && Wrote(old(wb.contents), wb.contents, ok, Pack(v, depth))
    decreases v, 2, 0
  {
    hide PackInteger, PackString, PackHead, PackArray, PackHash, Packable, Stored;
    if depth > MAX_DEPTH { return false; }
    PackableParts(v);
    ok := true;
    match v {
      case Nil => wb.Push([TYPE_NIL]);
      case Boolean(b) => wb.Push([Combine(TYPE_BOOLEAN, if b then 1 else 0)]);
      case Integer(i) => PutInteger(wb, i);
      case Real(bits) => PushTyped(wb, Combine(TYPE_NUMBER, NUMBER_REAL), bits);
      case Pointer(bits) => PushTyped(wb, TYPE_USERDATA, bits);
      case String(s) => PutString(wb, s);
      case Table(pairs, n) => ok := PackTable(wb, v, depth + 1);
    }
  }

  ghost function PackParts(v: Value, depth: nat): Option<Bytes>
    requires v.Table? && Packable(v)
  {
    Both(Some(PackHead(v.n)), Both(PackArray(v, depth, 0), PackHash(v, depth, 0)))
  }

  /** wb_table. */
  method PackTable(wb: WriteBlock, v: Value, depth: nat) returns (ok: bool)
    requires wb.Valid() && v.Table? && Packable(v)
    modifies wb, wb.blocks
    ensures wb.Valid() && Grown(wb, old(wb.blocks)) && Wrote(old(wb.contents), wb.contents, ok, PackParts(v, depth))
    decreases v, 1, 2
  {
    hide PackHead, PackArray, PackHash, Packable, Stored;
    PutHead(wb, v);
    ok := PutArray(wb, v, depth);
    if ok { ok := PutHash(wb, v, depth); }
  }

  method PutHead(wb: WriteBlock, v: Value)
    requires wb.Valid() && v.Table? && Packable(v)
    modifies wb, wb.blocks
    ensures wb.Valid() && Grown(wb, old(wb.blocks)) && wb.contents == old(wb.contents) + PackHead(v.n)
  {
    hide PackInteger, Stored;
    if v.n >= MAX_COOKIE - 1 {
      wb.Push([Combine(TYPE_TABLE, MAX_COOKIE - 1)]);
      PutInteger(wb, v.n);
    } else {
      wb.Push([Combine(TYPE_TABLE, v.n)]);
    }
  }

  /** wb_table_array: the elements, nils included. */
  method PutArray(wb: WriteBlock, v: Value, depth: nat) returns (ok: bool)
    requires wb.Valid() && v.Table? && Packable(v)
    modifies wb, wb.blocks
    ensures wb.Valid() && Grown(wb, old(wb.blocks)) && Wrote(old(wb.contents), wb.contents, ok, PackArray(v, depth, 0))
    decreases v, 1, 1
  {
    hide Pack, PackArray, Find, Stored;
    ghost var before, done := wb.contents, [];
    var i := 0;
    BothStart(PackArray(v, depth, 0));
    while i < v.n
      invariant i <= v.n && wb.Valid() && Grown(wb, old(wb.blocks))
      invariant wb.contents == before + done
      invariant PackArray(v, depth, 0) == Both(Some(done), PackArray(v, depth, i))
    {
      var k := Find(v.pairs, Integer(i + 1));
      ghost var x := if k < 0 then PackNil(depth) else Pack(v.pairs[k].value, depth);
      ArrayStep(v, depth, i);
      BothNext(done, x, PackArray(v, depth, i + 1));
      if k < 0 { ok := PackNilOne(wb, depth); } else { ok := PackOne(wb, v.pairs[k].value, depth); }
      if !ok { return; }
      done := done + x.value;
      i := i + 1;
    }
    ArrayEnds(v, depth, done);
    ok := true;
  }

  lemma ArrayEnds(v: Value, depth: nat, done: Bytes)
    requires v.Table? && Packable(v)
    ensures Both(Some(done), PackArray(v, depth, v.n)) == Some(done)
  {
    assert done + [] == done;
  }

  method PackNilOne(wb: WriteBlock, depth: nat) returns (ok: bool)
    requires wb.Valid()
    modifies wb, wb.blocks
    ensures wb.Valid() && Grown(wb, old(wb.blocks)) && Wrote(old(wb.contents), wb.contents, ok, PackNil(depth))
  {
    if depth > MAX_DEPTH { return false; }
    wb.Push([TYPE_NIL]);
    ok := true;
  }

  /** wb_table_hash: the other pairs, and a nil. */
  method PutHash(wb: WriteBlock, v: Value, depth: nat) returns (ok: bool)
    requires wb.Valid() && v.Table? && Packable(v)
    modifies wb, wb.blocks
    ensures wb.Valid() && Grown(wb, old(wb.blocks)) && Wrote(old(wb.contents), wb.contents, ok, PackHash(v, depth, 0))
    decreases v, 1, 1
  {
    hide Pack, PackHash, Stored;
    ghost var before, done := wb.contents, [];
    var k := 0;
    BothStart(PackHash(v, depth, 0));
    while k < |v.pairs|
      invariant k <= |v.pairs| && wb.Valid() && Grown(wb, old(wb.blocks))
      invariant wb.contents == before + done
      invariant PackHash(v, depth, 0) == Both(Some(done), PackHash(v, depth, k))
    {
      HashStep(v, depth, k, done);
      if !InArray(v.pairs[k].key, v.n) {
        ok := PutPair(wb, v, k, depth);
        if !ok { return; }
        done := done + Both(Pack(v.pairs[k].key, depth), Pack(v.pairs[k].value, depth)).value;
      }
      k := k + 1;
    }
    HashEnds(v, depth);
    wb.Push([TYPE_NIL]);
    ok := true;
  }

  lemma HashStep(v: Value, depth: nat, k: nat, done: Bytes)
    requires v.Table? && Packable(v) && k < |v.pairs|
    ensures InArray(v.pairs[k].key, v.n) ==> PackHash(v, depth, k) == PackHash(v, depth, k + 1)
    ensures !InArray(v.pairs[k].key, v.n) ==>
              var x := Both(Pack(v.pairs[k].key, depth), Pack(v.pairs[k].value, depth));
              Both(Some(done), PackHash(v, depth, k)) == if x.Some? then Both(Some(done + x.value), PackHash(v, depth, k + 1)) else None
  {
    hide Pack;
    BothNext(done, Both(Pack(v.pairs[k].key, depth), Pack(v.pairs[k].value, depth)), PackHash(v, depth, k + 1));
  }

  lemma HashEnds(v: Value, depth: nat)
    requires v.Table? && Packable(v)
    ensures PackHash(v, depth, |v.pairs|) == Some([TYPE_NIL])
  {
  }

  method PutPair(wb: WriteBlock, v: Value, k: nat, depth: nat) returns (ok: bool)
    requires wb.Valid() && v.Table? && Packable(v) && k < |v.pairs|
    modifies wb, wb.blocks
    ensures wb.Valid() && Grown(wb, old(wb.blocks))
    ensures Wrote(old(wb.contents), wb.contents, ok, Both(Pack(v.pairs[k].key, depth), Pack(v.pairs[k].value, depth)))
    decreases v, 1, 0
  {
    hide Pack, Stored;
    ok := PackOne(wb, v.pairs[k].key, depth);
    if ok { ok := PackOne(wb, v.pairs[k].value, depth); }
  }

  // ---- Unpacking ----

  class ReadBlock {
    const buffer: Bytes
    var len: nat
    var ptr: nat

    ghost predicate Valid()
      reads this
    {
      ptr + len == |buffer|
    }

    /** What has not been read yet. */
    ghost function Left(): Bytes
      requires Valid()
      reads this
    {
      buffer[ptr..]
    }

    /** rball_init. */
    constructor (b: Bytes)
      ensures Valid() && Left() == b
    {
      buffer, len, ptr := b, |b|, 0;
    }

    /** rb_read. */
    method Read(sz: nat) returns (r: Option<Bytes>)
      requires Valid()
      modifies this
      ensures Valid() && Reads(Take(old(Left()), sz), r, Left())
    {
      if len < sz { return None; }
      r := Some(buffer[ptr..ptr + sz]);
      ptr, len := ptr + sz, len - sz;
      assert old(Left())[..sz] == r.value && old(Left())[sz..] == Left();
    }

    /** get_integer. */
    method GetInteger(cookie: nat) returns (r: Option<int>)
      requires Valid()
      modifies this
      ensures Valid() && Reads(ReadInteger(old(Left()), cookie), r, Left())
    {
      hide FromLittle, Power256, Signed;
      if cookie == NUMBER_ZERO { r := Some(0); }
      else if cookie == NUMBER_BYTE { r := GetNumber(1, false); }
      else if cookie == NUMBER_WORD { r := GetNumber(2, false); }
      else if cookie == NUMBER_DWORD { r := GetNumber(4, true); }
      else if cookie == NUMBER_QWORD { r := GetNumber(8, true); }
      else { r := None; }
    }

    method GetNumber(k: nat, signed: bool) returns (r: Option<int>)
      requires Valid()
      modifies this
      ensures Valid() && Reads(ReadNumber(old(Left()), k, signed), r, Left())
    {
      hide FromLittle, Power256, Signed;
      var n := Read(k);
      r := match n case None => None case Some(b) => Some(if signed then Signed(FromLittle(b), Power256(k)) else FromLittle(b));
    }

    /** get_buffer. */
    method GetString(n: nat) returns (r: Option<Value>)
      requires Valid()
      modifies this
      ensures Valid() && Reads(ReadString(old(Left()), n), r, Left())
    {
      var b := Read(n);
      r := match b case None => None case Some(s) => Some(String(s));
    }

    method GetLongString(k: nat) returns (r: Option<Value>)
      requires Valid()
      modifies this
      ensures Valid() && Reads(ReadLongString(old(Left()), k), r, Left())
    {
      hide FromLittle;
      var n := Read(k);
      if n.None? { return None; }
      r := GetString(FromLittle(n.value));
    }

    /** The size of the array part, which may be behind the type byte. */
    method GetSize(cookie: nat) returns (r: Option<int>)
      requires Valid()
      modifies this
      ensures Valid() && Reads(ReadSize(old(Left()), cookie), r, Left())
    {
      hide ReadInteger, ToInt;
      if cookie != MAX_COOKIE - 1 { return Some(cookie); }
      var t := Read(1);
      if t.None? { return None; }
      assert old(Left())[..1][0] == old(Left())[0];
      var n := t.value[0];
      if n % 8 != TYPE_NUMBER || n / 8 == NUMBER_REAL { return None; }
      var i := GetInteger(n / 8);
      r := match i case None => None case Some(x) => Some(ToInt(x));
    }

    /** unpack_one. */
    method UnpackOne() returns (r: Option<Value>)
      requires Valid()
      modifies this
      ensures Valid() && Reads(Unpack(old(Left())), r, Left())
      decreases len, 1
    {
      hide PushValue;
      var t := Read(1);
      if t.None? { return None; }
      assert old(Left())[..1][0] == old(Left())[0];
      r := PushOne(t.value[0] % 8, t.value[0] / 8);
    }

    /** push_value. */
    method PushOne(t: nat, cookie: nat) returns (r: Option<Value>)
      requires Valid()
      modifies this
      ensures Valid() && Reads(PushValue(old(Left()), t, cookie), r, Left())
      decreases len, 3
    {
      hide ReadInteger, ReadString, ReadLongString, ReadSize, UnpackArray, UnpackHash, Take;
      if t == TYPE_NIL { r := Some(Nil); }
      else if t == TYPE_BOOLEAN { r := Some(Boolean(cookie != 0)); }
      else if t == TYPE_NUMBER && cookie == NUMBER_REAL {
        var b := Read(8);
        r := match b case None => None case Some(bits) => Some(Real(bits));
      } else if t == TYPE_NUMBER {
        var i := GetInteger(cookie);
        r := match i case None => None case Some(x) => Some(Integer(x));
      } else if t == TYPE_USERDATA {
        var b := Read(8);
        r := match b case None => None case Some(bits) => Some(Pointer(bits));
      } else if t == TYPE_SHORT_STRING { r := GetString(cookie); }
      else if t == TYPE_LONG_STRING && (cookie == 2 || cookie == 4) { r := GetLongString(cookie); }
      else if t == TYPE_TABLE { r := UnpackTable(cookie); }
      else { r := None; }
    }

    /** unpack_table. */
    method UnpackTable(cookie: nat) returns (r: Option<Value>)
      requires Valid()
      modifies this
      ensures Valid() && Reads(PushValue(old(Left()), TYPE_TABLE, cookie), r, Left())
      decreases len, 2
    {
      hide ReadSize, Unpack, RawSet, UnpackArray, UnpackHash;
      ghost var b := Left();
      var size := GetSize(cookie);
      if size.None? { return None; }
      ghost var b1 := Left();
      var pairs: seq<Pair>, i := [], 0;
      while i < size.value
        invariant i >= 0 && Valid() && len <= old(len)
        invariant UnpackArray(Left(), pairs, i, size.value) == UnpackArray(b1, [], 0, size.value)
        decreases size.value - i
      {
        ghost var more := Left();
        ArrayRead(more, pairs, i, size.value);
        var v := UnpackOne();
        if v.None? { return None; }
        pairs := RawSet(pairs, Integer(i + 1), v.value);
        i := i + 1;
      }
      ghost var b2, first := Left(), pairs;
      ArrayDone(b2, pairs, i, size.value);
      while true
        invariant Valid() && len <= old(len)
        invariant UnpackHash(Left(), pairs) == UnpackHash(b2, first)
        decreases len
      {
        HashRead(Left(), pairs);
        var key := UnpackOne();
        if key.None? { return None; }
        if key.value.Nil? {
          return Some(Table(pairs, if size.value < 0 then 0 else size.value));
        }
        var v := UnpackOne();
        if v.None? { return None; }
        pairs := RawSet(pairs, key.value, v.value);
      }
    }
  }

  /** What was read, and what is left. */
  ghost predicate Reads<T>(spec: Read<T>, r: Option<T>, left: Bytes)
  {
    match spec
    case Bad => r.None?
    case Good(v, rest) => r == Some(v) && left == rest
  }

  lemma ArrayRead(b: Bytes, pairs: seq<Pair>, i: nat, n: int)
    requires i < n
    ensures UnpackArray(b, pairs, i, n) ==
            match Unpack(b)
            case Bad => Bad
            case Good(v, rest) => UnpackArray(rest, RawSet(pairs, Integer(i + 1), v), i + 1, n)
  {
  }

  lemma ArrayDone(b: Bytes, pairs: seq<Pair>, i: nat, n: int)
    requires i >= n
    ensures UnpackArray(b, pairs, i, n) == Good(pairs, b)
  {
  }

  lemma HashRead(b: Bytes, pairs: seq<Pair>)
    ensures Unpack(b).Bad? ==> UnpackHash(b, pairs) == Bad
    ensures Unpack(b).Good? && Unpack(b).value.Nil? ==> UnpackHash(b, pairs) == Good(pairs, Unpack(b).rest)
    ensures Unpack(b).Good? && !Unpack(b).value.Nil? ==>
              var more := Unpack(Unpack(b).rest);
              UnpackHash(b, pairs) == if more.Bad? then Bad else UnpackHash(more.rest, RawSet(pairs, Unpack(b).value, more.value))
  {
  }

  // ---- The two entry points ----

  /** luaseri_pack. */
  method LuaseriPack(vs: seq<Value>) returns (r: Option<Bytes>)
    requires forall k :: 0 <= k < |vs| ==> Packable(vs[k])
    ensures r == PackAll(vs)
  {
    hide Pack, Packable, Stored;
    var wb := new WriteBlock();
    var k := 0;
    assert vs[..0] == [];
    while k < |vs|
      invariant k <= |vs| && wb.Valid() && fresh(wb) && fresh(wb.blocks)
      invariant PackAll(vs[..k]) == Some(wb.contents)
    {
      assert vs[..k + 1][..k] == vs[..k];
      var ok := PackOne(wb, vs[k], 0);
      if !ok {
        TooDeep(vs, k);
        return None;
      }
      k := k + 1;
    }
    assert vs[..k] == vs;
    var buffer := wb.Flatten();
    r := Some(buffer[..]);
  }

  lemma {:induction false} TooDeep(vs: seq<Value>, k: nat)
    requires (forall j :: 0 <= j < |vs| ==> Packable(vs[j])) && k < |vs| && Pack(vs[k], 0).None?
    ensures PackAll(vs).None?
    decreases |vs|
  {
    hide Pack, Packable;
    if k < |vs| - 1 { TooDeep(vs[..|vs| - 1], k); }
  }

  /** luaseri_unpack. */
  method LuaseriUnpack(b: Bytes) returns (r: Option<seq<Value>>)
    ensures r == UnpackAll(b)
  {
    hide Unpack, UnpackAll;
    var rb := new ReadBlock(b);
    var vs: seq<Value> := [];
    assert UnpackAll(b).Some? ==> [] + UnpackAll(b).value == UnpackAll(b).value;
    while rb.len > 0
      invariant rb.Valid()
      invariant UnpackAll(b) == match UnpackAll(rb.Left()) case None => None case Some(rest) => Some(vs + rest)
      decreases rb.len
    {
      UnpackMore(rb.Left(), vs);
      var v := rb.UnpackOne();
      if v.None? { return None; }
      vs := vs + [v.value];
    }
    UnpackNone();
    assert rb.Left() == [];
    assert vs + [] == vs;
    r := Some(vs);
  }

  lemma UnpackMore(b: Bytes, vs: seq<Value>)
    requires b != []
    ensures match Unpack(b)
            case Bad => UnpackAll(b) == None
            case Good(v, rest) =>
              && (UnpackAll(rest).None? ==> UnpackAll(b).None?)
              && (UnpackAll(rest).Some? ==> UnpackAll(b).Some? && vs + UnpackAll(b).value == vs + [v] + UnpackAll(rest).value)
  {
  }

  /** Packing and unpacking a list of values. */
  method RoundTripRun(vs: seq<Value>) returns (r: Option<seq<Value>>)
    requires forall k :: 0 <= k < |vs| ==> Packable(vs[k])
    ensures r == if forall k :: 0 <= k < |vs| ==> Height(vs[k]) <= MAX_DEPTH then Some(NormalAll(vs)) else None
  {
    hide Pack, Packable, Height, Normal, Unpack, UnpackAll, PackAll;
    RoundTrip(vs);
    var packed := LuaseriPack(vs);
    if packed.None? { return None; }
    r := LuaseriUnpack(packed.value);
  }
}
