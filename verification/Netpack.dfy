/** skynet/lualib-src/lua-netpack.c: the reassembler as it is written, with a hash table of incomplete
    packages and a ring of complete ones. */
module Netpack {
  import opened NetpackFrames

  datatype Option<T> = None | Some(value: T)

  const QUEUESIZE: nat := 1024
  const HASHSIZE: nat := 4096

  datatype Package = Package(id: int, data: Bytes)

  /** What is saved of an incomplete package: only the first byte of its length (`read` is -1), or its
      size and the bytes read so far. */
  datatype Uncomplete = Uncomplete(id: int, read: int, header: Byte, size: nat, data: Bytes)

  /** The bytes that the saved state stands for. */
  function Saved(uc: Uncomplete): Bytes
    requires uc.size < 0x1_0000
  {
    if uc.read < 0 then [uc.header] else [uc.size / 256, uc.size % 256] + uc.data
  }

  ghost predicate Partial(uc: Uncomplete)
  {
    uc.size < 0x1_0000 && (uc.read == -1 || (0 <= uc.read == |uc.data| < uc.size))
  }

  /** hash_fd; the shifts keep the sign, and the sum is taken modulo 2^32. */
  function HashFd(fd: int): (h: nat)
    ensures h < HASHSIZE
  {
    (fd / 0x100_0000 + fd / 0x1000 + fd) % 0x1_0000_0000 % HASHSIZE
  }

  /** What one chunk yields. */
  datatype Result = Nothing | Whole(package: Package) | More

  function Packages(fd: int, frames: seq<Bytes>): (r: seq<Package>)
    ensures |r| == |frames| && forall k :: 0 <= k < |frames| ==> r[k] == Package(fd, frames[k])
  {
    seq(|frames|, k requires 0 <= k < |frames| => Package(fd, frames[k]))
  }

  lemma PushedFirst(waiting: seq<Package>, fd: int, data: Bytes, frames: seq<Bytes>)
    ensures waiting + [Package(fd, data)] + Packages(fd, frames) == waiting + Packages(fd, [data] + frames)
    ensures waiting + Packages(fd, []) == waiting
  {
  }

  /** The entries of one chain are exactly what is saved for its connections. */
  ghost predicate ChainOK(chain: seq<Uncomplete>, h: nat, rests: map<int, Bytes>)
  {
    && (forall k :: 0 <= k < |chain| ==> EntryOK(chain[k], h, rests))
    && (forall j, k :: 0 <= j < k < |chain| ==> chain[j].id != chain[k].id)
    && (forall fd :: fd in rests && HashFd(fd) == h ==> InChain(chain, fd))
  }

  ghost predicate EntryOK(uc: Uncomplete, h: nat, rests: map<int, Bytes>)
  {
    HashFd(uc.id) == h && Partial(uc) && uc.id in rests && rests[uc.id] == Saved(uc)
  }

  ghost predicate InChain(chain: seq<Uncomplete>, fd: int)
  {
    exists k :: 0 <= k < |chain| && chain[k].id == fd
  }

  lemma ChainRemove(chain: seq<Uncomplete>, h: nat, rests: map<int, Bytes>, k: nat)
    requires ChainOK(chain, h, rests) && k < |chain|
    ensures ChainOK(chain[..k] + chain[k + 1..], h, rests - {chain[k].id})
  {
    hide HashFd, Saved, Partial;
    var r, rests' := chain[..k] + chain[k + 1..], rests - {chain[k].id};
    forall i | 0 <= i < |r| ensures EntryOK(r[i], h, rests') {
      assert r[i] == chain[if i < k then i else i + 1];
      assert EntryOK(chain[if i < k then i else i + 1], h, rests);
    }
    forall fd | fd in rests' && HashFd(fd) == h ensures InChain(r, fd) {
      assert InChain(chain, fd);
      var i :| 0 <= i < |chain| && chain[i].id == fd;
      assert r[if i < k then i else i - 1].id == fd;
    }
  }

  lemma ChainAdd(chain: seq<Uncomplete>, h: nat, rests: map<int, Bytes>, uc: Uncomplete)
    requires ChainOK(chain, h, rests) && HashFd(uc.id) == h && uc.id !in rests && Partial(uc)
    ensures ChainOK([uc] + chain, h, rests[uc.id := Saved(uc)])
  {
    hide HashFd;
    var r, rests' := [uc] + chain, rests[uc.id := Saved(uc)];
    forall i | 0 <= i < |r| ensures EntryOK(r[i], h, rests') {
      if i > 0 { assert EntryOK(chain[i - 1], h, rests); }
    }
    forall fd | fd in rests' && HashFd(fd) == h ensures InChain(r, fd) {
      if fd == uc.id {
        assert r[0].id == fd;
      } else {
        assert InChain(chain, fd);
        var i :| 0 <= i < |chain| && chain[i].id == fd;
        assert r[i + 1].id == fd;
      }
    }
  }

  /** Chains of other connections are not concerned. */
  lemma ChainOther(chain: seq<Uncomplete>, h: nat, rests: map<int, Bytes>, fd: int, rest: Bytes)
    requires ChainOK(chain, h, rests) && HashFd(fd) != h
    ensures ChainOK(chain, h, rests - {fd}) && ChainOK(chain, h, rests[fd := rest])
  {
    hide HashFd;
    forall i | 0 <= i < |chain| ensures EntryOK(chain[i], h, rests - {fd}) && EntryOK(chain[i], h, rests[fd := rest]) {
      assert EntryOK(chain[i], h, rests);
    }
  }

  class Queue {
    var cap: nat
    var head: nat
    var tail: nat
    var ring: array<Package>
    var hash: array<seq<Uncomplete>>

    /** For every connection with an incomplete package, the bytes that were saved. */
    ghost var rests: map<int, Bytes>

    ghost predicate RingOK()
      reads this`cap, this`head, this`tail, this`ring, ring
    {
      0 < cap == ring.Length && head < cap && tail < cap
    }

    ghost predicate HashOK()
      reads this`hash, this`rests, hash
    {
      hash.Length == HASHSIZE && forall h :: 0 <= h < HASHSIZE ==> ChainOK(hash[h], h, rests)
    }

    ghost predicate Valid()
      reads this, ring, hash
    {
      RingOK() && HashOK() && (ring as object) != (hash as object)
    }

    /** The complete packages that wait to be popped. */
    ghost function Waiting(): seq<Package>
      requires RingOK()
      reads this`cap, this`head, this`tail, this`ring, ring
    {
      if head <= tail then ring[head..tail] else ring[head..] + ring[..tail]
    }

    /** get_queue, for a queue that does not exist yet. */
    constructor ()
      ensures Valid() && Waiting() == [] && rests == map[] && fresh(ring) && fresh(hash)
    {
      cap, head, tail := QUEUESIZE, 0, 0;
      ring := new Package[QUEUESIZE](_ => Package(0, []));
      hash := new seq<Uncomplete>[HASHSIZE](_ => []);
      rests := map[];
    }

    /** find_uncomplete: the saved state is taken out of its chain. */
    method FindUncomplete(fd: int) returns (uc: Option<Uncomplete>)
      requires Valid()
      modifies hash, this`rests
      ensures Valid() && Waiting() == old(Waiting()) && rests == old(rests) - {fd}
      ensures uc.Some? <==> fd in old(rests)
      ensures uc.Some? ==> uc.value.id == fd && Partial(uc.value) && Saved(uc.value) == old(rests)[fd]
    {
      hide HashFd, ChainOK;
      var h := HashFd(fd);
      var chain := hash[h];
      ghost var before := rests;
      forall g | 0 <= g < HASHSIZE && g != h ensures ChainOK(hash[g], g, before - {fd}) {
        ChainOther(hash[g], g, before, fd, []);
      }
      var k := 0;
      while k < |chain|
        invariant k <= |chain| && forall j :: 0 <= j < k ==> chain[j].id != fd
      {
        if chain[k].id == fd {
          EntryAt(chain, h, before, k);
          ChainRemove(chain, h, before, k);
          hash[h] := chain[..k] + chain[k + 1..];
          rests := rests - {fd};
          return Some(chain[k]);
        }
        k := k + 1;
      }
      NotInChain(chain, h, before, fd);
      assert before - {fd} == before;
      return None;
    }

    /** save_uncomplete: the state goes to the front of its chain. */
    method SaveUncomplete(uc: Uncomplete)
      requires Valid() && uc.id !in rests && Partial(uc)
      modifies hash, this`rests
      ensures Valid() && Waiting() == old(Waiting()) && rests == old(rests)[uc.id := Saved(uc)]
    {
      hide HashFd, ChainOK, Saved;
      var h := HashFd(uc.id);
      ghost var before := rests;
      forall g | 0 <= g < HASHSIZE && g != h ensures ChainOK(hash[g], g, before[uc.id := Saved(uc)]) {
        ChainOther(hash[g], g, before, uc.id, Saved(uc));
      }
      ChainAdd(hash[h], h, before, uc);
      hash[h] := [uc] + hash[h];
      rests := rests[uc.id := Saved(uc)];
    }

    /** push_data; the ring grows when it is full. */
    method PushData(package: Package)
      requires Valid()
      modifies this`cap, this`head, this`tail, this`ring, ring
      ensures Valid() && Waiting() == old(Waiting()) + [package] && rests == old(rests)
      ensures ring == old(ring) || fresh(ring)
    {
      ring[tail] := package;
      tail := tail + 1;
      if tail >= cap { tail := tail - cap; }
      if head == tail { ExpandQueue(); }
    }

    /** expand_queue: the ring is copied, in order, into one with QUEUESIZE more places. */
    method ExpandQueue()
      requires 0 < cap == ring.Length && head == tail < cap
      modifies this`cap, this`head, this`tail, this`ring
      ensures RingOK() && fresh(ring) && Waiting() == old(ring[head..] + ring[..head])
    {
      var newRing := new Package[cap + QUEUESIZE](_ => Package(0, []));
      ghost var full := ring[head..] + ring[..head];
      var i := 0;
      while i < cap
        invariant unchanged(this) && unchanged(ring)
        invariant i <= cap && newRing[..i] == full[..i]
      {
        var idx := head + i;
        if idx >= cap { idx := idx - cap; }
        newRing[i] := ring[idx];
        assert newRing[..i + 1] == newRing[..i] + [full[i]];
        assert full[..i + 1] == full[..i] + [full[i]];
        i := i + 1;
      }
      assert full[..cap] == full;
      head, tail, cap := 0, cap, cap + QUEUESIZE;
      ring := newRing;
    }

    /** lpop. */
    method Pop() returns (package: Option<Package>)
      requires Valid()
      modifies this`head
      ensures Valid() && rests == old(rests)
      ensures if old(Waiting()) == [] then package.None? && Waiting() == []
              else package == Some(old(Waiting())[0]) && Waiting() == old(Waiting())[1..]
    {
      if head == tail { return None; }
      package := Some(ring[head]);
      head := head + 1;
      if head >= cap { head := 0; }
    }

    /** push_more: every complete package of the buffer is pushed, and the rest is saved. */
    method PushMore(fd: int, buffer: Bytes)
      requires Valid() && buffer != [] && fd !in rests
      modifies this`cap, this`head, this`tail, this`ring, this`rests, ring, hash
      ensures Valid() && (ring == old(ring) || fresh(ring))
      ensures Waiting() == old(Waiting()) + Packages(fd, Parse(buffer).frames)
      ensures rests == Keep(old(rests), fd, Parse(buffer).rest)
      decreases |buffer|
    {
      hide Parse, ChainOK, HashFd, Saved, Partial, Packages, Complete;
      PushedFirst(Waiting(), fd, [], []);
      if |buffer| == 1 {
        var uc := Uncomplete(fd, -1, buffer[0], 0, []);
        SavedPartial(uc, buffer);
        SaveUncomplete(uc);
        return;
      }
      var packSize := ReadSize(buffer);
      var size := |buffer| - 2;
      IsComplete(buffer);
      if size < packSize {
        var uc := Uncomplete(fd, size, 0, packSize, buffer[2..]);
        SavedPartial(uc, buffer);
        SaveUncomplete(uc);
        return;
      }
      ghost var frames := Parse(buffer[2 + packSize..]).frames;
      CompleteNow(buffer, packSize);
      PushedFirst(Waiting(), fd, buffer[2..2 + packSize], frames);
      PushData(Package(fd, buffer[2..2 + packSize]));
      PushedFirst(Waiting(), fd, [], []);
      var more := buffer[2 + packSize..];
      if |more| > 0 {
        PushMore(fd, more);
      } else {
        assert more == [];
        ParseNothing();
        assert rests - {fd} == rests;
      }
    }

    /** filter_data_: one chunk of one connection.  Its frames, put behind what was saved, are yielded in
        order, directly when there is just one that ends with the chunk, or through the queue. */
    method FilterData(fd: int, chunk: Bytes) returns (r: Result)
      requires Valid() && chunk != []
      modifies this`cap, this`head, this`tail, this`ring, this`rests, ring, hash
      ensures Valid() && (ring == old(ring) || fresh(ring))
      ensures var p := Parse(RestOf(old(rests), fd) + chunk);
              && rests == Keep(old(rests), fd, p.rest)
              && (match r
                  case Nothing => p.frames == [] && Waiting() == old(Waiting())
                  case Whole(package) => p.frames == [package.data] && package.id == fd && p.rest == [] && Waiting() == old(Waiting())
                  case More => Waiting() == old(Waiting()) + Packages(fd, p.frames) && (|p.frames| > 1 || p.rest != []))
    {
      hide Parse, ChainOK, HashFd, Partial, Saved;
      ghost var before := rests;
      var saved := FindUncomplete(fd);
      if saved.Some? {
        r := FillUncomplete(saved.value, chunk);
        KeepAfter(before, fd, Parse(before[fd] + chunk).rest);
      } else {
        assert [] + chunk == chunk;
        r := FilterFresh(fd, chunk);
        KeepAfter(before, fd, Parse(chunk).rest);
      }
    }

    /** The part of filter_data_ for a connection with nothing saved. */
    method FilterFresh(fd: int, buffer: Bytes) returns (r: Result)
      requires Valid() && buffer != [] && fd !in rests
      modifies this`cap, this`head, this`tail, this`ring, this`rests, ring, hash
      ensures Valid() && (ring == old(ring) || fresh(ring))
      ensures rests == Keep(old(rests), fd, Parse(buffer).rest)
      ensures Yields(r, fd, Parse(buffer), old(Waiting()), Waiting())
    {
      hide Parse, ChainOK, HashFd, Saved, Partial, Packages, Complete;
      PushedFirst(Waiting(), fd, [], []);
      if |buffer| == 1 {
        var uc := Uncomplete(fd, -1, buffer[0], 0, []);
        SavedPartial(uc, buffer);
        SaveUncomplete(uc);
        return Nothing;
      }
      var packSize := ReadSize(buffer);
      var size := |buffer| - 2;
      IsComplete(buffer);
      if size < packSize {
        var uc := Uncomplete(fd, size, 0, packSize, buffer[2..]);
        SavedPartial(uc, buffer);
        SaveUncomplete(uc);
        return Nothing;
      }
      ParseComplete(buffer);
      if size == packSize {
        assert buffer[2 + packSize..] == [];
        ParseNothing();
        assert rests - {fd} == rests;
        return Whole(Package(fd, buffer[2..2 + packSize]));
      }
      PushData(Package(fd, buffer[2..2 + packSize]));
      PushMore(fd, buffer[2 + packSize..]);
      NotNothing(buffer[2 + packSize..]);
      return More;
    }

    /** The part of filter_data_ that fills a saved package. */
    method FillUncomplete(saved: Uncomplete, chunk: Bytes) returns (r: Result)
      requires Valid() && chunk != [] && saved.id !in rests && Partial(saved)
      modifies this`cap, this`head, this`tail, this`ring, this`rests, ring, hash
      ensures Valid() && (ring == old(ring) || fresh(ring))
      ensures rests == Keep(old(rests), saved.id, Parse(Saved(saved) + chunk).rest)
      ensures Yields(r, saved.id, Parse(Saved(saved) + chunk), old(Waiting()), Waiting())
    {
      hide Parse, ChainOK, HashFd, Packages;
      var uc, buffer := saved, chunk;
      if uc.read < 0 {
        var packSize := uc.header as int * 256 + buffer[0] as int;
        uc := uc.(size := packSize, read := 0, data := []);
        buffer := buffer[1..];
        assert Saved(saved) + chunk == Saved(uc) + buffer;
      }
      var need := uc.size - uc.read;
      if |buffer| < need {
        uc := uc.(data := uc.data + buffer, read := uc.read + |buffer|);
        assert Saved(uc) == Saved(saved) + chunk;
        SavedIsPartial(uc);
        SaveUncomplete(uc);
        return Nothing;
      }
      var package := Package(uc.id, uc.data + buffer[..need]);
      var more := buffer[need..];
      Filled(uc, buffer, package.data, more);
      assert Saved(saved) + chunk == Saved(uc) + buffer;
      if |more| == 0 {
        assert more == [];
        ParseNothing();
        assert rests - {saved.id} == rests;
        return Whole(package);
      }
      PushedFirst(Waiting(), uc.id, package.data, Parse(more).frames);
      PushData(package);
      PushMore(uc.id, more);
      NotNothing(more);
      return More;
    }

    /** close_uncomplete. */
    method CloseUncomplete(fd: int)
      requires Valid()
      modifies hash, this`rests
      ensures Valid() && Waiting() == old(Waiting()) && rests == old(rests) - {fd}
    {
      var _ := FindUncomplete(fd);
    }
  }

  /** What a result says about the frames that were parsed. */
  ghost predicate Yields(r: Result, fd: int, p: Parsed, before: seq<Package>, after: seq<Package>)
  {
    match r
    case Nothing => p.frames == [] && after == before
    case Whole(package) => p.frames == [package.data] && package.id == fd && p.rest == [] && after == before
    case More => after == before + Packages(fd, p.frames) && (|p.frames| > 1 || p.rest != [])
  }

  lemma EntryAt(chain: seq<Uncomplete>, h: nat, rests: map<int, Bytes>, k: nat)
    requires ChainOK(chain, h, rests) && k < |chain|
    ensures EntryOK(chain[k], h, rests)
  {
  }

  lemma NotInChain(chain: seq<Uncomplete>, h: nat, rests: map<int, Bytes>, fd: int)
    requires ChainOK(chain, h, rests) && HashFd(fd) == h && forall k :: 0 <= k < |chain| ==> chain[k].id != fd
    ensures fd !in rests
  {
    assert fd in rests ==> InChain(chain, fd);
  }

  lemma KeepAfter(rests: map<int, Bytes>, fd: int, rest: Bytes)
    ensures Keep(rests - {fd}, fd, rest) == Keep(rests, fd, rest)
  {
  }

  /** What is saved of a partial package stands for the bytes that came. */
  lemma SavedPartial(uc: Uncomplete, buffer: Bytes)
    requires |buffer| == 1 || (|buffer| >= 2 && !Complete(buffer))
    requires if |buffer| == 1 then uc.read == -1 && uc.header == buffer[0] && uc.size == 0
             else uc.read == |buffer| - 2 && uc.size == ReadSize(buffer) && uc.data == buffer[2..]
    ensures Partial(uc) && Saved(uc) == buffer && Parse(buffer) == Parsed([], buffer)
  {
    hide Parse;
    ParsePartial(buffer);
    if |buffer| >= 2 { assert ReadSize(buffer) / 256 == buffer[0] && ReadSize(buffer) % 256 == buffer[1]; }
  }

  lemma IsComplete(b: Bytes)
    requires |b| >= 2
    ensures Complete(b) <==> |b| - 2 >= ReadSize(b)
  {
  }

  lemma CompleteNow(b: Bytes, n: nat)
    requires Complete(b) && n == ReadSize(b)
    ensures Parse(b) == Parsed([b[2..2 + n]] + Parse(b[2 + n..]).frames, Parse(b[2 + n..]).rest)
  {
    hide Parse;
    ParseComplete(b);
  }

  lemma SavedIsPartial(uc: Uncomplete)
    requires Partial(uc) && uc.read >= 0
    ensures Parse(Saved(uc)) == Parsed([], Saved(uc))
  {
    assert ReadSize(Saved(uc)) == uc.size;
  }

  /** A package is complete: what follows it is parsed by itself. */
  lemma Filled(uc: Uncomplete, buffer: Bytes, data: Bytes, more: Bytes)
    requires uc.size < 0x1_0000 && 0 <= uc.read == |uc.data| <= uc.size <= uc.read + |buffer|
    requires data == uc.data + buffer[..uc.size - uc.read] && more == buffer[uc.size - uc.read..]
    ensures Parse(Saved(uc) + buffer) == Parsed([data] + Parse(more).frames, Parse(more).rest)
  {
    hide Parse;
    var all := Saved(uc) + buffer;
    assert ReadSize(all) == uc.size;
    assert all[2..2 + uc.size] == data && all[2 + uc.size..] == more;
    ParseComplete(all);
  }

  /** Bytes never vanish: they make a frame, or are left over. */
  lemma NotNothing(b: Bytes)
    requires b != []
    ensures Parse(b).frames != [] || Parse(b).rest != []
  {
  }
}
