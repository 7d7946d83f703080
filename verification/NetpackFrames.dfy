/** The frames of skynet/lualib-src/lua-netpack.c: two bytes of length, big-endian, then the data. */
module NetpackFrames {

  type Byte = x: int | 0 <= x < 256
  type Bytes = seq<Byte>

  /** The frames that a byte stream holds, and the bytes that follow the last complete one. */
  datatype Parsed = Parsed(frames: seq<Bytes>, rest: Bytes)

  /** read_size. */
  function ReadSize(b: Bytes): (n: nat)
    requires |b| >= 2
    ensures n < 0x1_0000
  {
    b[0] as int * 256 + b[1] as int
  }

  function Parse(b: Bytes): (p: Parsed)
    ensures |p.rest| <= |b|
    decreases |b|
  {
    if |b| < 2 || |b| < 2 + ReadSize(b) then Parsed([], b)
    else
      var n := ReadSize(b);
      var p := Parse(b[2 + n..]);
      Parsed([b[2..2 + n]] + p.frames, p.rest)
  }

  /** The stream starts with a complete frame. */
  predicate Complete(b: Bytes) { |b| >= 2 && |b| >= 2 + ReadSize(b) }

  lemma ParseComplete(b: Bytes)
    requires Complete(b)
    ensures var n, p := ReadSize(b), Parse(b[2 + ReadSize(b)..]);
            Parse(b) == Parsed([b[2..2 + n]] + p.frames, p.rest)
  {
  }

  lemma ParsePartial(b: Bytes)
    requires !Complete(b)
    ensures Parse(b) == Parsed([], b)
  {
  }

  /** Parsing may stop anywhere and go on with what is left. */
  lemma {:induction false} ParseAppend(a: Bytes, b: Bytes)
    ensures Parse(a + b) == Parsed(Parse(a).frames + Parse(Parse(a).rest + b).frames, Parse(Parse(a).rest + b).rest)
    decreases |a|
  {
    hide Parse;
    if !Complete(a) {
      ParsePartial(a);
      assert [] + Parse(a + b).frames == Parse(a + b).frames;
    } else {
      var n := ReadSize(a);
      var a', f := a[2 + n..], a[2..2 + n];
      ParseComplete(a);
      ParseAppend(a', b);
      assert (a + b)[2 + n..] == a' + b && (a + b)[2..2 + n] == f;
      ParseComplete(a + b);
      assert [f] + (Parse(a').frames + Parse(Parse(a').rest + b).frames) == [f] + Parse(a').frames + Parse(Parse(a').rest + b).frames;
    }
  }

  /** What is left over never holds a complete frame. */
  lemma {:induction false} RestIsPartial(b: Bytes)
    ensures !Complete(Parse(b).rest)
    decreases |b|
  {
    hide Parse;
    if Complete(b) {
      RestIsPartial(b[2 + ReadSize(b)..]);
      ParseComplete(b);
    } else {
      ParsePartial(b);
    }
  }

  // ---- Writing frames ----

  /** lpack: a frame of at most 65535 bytes. */
  function Pack(data: Bytes): (r: Bytes)
    requires |data| < 0x1_0000
  {
    [|data| / 256, |data| % 256] + data
  }

  function PackAll(frames: seq<Bytes>): Bytes
    requires forall k :: 0 <= k < |frames| ==> |frames[k]| < 0x1_0000
  {
    if frames == [] then [] else Pack(frames[0]) + PackAll(frames[1..])
  }

  /** What was packed is parsed back, and nothing is left over. */
  lemma {:induction false} ParsePacked(frames: seq<Bytes>)
    requires forall k :: 0 <= k < |frames| ==> |frames[k]| < 0x1_0000
    ensures Parse(PackAll(frames)) == Parsed(frames, [])
    decreases |frames|
  {
    if frames != [] {
      var b := PackAll(frames);
      assert b[2..] == frames[0] + PackAll(frames[1..]);
      assert ReadSize(b) == |frames[0]|;
      assert b[2..2 + |frames[0]|] == frames[0] && b[2 + |frames[0]|..] == PackAll(frames[1..]);
      ParsePacked(frames[1..]);
      assert frames == [frames[0]] + frames[1..];
    }
  }

  /** The length in front of a frame: its two bytes, the high one first, are the number of bytes that
      follow them, and every length has just one such pair. */
  lemma HeadMeans(data: Bytes, h: Byte, l: Byte)
    requires |data| < 0x1_0000
    ensures Pack(data) == [h, l] + data <==> |data| == 0x100 * h + l
    ensures Complete(Pack(data)) && forall k :: 0 <= k < 2 + |data| ==> !Complete(Pack(data)[..k])
  {
  }

  /** What parsing yields, exactly: the stream is its frames, packed one behind the other, and then what
      is left over, which holds no complete frame; and there is just one way to read a stream so. */
  lemma {:induction false} ParseExactly(b: Bytes, frames: seq<Bytes>, rest: Bytes)
    ensures Parse(b) == Parsed(frames, rest)
            <==> (forall k :: 0 <= k < |frames| ==> |frames[k]| < 0x1_0000)
                 && b == PackAll(frames) + rest && !Complete(rest)
  {
    hide Parse, PackAll;
    ParseIs(b);
    RestIsPartial(b);
    if (forall k :: 0 <= k < |frames| ==> |frames[k]| < 0x1_0000) && b == PackAll(frames) + rest && !Complete(rest) {
      ParsePacked(frames);
      ParseAppend(PackAll(frames), rest);
      assert [] + rest == rest;
      ParsePartial(rest);
      assert frames + [] == frames;
    }
  }

  lemma {:induction false} ParseIs(b: Bytes)
    ensures var p := Parse(b);
            (forall k :: 0 <= k < |p.frames| ==> |p.frames[k]| < 0x1_0000) && b == PackAll(p.frames) + p.rest
    decreases |b|
  {
    hide Parse, PackAll;
    if Complete(b) {
      var n := ReadSize(b);
      var p, f := Parse(b[2 + n..]), b[2..2 + n];
      ParseComplete(b);
      ParseIs(b[2 + n..]);
      HeadIs(b);
      PackedThen(f, p.frames);
      assert b == b[..2 + n] + (PackAll(p.frames) + p.rest);
    } else {
      ParsePartial(b);
      NothingPacked();
    }
  }

  lemma HeadIs(b: Bytes)
    requires Complete(b)
    ensures Pack(b[2..2 + ReadSize(b)]) == b[..2 + ReadSize(b)]
  {
  }

  lemma PackedThen(f: Bytes, frames: seq<Bytes>)
    requires |f| < 0x1_0000 && forall k :: 0 <= k < |frames| ==> |frames[k]| < 0x1_0000
    ensures forall k :: 0 <= k < |[f] + frames| ==> |([f] + frames)[k]| < 0x1_0000
    ensures PackAll([f] + frames) == Pack(f) + PackAll(frames)
  {
    assert ([f] + frames)[1..] == frames;
  }

  lemma NothingPacked()
    ensures PackAll([]) == []
  {
  }

  // ---- Streams cut into chunks ----

  /** One event of a connection. */
  datatype Event = Data(fd: int, chunk: Bytes) | Close(fd: int)

  /** For every connection: what it has left over, and the frames it has yielded since it was opened. */
  datatype Streams = Streams(rests: map<int, Bytes>, yielded: map<int, seq<Bytes>>)

  function RestOf(rests: map<int, Bytes>, fd: int): Bytes
  {
    if fd in rests then rests[fd] else []
  }

  function Keep(rests: map<int, Bytes>, fd: int, rest: Bytes): map<int, Bytes>
  {
    if rest == [] then rests - {fd} else rests[fd := rest]
  }

  function YieldedBy(y: map<int, seq<Bytes>>, fd: int): seq<Bytes>
  {
    if fd in y then y[fd] else []
  }

  /** What one event does, a chunk at a time (FilterData and CloseUncomplete do it). */
  function Handle(s: Streams, e: Event): Streams
  {
    match e
    case Data(fd, chunk) =>
      var p := Parse(RestOf(s.rests, fd) + chunk);
      Streams(Keep(s.rests, fd, p.rest), s.yielded[fd := YieldedBy(s.yielded, fd) + p.frames])
    case Close(fd) => Streams(s.rests - {fd}, s.yielded - {fd})
  }

  ghost function HandleAll(events: seq<Event>): Streams
  {
    if events == [] then Streams(map[], map[]) else Handle(HandleAll(events[..|events| - 1]), events[|events| - 1])
  }

  /** All bytes of a connection, since it was opened. */
  ghost function Received(events: seq<Event>, fd: int): Bytes
  {
    if events == [] then []
    else
      var before, e := Received(events[..|events| - 1], fd), events[|events| - 1];
      if e.fd != fd then before else if e.Close? then [] else before + e.chunk
  }

  /** Chunk independence: however the bytes of a connection are cut into chunks, and whatever other
      connections do in between, its frames are those of its whole byte stream, and what it has left
      over is exactly what follows the last of them, which never holds a complete frame. */
  lemma {:induction false} ChunkIndependence(events: seq<Event>, fd: int)
    ensures var s := HandleAll(events);
            Parse(Received(events, fd)) == Parsed(YieldedBy(s.yielded, fd), RestOf(s.rests, fd))
            && !Complete(RestOf(s.rests, fd))
    decreases |events|
  {
    hide Parse;
    RestIsPartial(Received(events, fd));
    if events != [] {
      var init, e := events[..|events| - 1], events[|events| - 1];
      ChunkIndependence(init, fd);
      if e.fd == fd && e.Data? { ParseAppend(Received(init, fd), e.chunk); }
      if e.fd == fd && e.Close? { ParseNothing(); }
    } else {
      ParseNothing();
    }
  }

  lemma ParseNothing()
    ensures Parse([]) == Parsed([], [])
  {
  }
}
