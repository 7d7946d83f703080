/** skynet/lualib-src/lua-crypt.c, ldesencode and ldesdecode: texts of any length, with both paddings. */
module DesText {
  import opened DesBlock

  datatype Option<T> = None | Some(value: T)
  datatype Padding = Iso7816 | Pkcs7

  type Text = seq<Byte>

  /** Byte k of a padding of n bytes. */
  function PaddingByte(mode: Padding, n: nat, k: int): Byte
    requires 1 <= n <= 8
  {
    match mode
    case Iso7816 => if k == 0 then 0x80 else 0
    case Pkcs7 => n as Byte
  }

  /** The n bytes that fill the last block. */
  function PaddingBytes(mode: Padding, n: nat): (r: Text)
    requires 1 <= n <= 8
    ensures |r| == n
  {
    seq(n, k => PaddingByte(mode, n, k))
  }

  /** The text, padded to whole blocks: there is always at least one byte of padding. */
  function Padded(mode: Padding, text: Text): (r: Text)
    ensures |r| % 8 == 0 && |r| > |text|
  {
    text + PaddingBytes(mode, 8 - |text| % 8)
  }

  /** Every block of a text, encrypted by itself. */
  function CryptAll(box: Boxes, k: Keys, text: Text): (r: Text)
    requires |text| % 8 == 0
    ensures |r| == |text|
    decreases |text|
  {
    if text == [] then []
    else CryptAll(box, k, text[..|text| - 8]) + Crypt(box, k, text[|text| - 8..])
  }

  function Encoded(box: Boxes, k: Keys, mode: Padding, text: Text): Text
  {
    CryptAll(box, k, Padded(mode, text))
  }

  /** The text ends in a valid padding of n bytes. */
  ghost predicate EndsInPadding(mode: Padding, text: Text, n: nat)
  {
    && 1 <= n <= 8 && n <= |text|
    && forall k :: |text| - n <= k < |text| ==> text[k] == PaddingByte(mode, n, k - (|text| - n))
  }

  /** The text that an encoded text stands for: `None` is the source's error. */
  ghost predicate Decodes(box: Boxes, k: Keys, mode: Padding, text: Text, r: Option<Text>)
  {
    if |text| % 8 != 0 || text == [] then r == None
    else
      var plain := CryptAll(box, ReversedKeys(k), text);
      match r
      case None => forall n :: !EndsInPadding(mode, plain, n)
      case Some(t) => |t| < |plain| && t == plain[..|t|] && EndsInPadding(mode, plain, |plain| - |t|)
  }

  /** A text ends in at most one padding, so decoding has one result. */
  lemma PaddingUnique(mode: Padding, text: Text, n: nat, m: nat)
    requires EndsInPadding(mode, text, n) && EndsInPadding(mode, text, m)
    ensures n == m
  {
    var last, a, b := text[|text| - 1], text[|text| - n], text[|text| - m];
    assert mode.Pkcs7? ==> last == n as Byte && last == m as Byte;
    assert mode.Iso7816? ==> a == 0x80 && b == 0x80;
  }

  lemma {:induction false} CryptAllBack(box: Boxes, k: Keys, text: Text)
    requires |text| % 8 == 0
    ensures CryptAll(box, ReversedKeys(k), CryptAll(box, k, text)) == text
    decreases |text|
  {
    hide Crypt, ReversedKeys;
    if text != [] {
      var init, last := text[..|text| - 8], text[|text| - 8..];
      var c := CryptAll(box, k, text);
      assert c[..|c| - 8] == CryptAll(box, k, init) && c[|c| - 8..] == Crypt(box, k, last);
      CryptAllBack(box, k, init);
      CryptBack(box, k, last);
    }
  }

  /** The round trip: for every key schedule, text and padding, decoding undoes encoding, and nothing
      else is a result of decoding. */
  lemma RoundTrip(box: Boxes, k: Keys, mode: Padding, text: Text, r: Option<Text>)
    ensures Decodes(box, k, mode, Encoded(box, k, mode, text), r) <==> r == Some(text)
  {
    hide CryptAll;
    var padded := Padded(mode, text);
    CryptAllBack(box, k, padded);
    assert padded[..|text|] == text;
    assert EndsInPadding(mode, padded, |padded| - |text|);
    if r.Some? && Decodes(box, k, mode, Encoded(box, k, mode, text), r) {
      PaddingUnique(mode, padded, |padded| - |text|, |padded| - |r.value|);
    }
  }

  /** A text that ends in a padding is what the padding was added to. */
  lemma UnpaddedIs(mode: Padding, plain: Text, t: Text)
    requires |plain| % 8 == 0 && |t| < |plain| && t == plain[..|t|]
    requires EndsInPadding(mode, plain, |plain| - |t|)
    ensures plain == Padded(mode, t)
  {
    var n := |plain| - |t|;
    assert n == 8 - |t| % 8;
    assert plain == plain[..|t|] + plain[|t|..];
    assert plain[|t|..] == PaddingBytes(mode, n);
  }

  /** What decoding accepts: for every key schedule and padding, a text of bytes decodes to `t` exactly
      when it is what `t` is encoded to.  So a decoding that is not the source's error loses nothing, and
      the error means that nothing is encoded to these bytes. */
  lemma DecodeExact(box: Boxes, k: Keys, mode: Padding, c: Text, t: Text)
    ensures Decodes(box, k, mode, c, Some(t)) <==> c == Encoded(box, k, mode, t)
    ensures Decodes(box, k, mode, c, None) <==> forall u :: c != Encoded(box, k, mode, u)
  {
    hide CryptAll, Crypt, EndsInPadding, PaddingBytes;
    forall u ensures Decodes(box, k, mode, c, Some(u)) <==> c == Encoded(box, k, mode, u) {
      DecodeSome(box, k, mode, c, u);
    }
    if |c| % 8 == 0 && c != [] {
      var plain := CryptAll(box, ReversedKeys(k), c);
      if n :| EndsInPadding(mode, plain, n) {
        EndShorter(mode, plain, n);
        var u := plain[..|plain| - n];
        assert Decodes(box, k, mode, c, Some(u));
        assert c == Encoded(box, k, mode, u);
      }
    }
    if u :| c == Encoded(box, k, mode, u) { assert Decodes(box, k, mode, c, Some(u)); SomeNotNone(box, k, mode, c, u); }
  }

  lemma EndShorter(mode: Padding, plain: Text, n: nat)
    requires EndsInPadding(mode, plain, n)
    ensures 1 <= n <= |plain|
  {
  }

  lemma SomeNotNone(box: Boxes, k: Keys, mode: Padding, c: Text, t: Text)
    requires Decodes(box, k, mode, c, Some(t))
    ensures !Decodes(box, k, mode, c, None)
  {
  }

  lemma DecodeSome(box: Boxes, k: Keys, mode: Padding, c: Text, t: Text)
    ensures Decodes(box, k, mode, c, Some(t)) <==> c == Encoded(box, k, mode, t)
  {
    hide CryptAll, Crypt, EndsInPadding, PaddingBytes;
    if Decodes(box, k, mode, c, Some(t)) {
      UnpaddedIs(mode, CryptAll(box, ReversedKeys(k), c), t);
      ReversedTwice(k);
      CryptAllBack(box, ReversedKeys(k), c);
    }
    RoundTrip(box, k, mode, t, Some(t));
  }

  lemma ReversedTwice(k: Keys)
    ensures ReversedKeys(ReversedKeys(k)) == k
  {
  }

  // ---- The code ----

  lemma PaddedAt(mode: Padding, tail: Text, k: nat)
    requires |tail| < 8 && k < 8
    ensures |PaddingBytes(mode, 8 - |tail|)| == 8 - |tail|
    ensures (tail + PaddingBytes(mode, 8 - |tail|))[k]
            == if k < |tail| then tail[k] else PaddingByte(mode, 8 - |tail|, k - |tail|)
  {
  }

  /** padding_add_iso7816_4 and padding_add_pkcs7, after the tail of the text was copied. */
  method AddPadding(mode: Padding, tail: Text) returns (buf: Block)
    requires |tail| < 8
    ensures buf == tail + PaddingBytes(mode, 8 - |tail|)
  {
    hide PaddingBytes;
    ghost var full := tail + PaddingBytes(mode, 8 - |tail|);
    forall k: nat | k < 8
      ensures |full| == 8 && full[k] == if k < |tail| then tail[k] else PaddingByte(mode, 8 - |tail|, k - |tail|)
    {
      PaddedAt(mode, tail, k);
    }
    var offset := |tail|;
    buf := tail + seq(8 - offset, _ => 0);
    match mode {
      case Iso7816 =>
        buf := buf[offset := 0x80];
        var i := offset + 1;
        while i < 8
          invariant offset < i <= 8 && |buf| == 8 && forall k :: 0 <= k < i ==> buf[k] == full[k]
        {
          buf := buf[i := 0];
          i := i + 1;
        }
      case Pkcs7 =>
        var i := offset;
        while i < 8
          invariant offset <= i <= 8 && |buf| == 8 && forall k :: 0 <= k < i ==> buf[k] == full[k]
        {
          buf := buf[i := (8 - offset) as Byte];
          i := i + 1;
        }
    }
  }

  /** The blocks that are whole, and the padded rest. */
  lemma PaddedTail(mode: Padding, text: Text, i: nat)
    requires i % 8 == 0 && i <= |text| < i + 8
    ensures text[..i] + (text[i..] + PaddingBytes(mode, 8 - |text[i..]|)) == Padded(mode, text)
  {
    hide PaddingBytes;
    assert |text[i..]| == |text| % 8;
    assert text[..i] + text[i..] == text;
  }

  /** ldesencode. */
  method DesEncode(box: Boxes, sk: Keys, mode: Padding, text: Text) returns (buffer: Text)
    ensures buffer == Encoded(box, sk, mode, text)
  {
    hide Crypt, CryptAll, PaddingBytes, PaddingByte, Padded;
    buffer := [];
    var i := 0;
    assert text[..0] == [];
    CryptNone(box, sk);
    while i < |text| - 7
      invariant i % 8 == 0 && i <= |text|
      invariant buffer == CryptAll(box, sk, text[..i])
      decreases |text| - i
    {
      var block := text[i..i + 8];
      var out := DesCrypt(box, sk, block);
      CryptSnoc(box, sk, text[..i], block);
      assert text[..i + 8] == text[..i] + block;
      buffer := buffer + out;
      i := i + 8;
    }
    var tail := AddPadding(mode, text[i..]);
    var out := DesCrypt(box, sk, tail);
    CryptSnoc(box, sk, text[..i], tail);
    PaddedTail(mode, text, i);
    buffer := buffer + out;
  }

  lemma CryptNone(box: Boxes, k: Keys)
    ensures CryptAll(box, k, []) == []
  {
  }

  lemma CryptSnoc(box: Boxes, k: Keys, text: Text, block: Block)
    requires |text| % 8 == 0
    ensures CryptAll(box, k, text + block) == CryptAll(box, k, text) + Crypt(box, k, block)
  {
    hide Crypt;
    var all := text + block;
    assert all[..|all| - 8] == text && all[|all| - 8..] == block;
  }

  /** padding_remove_iso7816_4: look for 0x80 behind at most seven zeros. */
  method RemoveIso7816(plain: Text) returns (padding: nat)
    requires |plain| >= 8
    ensures padding != 0 ==> EndsInPadding(Iso7816, plain, padding)
    ensures padding == 0 ==> forall n :: !EndsInPadding(Iso7816, plain, n)
  {
    padding := 1;
    var i, last := 0, |plain| - 1;
    while i < 8
      invariant i <= 8 && padding == i + 1 && last == |plain| - 1 - i
      invariant forall k :: last < k < |plain| ==> plain[k] == 0
    {
      if plain[last] == 0 {
        padding := padding + 1;
      } else {
        if plain[last] == 0x80 {
          return;
        }
        NoIso7816(plain, last);
        return 0;
      }
      i, last := i + 1, last - 1;
    }
    NoIso7816(plain, last);
    return 0;
  }

  lemma NoIso7816(plain: Text, last: int)
    requires -1 <= last < |plain| && forall k :: last < k < |plain| ==> plain[k] == 0
    requires |plain| - last > 8 || (last >= 0 && plain[last] != 0 && plain[last] != 0x80)
    ensures forall n :: !EndsInPadding(Iso7816, plain, n)
  {
    var at := if last >= 0 then plain[last] else 0;
    forall n: nat ensures !EndsInPadding(Iso7816, plain, n) {
      var first := if 1 <= n <= |plain| then plain[|plain| - n] else 0;
    }
  }

  /** padding_remove_pkcs7: every byte of the padding is its length. */
  method RemovePkcs7(plain: Text) returns (padding: nat)
    requires |plain| >= 8
    ensures 1 <= padding <= 8 ==> EndsInPadding(Pkcs7, plain, padding)
    ensures !(1 <= padding <= 8) ==> forall n :: !EndsInPadding(Pkcs7, plain, n)
  {
    var last := |plain| - 1;
    hide EndsInPadding;
    padding := plain[last] as nat;
    LastOfPkcs7(plain);
    var i := 1;
    while i < padding && last > 0
      invariant last == |plain| - i && 1 <= i && (padding > 0 ==> i <= padding)
      invariant forall k :: last <= k < |plain| ==> plain[k] == plain[|plain| - 1]
    {
      last := last - 1;
      if plain[last] as nat != padding {
        NotPkcs7(plain, padding, last);
        NoOtherPkcs7(plain, padding);
        return 0;
      }
      i := i + 1;
    }
    if 1 <= padding <= 8 { IsPkcs7(plain, padding); } else { NotSoLong(plain, padding); NoOtherPkcs7(plain, padding); }
  }

  lemma NotSoLong(plain: Text, n: nat)
    requires !(1 <= n <= 8)
    ensures !EndsInPadding(Pkcs7, plain, n)
  {
  }

  /** All bytes of a padding are its length. */
  lemma IsPkcs7(plain: Text, n: nat)
    requires 1 <= n <= 8 <= |plain| && forall k :: |plain| - n <= k < |plain| ==> plain[k] as nat == n
    ensures EndsInPadding(Pkcs7, plain, n)
  {
  }

  lemma NoOtherPkcs7(plain: Text, last: nat)
    requires plain != [] && plain[|plain| - 1] as nat == last && !EndsInPadding(Pkcs7, plain, last)
    ensures forall n :: !EndsInPadding(Pkcs7, plain, n)
  {
    hide EndsInPadding;
    LastOfPkcs7(plain);
  }

  /** A valid padding's length is the last byte. */
  lemma LastOfPkcs7(plain: Text)
    requires plain != []
    ensures forall n :: EndsInPadding(Pkcs7, plain, n) ==> plain[|plain| - 1] as nat == n
  {
    var last := plain[|plain| - 1];
  }

  lemma NotPkcs7(plain: Text, n: nat, k: nat)
    requires |plain| - n <= k < |plain| && plain[k] as nat != n
    ensures !EndsInPadding(Pkcs7, plain, n)
  {
  }

  /** ldesdecode. */
  method DesDecode(box: Boxes, esk: Keys, mode: Padding, text: Text) returns (r: Option<Text>)
    ensures Decodes(box, esk, mode, text, r)
  {
    hide Crypt;
    var sk: seq<Word> := seq(32, _ => 0);
    var j := 0;
    while j < 32
      invariant j <= 32 && j % 2 == 0 && |sk| == 32 && sk[..j] == ReversedKeys(esk)[..j]
    {
      sk := sk[j := esk[30 - j]][j + 1 := esk[31 - j]];
      j := j + 2;
    }
    assert sk == ReversedKeys(esk);
    if |text| % 8 != 0 || |text| == 0 { return None; }
    var buffer: Text := [];
    var i := 0;
    while i < |text|
      invariant i % 8 == 0 && i <= |text| && buffer == CryptAll(box, sk, text[..i])
    {
      var block := text[i..i + 8];
      var out := DesCrypt(box, sk, block);
      CryptSnoc(box, sk, text[..i], block);
      assert text[..i + 8] == text[..i] + block;
      buffer := buffer + out;
      i := i + 8;
    }
    assert text[..i] == text;
    var padding := 0;
    match mode {
      case Iso7816 => padding := RemoveIso7816(buffer);
      case Pkcs7 => padding := RemovePkcs7(buffer);
    }
    if padding <= 0 || padding > 8 { return None; }
    r := Some(buffer[..|buffer| - padding]);
  }

  /** Both directions together: what was encoded is decoded. */
  method RoundTripRun(box: Boxes, sk: Keys, mode: Padding, text: Text) returns (r: Option<Text>)
    ensures r == Some(text)
  {
    var c := DesEncode(box, sk, mode, text);
    r := DesDecode(box, sk, mode, c);
    RoundTrip(box, sk, mode, text, r);
  }
}
