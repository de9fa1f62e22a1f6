/** Tagged data: a tag, the length of the payload and the payload. The stream of bytes is the contents of
    an evbuffer. */
module TaggedData {
  import opened Basics
  import opened Tagging

  /** evtag_marshal and evtag_marshal_buffer */
  function Block(tag: nat, data: seq<byte>): seq<byte> { TagBytes(tag) + IntBytes(|data|) + data }

  /** evtag_marshal_int and evtag_marshal_int64 */
  function IntBlock(tag: nat, n: nat): seq<byte> { Block(tag, IntBytes(n)) }

  /** evtag_unmarshal_header: the tag, the length of the payload, and what follows. A payload longer than
      INT_MAX counts as an error. */
  function ReadHeader(b: seq<byte>): (r: Option<(nat, nat, seq<byte>)>)
    ensures r.Some? ==> r.value.1 <= |r.value.2| && |r.value.2| + 2 <= |b|
  {
    var t := DecodeTag(b, 0);
    if t.None? then None else
      var rest := b[t.value.1..];
      var l := DecodeInt(rest, 8);
      if l.None? || l.value.0 > |rest| - l.value.1 || l.value.0 > INT_MAX then None
      else Some((t.value.0, l.value.0, rest[l.value.1..]))
  }

  /** evtag_unmarshal: the tag, the payload, and what follows. */
  function ReadBlock(b: seq<byte>): (r: Option<(nat, seq<byte>, seq<byte>)>)
    ensures r.Some? ==> |r.value.1| + |r.value.2| + 2 <= |b|
  {
    var h := ReadHeader(b);
    if h.None? then None else Some((h.value.0, h.value.2[..h.value.1], h.value.2[h.value.1..]))
  }

  /** evtag_unmarshal_int and evtag_unmarshal_int64: the number is read from what follows the length,
      which has to reach at least so far. */
  function ReadInt(b: seq<byte>, tag: nat, most: nat): (r: Option<(nat, seq<byte>)>)
    ensures r.Some? ==> |r.value.1| < |b|
  {
    var t := DecodeTag(b, 0);
    if t.None? || t.value.0 != tag then None else
      var rest := b[t.value.1..];
      var l := DecodeInt(rest, 8);
      if l.None? || l.value.0 > |rest| - l.value.1 then None else
        var payload := rest[l.value.1..];
        var n := DecodeInt(payload, most);
        if n.None? || n.value.1 > l.value.0 then None else Some((n.value.0, payload[l.value.0..]))
  }

  /** evtag_payload_length */
  function PayloadLength(b: seq<byte>): Option<nat> {
    var t := DecodeTag(b, 0);
    if t.None? then None else
      var l := DecodeInt(b[t.value.1..], 8);
      if l.None? then None else Some(l.value.0)
  }

  /** evtag_unmarshal_fixed */
  function ReadFixed(b: seq<byte>, tag: nat, size: nat): (r: Option<(seq<byte>, seq<byte>)>)
    ensures r.Some? ==> |r.value.0| + |r.value.1| + 2 <= |b|
  {
    var k := ReadBlock(b);
    if k.None? || k.value.0 != tag || |k.value.1| != size then None else Some((k.value.1, k.value.2))
  }

  /** The string of C that the bytes make: up to the first zero. */
  function CString(b: seq<byte>): seq<byte> { if b == [] || b[0] == 0 then [] else [b[0]] + CString(b[1..]) }

  /** evtag_unmarshal_string */
  function ReadString(b: seq<byte>, tag: nat): (r: Option<(seq<byte>, seq<byte>)>)
    ensures r.Some? ==> |r.value.1| < |b|
  {
    var k := ReadBlock(b);
    if k.None? || k.value.0 != tag then None else Some((CString(k.value.1), k.value.2))
  }

  lemma {:induction false} CStringWhole(b: seq<byte>)
    requires 0 !in b
    ensures CString(b) == b
    decreases |b|
  {
    if b != [] {
      CStringWhole(b[1..]);
    }
  }

  lemma {:induction false} TagFirst(tag: nat, rest: seq<byte>)
    requires tag < TWO32
    ensures DecodeTag(TagBytes(tag) + rest, 0) == Some((tag, |TagBytes(tag)|))
    ensures (TagBytes(tag) + rest)[|TagBytes(tag)|..] == rest
  {
    TagReadBack(tag, 0, [], rest);
    assert [] + TagBytes(tag) + rest == TagBytes(tag) + rest;
  }

  lemma {:induction false} IntFirst(n: nat, most: nat, rest: seq<byte>)
    requires Count(n) <= most <= 16 && most >= 1
    ensures DecodeInt(IntBytes(n) + rest, most) == Some((n, IntLength(n)))
    ensures (IntBytes(n) + rest)[IntLength(n)..] == rest
  {
    IntReadBack(n, most, rest);
  }

  lemma Count32(n: nat)
    requires n < TWO32
    ensures Count(n) <= 8
  {
    Powers();
    CountUp(n, 8);
  }

  lemma Powers()
    ensures Power16(8) == TWO32 && Power16(16) == TWO64
  {
    assert Power16(4) == 0x10000;
    assert Power16(8) == 16 * 16 * 16 * 16 * Power16(4);
    assert Power16(12) == 16 * 16 * 16 * 16 * Power16(8);
    assert Power16(16) == 16 * 16 * 16 * 16 * Power16(12);
  }

  /** What is written as a block is read back as one, and so is what follows. */
  lemma {:induction false} BlockBack(tag: nat, data: seq<byte>, rest: seq<byte>)
    requires tag < TWO32 && |data| <= INT_MAX
    ensures ReadBlock(Block(tag, data) + rest) == Some((tag, data, rest))
    ensures PayloadLength(Block(tag, data) + rest) == Some(|data|)
  {
    var b := Block(tag, data) + rest;
    var tail := IntBytes(|data|) + (data + rest);
    assert b == TagBytes(tag) + tail;
    TagFirst(tag, tail);
    Count32(|data|);
    IntFirst(|data|, 8, data + rest);
    assert (data + rest)[..|data|] == data && (data + rest)[|data|..] == rest;
  }

  lemma {:induction false} IntBlockBack(tag: nat, n: nat, most: nat, rest: seq<byte>)
    requires tag < TWO32 && Count(n) <= most <= 16 && most >= 1
    ensures ReadInt(IntBlock(tag, n) + rest, tag, most) == Some((n, rest))
  {
    var data := IntBytes(n);
    var b := IntBlock(tag, n) + rest;
    var tail := IntBytes(|data|) + (data + rest);
    assert b == TagBytes(tag) + tail;
    TagFirst(tag, tail);
    Count32(|data|);
    IntFirst(|data|, 8, data + rest);
    IntFirst(n, most, rest);
    assert (data + rest)[|data|..] == rest;
  }

  // ----- what is refused

  lemma {:induction false} TagCut(tag: nat, i: nat, before: seq<byte>, n: nat)
    requires |before| == i && n < |TagBytes(tag)|
    ensures DecodeTag(before + TagBytes(tag)[..n], i) == None
    decreases tag
  {
    var b := before + TagBytes(tag)[..n];
    if n > 0 {
      var next := before + [TagBytes(tag)[0]];
      assert b == next + TagBytes(tag / 128)[..n - 1];
      TagCut(tag / 128, i + 1, next, n - 1);
    }
  }

  lemma {:induction false} IntCut(n: nat, most: nat, k: nat)
    requires k < IntLength(n) && Count(n) <= 16
    ensures DecodeInt(IntBytes(n)[..k], most) == None
  {
    hide Digits, IntByte, Count;
    if k > 0 {
      assert IntBytes(n)[..k][0] == IntBytes(n)[0] == IntByte(n, 0);
      FirstByte(n);
      LengthFromFirst(n);
    }
  }

  lemma {:induction false} LengthFromFirst(n: nat)
    requires Count(n) <= 16
    ensures (if Count(n) == 0 then 1 else Count(n)) / 2 + 1 == IntLength(n)
  {
  }

  /** Part of a block is no block, wherever it is cut off. */
  lemma {:induction false} TruncatedRefused(tag: nat, data: seq<byte>, n: nat)
    requires tag < TWO32 && |data| < TWO32 && n < |Block(tag, data)|
    ensures ReadBlock(Block(tag, data)[..n]) == None
  {
    var b, t, l := Block(tag, data)[..n], |TagBytes(tag)|, IntLength(|data|);
    Count32(|data|);
    if n < t {
      TagCut(tag, 0, [], n);
      assert b == [] + TagBytes(tag)[..n];
    } else {
      var tail := (IntBytes(|data|) + data)[..n - t];
      assert b == TagBytes(tag) + tail;
      TagFirst(tag, tail);
      if n < t + l {
        assert tail == IntBytes(|data|)[..n - t];
        IntCut(|data|, 8, n - t);
      } else {
        assert tail == IntBytes(|data|) + data[..n - t - l];
        IntFirst(|data|, 8, data[..n - t - l]);
      }
    }
  }

  /** Who asks for another tag does not get the block, and neither does who asks for another size. */
  lemma {:induction false} OtherTagRefused(tag: nat, asked: nat, data: seq<byte>, rest: seq<byte>, most: nat, size: nat)
    requires tag < TWO32 && |data| <= INT_MAX && asked != tag
    ensures ReadInt(Block(tag, data) + rest, asked, most) == None
    ensures ReadString(Block(tag, data) + rest, asked) == None
    ensures ReadFixed(Block(tag, data) + rest, asked, size) == None
    ensures size != |data| ==> ReadFixed(Block(tag, data) + rest, tag, size) == None
  {
    BlockBack(tag, data, rest);
    var tail := IntBytes(|data|) + (data + rest);
    assert Block(tag, data) + rest == TagBytes(tag) + tail;
    TagFirst(tag, tail);
  }

  /** A block gives a number exactly if one stands at the start of its payload, or of what follows it, and the
      payload is as long. What else the payload holds is skipped. */
  lemma {:induction false} IntBlockRead(tag: nat, data: seq<byte>, most: nat, rest: seq<byte>)
    requires tag < TWO32 && |data| < TWO32
    ensures var n := DecodeInt(data + rest, most);
      ReadInt(Block(tag, data) + rest, tag, most) ==
      if n.None? || n.value.1 > |data| then None else Some((n.value.0, rest))
  {
    var tail := IntBytes(|data|) + (data + rest);
    assert Block(tag, data) + rest == TagBytes(tag) + tail;
    TagFirst(tag, tail);
    Count32(|data|);
    IntFirst(|data|, 8, data + rest);
    assert (data + rest)[|data|..] == rest;
  }

  /** An evbuffer, for its contents. */
  class Stream {
    var bytes: seq<byte>

    constructor ()
      ensures bytes == []
    {
      bytes := [];
    }

    /** evbuffer_add */
    method Add(data: seq<byte>)
      modifies this
      ensures bytes == old(bytes) + data
    {
      bytes := bytes + data;
    }

    /** evbuffer_drain */
    method Drain(n: nat)
      requires n <= |bytes|
      modifies this
      ensures bytes == old(bytes)[n..]
    {
      bytes := bytes[n..];
    }

    method Marshal(tag: nat, data: seq<byte>)
      requires tag < TWO32 && |data| < TWO32
      modifies this
      ensures bytes == old(bytes) + Block(tag, data)
    {
      Fits(|data|);
      var t := EncodeTag(tag);
      Add(t);
      var l := EncodeInt(|data|, 4);
      Add(l);
      Add(data);
    }

    /** evtag_marshal_int, and evtag_marshal_int64 if wide. */
    method MarshalInt(tag: nat, n: nat, wide: bool)
      requires tag < TWO32 && n < if wide then TWO64 else TWO32
      modifies this
      ensures bytes == old(bytes) + IntBlock(tag, n)
    {
      hide TagBytes, IntBytes, Count, Power16, IntLength;
      Fits(n);
      IntShort(n);
      Fits(IntLength(n));
      var data := EncodeInt(n, if wide then 8 else 4);
      var t := EncodeTag(tag);
      Add(t);
      var l := EncodeInt(|data|, 4);
      Add(l);
      Add(data);
    }

    /** evtag_peek */
    method Peek() returns (tag: Option<nat>)
      ensures tag == (var t := DecodeTag(bytes, 0); if t.None? then None else Some(t.value.0))
    {
      var t := DecodeTagLoop(bytes);
      return if t.None? then None else Some(t.value.0);
    }

    /** evtag_unmarshal_header: what is left is the payload and what follows. */
    method UnmarshalHeader() returns (r: Option<(nat, nat)>)
      modifies this
      ensures
        var h := ReadHeader(old(bytes));
        if h.None? then r.None? else r == Some((h.value.0, h.value.1)) && bytes == h.value.2
    {
      var t := DecodeTagLoop(bytes);
      if t.None? {
        return None;
      }
      Drain(t.value.1);
      var l := DecodeIntLoop(bytes, 8);
      if l.None? {
        return None;
      }
      Drain(l.value.1);
      if |bytes| < l.value.0 || l.value.0 > INT_MAX {
        return None;
      }
      return Some((t.value.0, l.value.0));
    }

    /** evtag_unmarshal */
    method Unmarshal() returns (r: Option<(nat, seq<byte>)>)
      modifies this
      ensures
        var k := ReadBlock(old(bytes));
        if k.None? then r.None? else r == Some((k.value.0, k.value.1)) && bytes == k.value.2
    {
      var h := UnmarshalHeader();
      if h.None? {
        return None;
      }
      var data := bytes[..h.value.1];
      Drain(h.value.1);
      return Some((h.value.0, data));
    }

    /** evtag_unmarshal_int, and evtag_unmarshal_int64 if wide. */
    method UnmarshalInt(tag: nat, wide: bool) returns (n: Option<nat>)
      modifies this
      ensures
        var r := ReadInt(old(bytes), tag, if wide then 16 else 8);
        if r.None? then n.None? else n == Some(r.value.0) && bytes == r.value.1
    {
      var t := DecodeTagLoop(bytes);
      if t.None? || t.value.0 != tag {
        return None;
      }
      Drain(t.value.1);
      var l := DecodeIntLoop(bytes, 8);
      if l.None? {
        return None;
      }
      Drain(l.value.1);
      if |bytes| < l.value.0 {
        return None;
      }
      var v := DecodeIntLoop(bytes, if wide then 16 else 8);
      Drain(l.value.0);
      if v.None? || v.value.1 > l.value.0 {
        return None;
      }
      return Some(v.value.0);
    }

    /** evtag_unmarshal_fixed */
    method UnmarshalFixed(tag: nat, size: nat) returns (data: Option<seq<byte>>)
      modifies this
      ensures
        var r := ReadFixed(old(bytes), tag, size);
        if r.None? then data.None? else data == Some(r.value.0) && bytes == r.value.1
    {
      var h := UnmarshalHeader();
      if h.None? || h.value.0 != tag || h.value.1 != size {
        return None;
      }
      data := Some(bytes[..size]);
      Drain(size);
    }

    /** evtag_unmarshal_string */
    method UnmarshalString(tag: nat) returns (text: Option<seq<byte>>)
      modifies this
      ensures
        var r := ReadString(old(bytes), tag);
        if r.None? then text.None? else text == Some(r.value.0) && bytes == r.value.1
    {
      var h := UnmarshalHeader();
      if h.None? || h.value.0 != tag {
        return None;
      }
      text := Some(CString(bytes[..h.value.1]));
      Drain(h.value.1);
    }

    method GetPayloadLength() returns (n: Option<nat>)
      ensures n == PayloadLength(bytes)
    {
      var t := DecodeTagLoop(bytes);
      if t.None? {
        return None;
      }
      var l := DecodeIntLoop(bytes[t.value.1..], 8);
      return if l.None? then None else Some(l.value.0);
    }
  }

  lemma IntShort(n: nat)
    requires n < TWO64
    ensures IntLength(n) <= 9
  {
    Powers();
    CountUp(n, 16);
  }

  lemma Fits(n: nat)
    ensures n < TWO32 ==> n < Power16(8)
    ensures n < TWO64 ==> n < Power16(16)
  {
    Powers();
  }
}
