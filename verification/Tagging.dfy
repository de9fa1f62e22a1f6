/** The tagged wire format. An integer is written by nibbles, the lowest first, after one nibble with
    their number less one; a tag by groups of seven bits, the lowest first. */
module Tagging {
  import opened Basics

  /** The nibble i of a number, and how many it has up to the last that is not zero. */
  function Nibble(n: nat, i: nat): (d: nat)
    ensures d < 16
  {
    if i == 0 then n % 16 else Nibble(n / 16, i - 1)
  }

  function Count(n: nat): nat { if n == 0 then 0 else 1 + Count(n / 16) }

  /** How many bytes a number takes. */
  function IntLength(n: nat): (l: nat)
    ensures l >= 1
  {
    Count(n) / 2 + 1
  }

  function IntByte(n: nat, j: nat): byte {
    if j == 0 then ((if Count(n) > 1 then Count(n) - 1 else 0) % 16) * 16 + Nibble(n, 0)
    else Nibble(n, 2 * j - 1) * 16 + Nibble(n, 2 * j)
  }

  /** encode_int_internal: the first byte has the number of nibbles less one and the lowest nibble;
      each further one the next two, the lower of them in its upper half. */
  function IntBytes(n: nat): (b: seq<byte>)
    ensures |b| == IntLength(n)
  {
    seq(IntLength(n), j requires 0 <= j => IntByte(n, j))
  }

  lemma {:induction false} CountUp(n: nat, k: nat)
    requires n < Power16(k)
    ensures Count(n) <= k
  {
    if n > 0 {
      CountUp(n / 16, k - 1);
    }
  }

  function Power16(k: nat): (p: nat)
    ensures p >= 1
  {
    if k == 0 then 1 else 16 * Power16(k - 1)
  }

  /** What is left of a number after i nibbles. */
  function Shifted(n: nat, i: nat): nat { if i == 0 then n else Shifted(n / 16, i - 1) }

  lemma {:induction false} ShiftedNibble(n: nat, i: nat)
    ensures Shifted(n, i) % 16 == Nibble(n, i) && Shifted(n, i) / 16 == Shifted(n, i + 1)
  {
    if i > 0 {
      ShiftedNibble(n / 16, i - 1);
    }
  }

  /** Byte j when the first k nibbles are in place, and the number of nibbles is not. */
  function Partial(n: nat, k: nat, j: nat): byte {
    (if j > 0 && 2 * j - 1 < k then Nibble(n, 2 * j - 1) * 16 else 0) + (if 2 * j < k then Nibble(n, 2 * j) else 0)
  }

  lemma {:induction false} NoMore(n: nat, i: nat)
    requires i >= Count(n)
    ensures Nibble(n, i) == 0
  {
    if n > 0 && i > 0 {
      NoMore(n / 16, i - 1);
    } else if i > 0 {
      NoMore(0, i - 1);
    }
  }

  lemma {:induction false} PartialDone(n: nat, j: nat)
    ensures Partial(n, Count(n), j) == if j == 0 then Nibble(n, 0) else IntByte(n, j)
  {
    if 2 * j >= Count(n) {
      NoMore(n, 2 * j);
    }
    if j > 0 && 2 * j - 1 >= Count(n) {
      NoMore(n, 2 * j - 1);
    }
  }

  lemma Start(n: nat)
    ensures Shifted(n, 0) == n && forall j: nat :: Partial(n, 0, j) == 0
  {
  }

  lemma First(n: nat)
    ensures IntByte(n, 0) == ((if Count(n) > 1 then Count(n) - 1 else 0) % 16) * 16 + Nibble(n, 0)
  {
  }

  /** One more nibble: only its byte changes, and only that half of it. */
  lemma {:induction false} Placed(n: nat, k: nat)
    ensures
      var j, d := (k + 1) / 2, Nibble(n, k);
      && (k % 2 == 0 ==> Partial(n, k, j) / 16 * 16 + d == Partial(n, k + 1, j))
      && (k % 2 == 1 ==> Partial(n, k, j) % 16 + d * 16 == Partial(n, k + 1, j))
    ensures forall i: nat :: i != (k + 1) / 2 ==> Partial(n, k + 1, i) == Partial(n, k, i)
  {
  }

  /** The loop of the encoder, which puts one nibble after the other into its half of a byte. */
  method EncodeInt(number: nat, size: nat) returns (data: seq<byte>)
    requires number < Power16(2 * size) && 1 <= size <= 8
    ensures data == IntBytes(number)
  {
    hide Partial, Shifted, IntByte, Nibble;
    var out := new byte[size + 1](_ => 0);
    var off, nibbles, left := 1, 0, number;
    CountUp(number, 2 * size);
    Start(number);
    while left > 0
      invariant 1 <= off && off - 1 + Count(left) == Count(number)
      invariant left == Shifted(number, off - 1)
      invariant forall j: nat :: j < out.Length ==> out[j] == Partial(number, off - 1, j)
    {
      ShiftedNibble(number, off - 1);
      PutNibble(number, out, off, left % 16);
      left := left / 16;
      off := off + 1;
    }
    if off > 2 {
      nibbles := off - 2;
    }
    data := PutCount(number, out, nibbles, (off + 1) / 2);
  }

  /** One nibble goes into its half of a byte: the lower one when off is odd. */
  method PutNibble(ghost number: nat, out: array<byte>, off: nat, nibble: nat)
    requires 1 <= off && off / 2 < out.Length && nibble == Nibble(number, off - 1)
    requires forall j: nat :: j < out.Length ==> out[j] == Partial(number, off - 1, j)
    modifies out
    ensures forall j: nat :: j < out.Length ==> out[j] == Partial(number, off, j)
  {
    hide Partial;
    Placed(number, off - 1);
    if off % 2 == 1 {
      out[off / 2] := out[off / 2] / 16 * 16 + nibble;
    } else {
      out[off / 2] := out[off / 2] % 16 + nibble * 16;
    }
  }

  /** The number of nibbles goes into the first byte. */
  method PutCount(ghost number: nat, out: array<byte>, nibbles: nat, length: nat) returns (data: seq<byte>)
    requires 0 < length == IntLength(number) <= out.Length
    requires nibbles == if Count(number) > 1 then Count(number) - 1 else 0
    requires forall j: nat :: j < out.Length ==> out[j] == Partial(number, Count(number), j)
    modifies out
    ensures data == IntBytes(number)
  {
    hide Partial, Shifted, IntByte, Nibble;
    PartialDone(number, 0);
    First(number);
    forall j: nat | j < out.Length ensures j > 0 ==> out[j] == IntByte(number, j) {
      PartialDone(number, j);
    }
    out[0] := out[0] % 16 + nibbles % 16 * 16;
    data := out[..length];
  }

  /** The digit p of an encoded number, counted from one. */
  function Digit(b: seq<byte>, p: nat): (d: nat)
    requires p / 2 < |b|
    ensures d < 16
  {
    if p % 2 == 1 then b[p / 2] % 16 else b[p / 2] / 16
  }

  /** The number that the digits from p to k stand for. */
  function Digits(b: seq<byte>, p: nat, k: nat): nat
    requires k / 2 < |b|
    decreases k + 1 - p
  {
    if p > k then 0 else Digit(b, p) + 16 * Digits(b, p + 1, k)
  }

  /** decode_int_internal and decode_int64_internal: the number, and how many bytes it took. */
  function DecodeInt(b: seq<byte>, most: nat): (r: Option<(nat, nat)>)
    ensures r.Some? ==> 1 <= r.value.1 <= |b|
  {
    if b == [] then None else
      var nibbles := b[0] / 16 + 1;
      if nibbles > most || nibbles / 2 + 1 > |b| then None
      else Some((Digits(b, 1, nibbles), nibbles / 2 + 1))
  }

  lemma {:induction false} DigitsBound(b: seq<byte>, p: nat, k: nat)
    requires k / 2 < |b| && p <= k + 1
    ensures Digits(b, p, k) < Power16(k + 1 - p)
    decreases k + 1 - p
  {
    if p <= k {
      DigitsBound(b, p + 1, k);
    }
  }

  lemma {:induction false} Power16Grows(a: nat, b: nat)
    requires a <= b
    ensures Power16(a) <= Power16(b)
    decreases b
  {
    if a < b {
      Power16Grows(a, b - 1);
    }
  }

  lemma NoOverflow(number: nat, most: nat)
    requires most >= 1 && number < Power16(most - 1)
    ensures number * 16 % Power16(most) == number * 16
  {
    assert number * 16 < Power16(most);
    SmallMod(number * 16, Power16(most));
  }

  lemma SmallMod(a: nat, m: nat)
    requires a < m
    ensures a % m == a
  {
  }

  /** The loop of the decoder. The number is kept in as many bits as it may have nibbles. */
  method DecodeIntLoop(b: seq<byte>, most: nat) returns (r: Option<(nat, nat)>)
    requires 8 <= most <= 16
    ensures r == DecodeInt(b, most)
  {
    if |b| == 0 {
      return None;
    }
    var nibbles := b[0] / 16 + 1;
    if nibbles > most || nibbles / 2 + 1 > |b| {
      return None;
    }
    var length, number := nibbles / 2 + 1, 0;
    ghost var k := nibbles;
    while nibbles > 0
      invariant 0 <= nibbles <= k && number == Digits(b, nibbles + 1, k)
    {
      DigitsBound(b, nibbles + 1, k);
      Power16Grows(k - nibbles, most - 1);
      NoOverflow(number, most);
      number := number * 16 % Power16(most);
      number := number + Digit(b, nibbles);
      nibbles := nibbles - 1;
    }
    return Some((number, length));
  }

  lemma {:induction false} ShiftedOut(n: nat, k: nat)
    requires k >= Count(n)
    ensures Shifted(n, k) == 0
  {
    if n > 0 {
      ShiftedOut(n / 16, k - 1);
    } else if k > 0 {
      ShiftedOut(0, k - 1);
    }
  }

  lemma {:induction false} DigitsRead(b: seq<byte>, n: nat, p: nat, k: nat)
    requires IntBytes(n) <= b && 1 <= p <= k + 1 && k / 2 < IntLength(n) && k >= Count(n)
    ensures Digits(b, p, k) == Shifted(n, p - 1)
    decreases k + 1 - p
  {
    if p > k {
      ShiftedOut(n, k);
    } else {
      DigitsRead(b, n, p + 1, k);
      ShiftedNibble(n, p - 1);
      DigitRead(b, n, p);
    }
  }

  lemma DigitRead(b: seq<byte>, n: nat, p: nat)
    requires IntBytes(n) <= b && p >= 1 && p / 2 < IntLength(n)
    ensures Digit(b, p) == Nibble(n, p - 1)
  {
    assert b[p / 2] == IntBytes(n)[p / 2] == IntByte(n, p / 2);
  }

  /** A number that is written can be read back, whatever follows. */
  lemma {:induction false} IntReadBack(n: nat, most: nat, rest: seq<byte>)
    requires Count(n) <= most <= 16 && most >= 1
    ensures DecodeInt(IntBytes(n) + rest, most) == Some((n, IntLength(n)))
  {
    hide Digits, IntByte, Count;
    var b := IntBytes(n) + rest;
    assert b[0] == IntBytes(n)[0] == IntByte(n, 0);
    FirstByte(n);
    DigitsRead(b, n, 1, b[0] / 16 + 1);
    Start(n);
  }

  /** The first byte says how many nibbles there are. */
  lemma {:induction false} FirstByte(n: nat)
    requires Count(n) <= 16
    ensures IntByte(n, 0) / 16 + 1 == if Count(n) == 0 then 1 else Count(n)
  {
  }

  /** evtag_encode_tag */
  function TagBytes(tag: nat): (b: seq<byte>)
    ensures |b| >= 1
  {
    if tag < 128 then [tag] else [tag % 128 + 128] + TagBytes(tag / 128)
  }

  /** A tag takes k bytes or less exactly if it has no more than 7 * k bits: no encoding of it is shorter. */
  lemma {:induction false} TagLength(tag: nat, k: nat)
    requires k >= 1
    ensures |TagBytes(tag)| <= k <==> tag < Power128(k)
    decreases tag
  {
    assert Power128(k) == 128 * Power128(k - 1);
    if tag < 128 {
    } else if k == 1 {
      assert Power128(0) == 1;
    } else {
      TagLength(tag / 128, k - 1);
    }
  }

  /** A number takes k bytes or less exactly if it has no more than 2 * k - 1 nibbles. */
  lemma {:induction false} IntLengthIs(n: nat, k: nat)
    requires k >= 1
    ensures IntLength(n) <= k <==> n < Power16(2 * k - 1)
  {
    if n < Power16(2 * k - 1) { CountUp(n, 2 * k - 1); } else { CountDown(n, 2 * k - 1); }
  }

  lemma {:induction false} CountDown(n: nat, k: nat)
    requires n >= Power16(k)
    ensures Count(n) > k
  {
    if k > 0 { CountDown(n / 16, k - 1); }
  }

  method EncodeTag(tag: nat) returns (data: seq<byte>)
    requires tag < TWO32
    ensures data == TagBytes(tag)
  {
    var left := tag;
    data := [];
    while true
      invariant data + TagBytes(left) == TagBytes(tag)
      decreases left
    {
      var lower := left % 128;
      ghost var was := left;
      left := left / 128;
      if left != 0 {
        lower := lower + 128;
      }
      ghost var before := data;
      data := data + [lower];
      if left == 0 {
        return;
      }
      assert before + TagBytes(was) == data + TagBytes(left);
    }
  }

  /** The rest of a tag from its group i on: at most five groups, the last of no more than four bits. */
  function DecodeTag(b: seq<byte>, i: nat): (r: Option<(nat, nat)>)
    ensures r.Some? ==> 1 <= r.value.1 && i + r.value.1 <= |b|
    decreases if i < |b| then |b| - i else 0
  {
    if i >= |b| || i > 4 || (i == 4 && b[i] % 128 > 15) then None
    else if b[i] < 128 then Some((b[i], 1))
    else
      var r := DecodeTag(b, i + 1);
      if r.None? then None else Some((b[i] % 128 + 128 * r.value.0, 1 + r.value.1))
  }

  function Power128(k: nat): (p: nat)
    ensures p >= 1
  {
    if k == 0 then 1 else 128 * Power128(k - 1)
  }

  /** decode_tag_internal: the tag, and how many bytes it took. */
  method DecodeTagLoop(b: seq<byte>) returns (r: Option<(nat, nat)>)
    ensures r == DecodeTag(b, 0)
  {
    hide TagSoFar, DecodeTag, Power128;
    var number: nat, count, shift := 0, 0, 0;
    TagBegins(b);
    while count < |b|
      invariant 0 <= count <= |b| && shift == 7 * count && count <= 5
      invariant TagSoFar(b, number, count)
    {
      var lower := b[count];
      count := count + 1;
      TagEnds(b, number, count - 1);
      if shift >= 28 {
        if shift > 28 {
          return None;
        }
        if lower % 128 > 15 {
          return None;
        }
      }
      TagStep(b, number, count - 1);
      number := number + lower % 128 * Power128(count - 1);
      shift := shift + 7;
      if lower < 128 {
        return Some((number, count));
      }
    }
    TagEnds(b, number, count);
    return None;
  }

  lemma TagBegins(b: seq<byte>)
    ensures TagSoFar(b, 0, 0)
  {
  }

  lemma {:induction false} TagEnds(b: seq<byte>, number: nat, count: nat)
    requires TagSoFar(b, number, count)
    ensures count >= |b| || count > 4 || (count == 4 && b[count] % 128 > 15) ==> DecodeTag(b, 0) == None
  {
  }

  /** The first groups have been read; the rest decides. */
  ghost predicate TagSoFar(b: seq<byte>, number: nat, count: nat) {
    var r := DecodeTag(b, count);
    DecodeTag(b, 0) == if r.None? then None else Some((number + Power128(count) * r.value.0, count + r.value.1))
  }

  lemma {:induction false} TagStep(b: seq<byte>, number: nat, count: nat)
    requires TagSoFar(b, number, count) && count < |b| && count <= 4 && !(count == 4 && b[count] % 128 > 15)
    ensures
      var n := number + b[count] % 128 * Power128(count);
      if b[count] < 128 then DecodeTag(b, 0) == Some((n, count + 1)) else TagSoFar(b, n, count + 1)
  {
    var d, p, r := b[count] % 128, Power128(count), DecodeTag(b, count + 1);
    if b[count] < 128 {
      assert DecodeTag(b, count) == Some((d, 1));
      Commute(p, d);
    } else if r.Some? {
      assert DecodeTag(b, count) == Some((d + 128 * r.value.0, 1 + r.value.1));
      Regroup(p, d, r.value.0);
    } else {
      assert DecodeTag(b, count).None?;
    }
  }

  lemma Commute(p: nat, d: nat)
    ensures p * d == d * p
  {
  }

  lemma Regroup(p: nat, d: nat, x: nat)
    ensures p * (d + 128 * x) == d * p + 128 * p * x
  {
  }

  lemma {:induction false} TagReadBack(tag: nat, i: nat, before: seq<byte>, rest: seq<byte>)
    requires |before| == i <= 4 && tag * Power128(i) < TWO32
    ensures DecodeTag(before + TagBytes(tag) + rest, i) == Some((tag, |TagBytes(tag)|))
    decreases tag
  {
    var b := before + TagBytes(tag) + rest;
    assert b[i] == TagBytes(tag)[0];
    if tag >= 128 {
      var next := before + [TagBytes(tag)[0]];
      assert b == next + TagBytes(tag / 128) + rest;
      TagReadBack(tag / 128, i + 1, next, rest);
    }
  }
}
