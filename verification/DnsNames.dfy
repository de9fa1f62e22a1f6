/** Domain names, and name_parse, which reads them from a packet (section 4.1.4 of RFC 1035). */
module DnsNames {
  import opened Basics

  const DOT: byte := 46
  const NUL: byte := 0
  const MAX_OFFSET := 0x4000

  // ----- names and their labels

  /** The index of the first dot from i on, or the length. */
  function DotFrom(s: seq<byte>, i: nat): (d: nat)
    requires i <= |s|
    ensures i <= d <= |s|
    decreases |s| - i
  {
    if i == |s| || s[i] == DOT then i else DotFrom(s, i + 1)
  }

  /** strchr(s, '.'), or the length. */
  function FirstDot(s: seq<byte>): (d: nat)
    ensures d <= |s|
  {
    DotFrom(s, 0)
  }

  lemma {:induction false} DotFromIs(s: seq<byte>, i: nat)
    requires i <= |s|
    ensures (DotFrom(s, i) < |s| ==> s[DotFrom(s, i)] == DOT) && forall k | i <= k < DotFrom(s, i) :: s[k] != DOT
    decreases |s| - i
  {
    if i < |s| && s[i] != DOT { DotFromIs(s, i + 1); }
  }

  /** The labels of a name, between its dots. */
  function Labels(s: seq<byte>): (r: seq<seq<byte>>)
    ensures r != []
    decreases |s|
  {
    var d := FirstDot(s);
    if d == |s| then [s] else [s[..d]] + Labels(s[d + 1..])
  }

  /** The labels with dots between them. */
  function Dotted(labels: seq<seq<byte>>): seq<byte> {
    if labels == [] then [] else if |labels| == 1 then labels[0] else labels[0] + [DOT] + Dotted(labels[1..])
  }

  lemma DottedLabels(s: seq<byte>)
    ensures Dotted(Labels(s)) == s
    decreases |s|
  {
    var d := FirstDot(s);
    DotFromIs(s, 0);
    if d < |s| {
      DottedLabels(s[d + 1..]);
      assert ([s[..d]] + Labels(s[d + 1..]))[1..] == Labels(s[d + 1..]);
      assert s == s[..d] + [DOT] + s[d + 1..];
    }
  }

  /** Labels of 1 to 63 bytes. */
  predicate GoodLabels(s: seq<byte>)
    decreases |s|
  {
    1 <= FirstDot(s) <= 63 && (FirstDot(s) < |s| ==> GoodLabels(s[FirstDot(s) + 1..]))
  }

  /** Labels of 1 to 63 bytes, no NUL, and at most 255 bytes in all. */
  predicate ValidName(s: seq<byte>) {
    |s| <= 255 && NoNul(s) && GoodLabels(s)
  }

  predicate NoNul(s: seq<byte>) {
    forall i | 0 <= i < |s| :: s[i] != NUL
  }

  predicate SizesGood(labels: seq<seq<byte>>) {
    forall i | 0 <= i < |labels| :: 1 <= |labels[i]| <= 63
  }

  lemma SizesSplit(l: seq<byte>, rest: seq<seq<byte>>)
    ensures SizesGood([l] + rest) <==> 1 <= |l| <= 63 && SizesGood(rest)
  {
    var all := [l] + rest;
    assert all[0] == l && forall i | 0 <= i < |rest| :: rest[i] == all[i + 1];
    assert forall i | 0 < i < |all| :: all[i] == rest[i - 1];
  }

  lemma {:induction false} GoodLabelsAre(s: seq<byte>)
    ensures GoodLabels(s) <==> SizesGood(Labels(s))
    decreases |s|
  {
    var d := FirstDot(s);
    if d < |s| {
      SizesSplit(s[..d], Labels(s[d + 1..]));
      GoodLabelsAre(s[d + 1..]);
    } else {
      SizesSplit(s, []);
      assert [s] + [] == [s];
    }
  }

  // ----- pointers

  /** The low six bits of a byte. */
  function LowSix(x: byte): (r: nat)
    ensures r < 64
  {
    if x >= 192 then x - 192 else if x >= 128 then x - 128 else if x >= 64 then x - 64 else x
  }

  // Multiplication and division by repeated steps, which keeps the arithmetic out of the other proofs.

  function Times256(n: nat): nat { if n == 0 then 0 else Times256(n - 1) + 256 }

  lemma Times256Is(n: nat)
    ensures Times256(n) == n * 256
  {}

  /** Where the pointer at pos leads. */
  function Target(b: seq<byte>, pos: nat): nat
    requires pos + 1 < |b|
  {
    Times256(LowSix(b[pos])) + b[pos + 1]
  }

  // ----- name_parse

  datatype Parsed = Bad | Name(labels: seq<seq<byte>>, end: nat)

  /** What name_parse makes of the packet at j after count jumps; jumped is the index after the first pointer. */
  function Parse(packet: seq<byte>, j: nat, count: nat, jumped: int): Parsed
    requires count <= |packet|
    decreases |packet| - count, |packet| - j
  {
    if j >= |packet| then Bad
    else if packet[j] == 0 then Name([], if jumped < 0 then j + 1 else jumped)
    else if packet[j] >= 64 then
      if j + 1 >= |packet| || Target(packet, j) >= |packet| || count + 1 > |packet| then Bad
      else Parse(packet, Target(packet, j), count + 1, if jumped < 0 then j + 2 else jumped)
    else if j + 1 + packet[j] > |packet| then Bad
    else match Parse(packet, j + 1 + packet[j], count, jumped)
         case Bad => Bad
         case Name(rest, end) => Name([packet[j + 1..j + 1 + packet[j]]] + rest, end)
  }

  /** The labels read so far, then what the rest of the packet says. */
  function After(done: seq<seq<byte>>, p: Parsed): Parsed {
    match p
    case Bad => Bad
    case Name(labels, end) => Name(done + labels, end)
  }

  lemma AfterStep(b: seq<byte>, j: nat, count: nat, jumped: int, done: seq<seq<byte>>)
    requires count <= |b| && j < |b| && 0 < b[j] < 64 && j + 1 + b[j] <= |b|
    ensures After(done, Parse(b, j, count, jumped)) ==
              After(done + [b[j + 1..j + 1 + b[j]]], Parse(b, j + 1 + b[j], count, jumped))
  {
    match Parse(b, j + 1 + b[j], count, jumped)
    case Bad =>
    case Name(rest, end) => assert done + ([b[j + 1..j + 1 + b[j]]] + rest) == done + [b[j + 1..j + 1 + b[j]]] + rest;
  }

  lemma DottedPush(done: seq<seq<byte>>, l: seq<byte>)
    ensures Dotted(done + [l]) == if done == [] then l else Dotted(done) + [DOT] + l
  {
    if |done| > 1 {
      assert (done + [l])[1..] == done[1..] + [l];
      DottedPush(done[1..], l);
    } else if |done| == 1 {
      assert (done + [l])[1..] == [l];
    }
  }

  lemma DottedGrows(a: seq<seq<byte>>, b: seq<seq<byte>>)
    ensures |Dotted(a)| <= |Dotted(a + b)|
  {
    if a == [] {
    } else if b == [] {
      assert a + b == a;
    } else {
      assert (a + b)[1..] == a[1..] + b;
      DottedGrows(a[1..], b);
    }
  }

  /** A label that is read belongs to the whole name, if there is one. */
  lemma TooLong(done: seq<seq<byte>>, p: Parsed, size: int)
    requires size <= |Dotted(done)|
    ensures After(done, p).Bad? || size <= |Dotted(After(done, p).labels)|
  {
    if p.Name? { DottedGrows(done, p.labels); }
  }

  /** memcpy */
  method CopyBytes(dst: array<byte>, at: nat, src: array<byte>, from: nat, n: nat)
    requires at + n <= dst.Length && from + n <= src.Length && dst != src
    modifies dst
    ensures dst[..at + n] == old(dst[..at]) + src[from..from + n]
    ensures forall i | at + n <= i < dst.Length :: dst[i] == old(dst[i])
  {
    forall i | 0 <= i < n { dst[at + i] := src[from + i]; }
  }

  /** Puts the label of n bytes at j behind the labels done, if there is room for it and a byte more; -1 if not. */
  method PutLabel(packet: array<byte>, length: nat, j: nat, n: nat, nameOut: array<byte>, size: nat, cp0: nat,
                  ghost done: seq<seq<byte>>)
    returns (cp: int)
    requires length <= packet.Length && size <= nameOut.Length && packet != nameOut && j <= length && n > 0
    requires cp0 <= size && nameOut[..cp0] == Dotted(done) && (cp0 == 0 <==> done == [])
    modifies nameOut
    ensures cp == -1 <==> j + n > length || |Dotted(done)| + (if done == [] then 0 else 1) + n >= size
    ensures cp != -1 ==> 0 < cp < size && nameOut[..cp] == Dotted(done + [packet[..length][j..j + n]])
    ensures forall i | size <= i < nameOut.Length :: nameOut[i] == old(nameOut[i])
  {
    cp := cp0;
    if cp != 0 {
      if cp + 1 >= size {
        return -1;
      }
      nameOut[cp] := DOT;
      cp := cp + 1;
      assert nameOut[..cp] == Dotted(done) + [DOT];
    }
    if cp + n >= size || j + n > length {
      return -1;
    }
    CopyBytes(nameOut, cp, packet, j, n);
    assert packet[j..j + n] == packet[..length][j..j + n];
    DottedPush(done, packet[j..j + n]);
    cp := cp + n;
  }

  /** The name cannot be put out in size bytes, or there is none. */
  predicate Fails(p: Parsed, size: nat) {
    p.Bad? || |Dotted(p.labels)| >= size
  }

  /** The part of name_parse for a pointer, whose first byte is labelLen, at j. */
  method FollowPointer(packet: array<byte>, length: nat, j: nat, count: nat, nameEnd: int)
    returns (ok: bool, j': nat, nameEnd': int)
    requires length <= packet.Length && j < length && packet[j] >= 64 && count <= length
    ensures var p := Parse(packet[..length], j, count, nameEnd);
      if ok then count < length && p == Parse(packet[..length], j', count + 1, nameEnd') else p == Bad
  {
    ok, j', nameEnd' := false, j + 1, nameEnd;
    if j' >= length {
      return;
    }
    var low: nat := packet[j'];
    j' := j' + 1;
    if nameEnd' < 0 { nameEnd' := j'; }
    Times256Is(LowSix(packet[j]));
    j' := LowSix(packet[j]) * 256 + low;
    if j' >= length || count + 1 > length {
      return;
    }
    ok := true;
  }

  /** The label at j belongs to the name; if that makes it too long, all of it is. */
  lemma LabelTaken(b: seq<byte>, j: nat, count: nat, jumped: int, done: seq<seq<byte>>, size: nat)
    requires count <= |b| && j < |b| && 0 < b[j] < 64 && j + 1 + b[j] <= |b|
    ensures var l := b[j + 1..j + 1 + b[j]];
      && After(done, Parse(b, j, count, jumped)) == After(done + [l], Parse(b, j + 1 + b[j], count, jumped))
      && (|Dotted(done)| + (if done == [] then 0 else 1) + |l| >= size ==>
            Fails(After(done, Parse(b, j, count, jumped)), size))
  {
    var l := b[j + 1..j + 1 + b[j]];
    AfterStep(b, j, count, jumped, done);
    DottedPush(done, l);
    if |Dotted(done + [l])| >= size { TooLong(done + [l], Parse(b, j + 1 + b[j], count, jumped), size); }
  }

  /** The part of name_parse for the label at j. */
  method TakeLabel(packet: array<byte>, length: nat, j: nat, nameOut: array<byte>, size: nat, cp0: nat,
                   ghost count: nat, ghost nameEnd: int, ghost done: seq<seq<byte>>)
    returns (cp: int, ghost done': seq<seq<byte>>)
    requires length <= packet.Length && size <= nameOut.Length && packet != nameOut && j < length && 0 < packet[j] < 64
    requires cp0 <= size && nameOut[..cp0] == Dotted(done) && (cp0 == 0 <==> done == []) && count <= length
    modifies nameOut
    ensures cp == -1 ==> Fails(After(done, Parse(packet[..length], j, count, nameEnd)), size)
    ensures cp != -1 ==> 0 < cp < size && nameOut[..cp] == Dotted(done') && done' != [] && j + 1 + packet[j] <= length
    ensures cp != -1 ==>
      After(done, Parse(packet[..length], j, count, nameEnd)) ==
        After(done', Parse(packet[..length], j + 1 + packet[j], count, nameEnd))
    ensures forall i | size <= i < nameOut.Length :: nameOut[i] == old(nameOut[i])
  {
    ghost var b := packet[..length];
    var n: nat := packet[j];
    if j + 1 + n <= length { LabelTaken(b, j, count, nameEnd, done, size); }
    cp := PutLabel(packet, length, j + 1, n, nameOut, size, cp0, done);
    done' := if cp == -1 then done else done + [b[j + 1..j + 1 + n]];
  }

  /** name_parse. It ends on every packet, reads only within the first length bytes of it and writes
      only the first nameOutLen bytes of nameOut. */
  method NameParse(packet: array<byte>, length: nat, idx: nat, nameOut: array<byte>, nameOutLen: nat)
    returns (r: int, idx': nat)
    requires length <= packet.Length && nameOutLen <= nameOut.Length && packet != nameOut
    modifies nameOut
    ensures var p := Parse(packet[..length], idx, 0, -1);
      && r == (if Fails(p, nameOutLen) then -1 else 0)
      && (r == 0 ==>
            idx' == p.end && nameOut[..|Dotted(p.labels)|] == Dotted(p.labels) && nameOut[|Dotted(p.labels)|] == 0)
      && (r == -1 ==> idx' == idx)
    ensures forall i | nameOutLen <= i < nameOut.Length :: nameOut[i] == old(nameOut[i])
  {
    ghost var b := packet[..length];
    ghost var whole := Parse(b, idx, 0, -1);
    ghost var done: seq<seq<byte>> := [];
    r, idx' := -1, idx;
    var nameEnd: int, j: nat, count: nat, cp: int := -1, idx, 0, 0;
    while true
      invariant count <= length && 0 <= cp <= nameOutLen && whole == After(done, Parse(b, j, count, nameEnd))
      invariant nameOut[..cp] == Dotted(done) && (cp == 0 <==> done == []) && (cp > 0 ==> cp < nameOutLen)
      invariant forall i | nameOutLen <= i < nameOut.Length :: nameOut[i] == old(nameOut[i])
      invariant r == -1 && idx' == idx && b == packet[..length]
      decreases length - count, length - j
    {
      if j >= length {
        return;
      }
      var labelLen: nat := packet[j];
      assert labelLen == b[j];
      if labelLen == 0 {
        j := j + 1;
        break;
      }
      if labelLen >= 64 {
        var ok;
        ok, j, nameEnd := FollowPointer(packet, length, j, count, nameEnd);
        if !ok {
          return;
        }
        count := count + 1;
      } else {
        cp, done := TakeLabel(packet, length, j, nameOut, nameOutLen, cp, count, nameEnd, done);
        if cp == -1 {
          return;
        }
        j := j + 1 + labelLen;
      }
    }
    assert whole == Name(done, if nameEnd < 0 then j else nameEnd) by { assert done + [] == done; }
    if cp >= nameOutLen {
      return;
    }
    nameOut[cp] := 0;
    r := 0;
    idx' := if nameEnd < 0 then j else nameEnd;
  }
}
