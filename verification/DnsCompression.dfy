/** What sharing names in a packet saves (section 4.1.4 of RFC 1035): which names dnsname_to_labels leaves in
    its table of 128, where it writes a pointer instead of a name, and what it writes otherwise. */
module DnsCompression {
  import opened Basics
  import opened DnsNames
  import opened DnsLabels

  /** A label of s starts at i. */
  predicate LabelStart(s: seq<byte>, i: int) {
    0 <= i <= |s| && (i == 0 || s[i - 1] == DOT)
  }

  /** What stands behind the dot in front of i is in the table. */
  predicate TailIn(s: seq<byte>, i: int, entries: Names) {
    LabelStart(s, i) && s[i..] in entries
  }

  /** Up to limit, neither s nor what stands behind one of its dots is in the table. */
  ghost predicate NoTailIn(s: seq<byte>, entries: Names, limit: int) {
    forall i | 0 <= i < limit :: !TailIn(s, i, entries)
  }

  /** s and what stands behind each of its dots are in the table. */
  ghost predicate AllTailsIn(s: seq<byte>, entries: Names) {
    forall i | LabelStart(s, i) :: TailIn(s, i, entries)
  }

  /** With a name of at most n bytes, what stands behind its dots is in the table. */
  ghost predicate ClosedUpTo(entries: Names, n: nat) {
    forall v | v in entries && |v| <= n :: AllTailsIn(v, entries)
  }

  ghost predicate Closed(entries: Names) {
    forall v | v in entries :: AllTailsIn(v, entries)
  }

  /** Byte k of a name in full: the length of the label that starts there, or the byte of the name in front. */
  ghost predicate LabelByte(bytes: seq<byte>, s: seq<byte>, k: int) {
    0 <= k < |bytes| && k <= |s| && bytes[k] == if LabelStart(s, k) then FirstDot(s[k..]) else s[k - 1]
  }

  ghost predicate LabelBytes(bytes: seq<byte>, s: seq<byte>, n: int) {
    forall k | 0 <= k < n :: LabelByte(bytes, s, k)
  }

  /** The labels of s that start in front of limit have at most 63 bytes. */
  ghost predicate ShortUpTo(s: seq<byte>, limit: int) {
    forall k | 0 <= k < limit && LabelStart(s, k) :: FirstDot(s[k..]) <= 63
  }

  // ----- behind the first label

  lemma {:induction false} FirstLabel(s: seq<byte>, k: int)
    requires 0 < k <= FirstDot(s)
    ensures !LabelStart(s, k)
  {
    DotFromIs(s, 0);
  }

  lemma {:induction false} StartBehind(s: seq<byte>, d: nat, k: int)
    requires d == FirstDot(s) < |s| && 0 <= k
    ensures LabelStart(s, d + 1 + k) <==> LabelStart(s[d + 1..], k)
    ensures LabelStart(s, d + 1 + k) ==> s[d + 1 + k..] == s[d + 1..][k..]
  {
    DotFromIs(s, 0);
  }

  lemma {:induction false} NoTailBehind(s: seq<byte>, d: nat, entries: Names, at: nat, limit: int)
    requires d == FirstDot(s) < |s| && s !in entries && d < limit
    ensures NoTailIn(s, entries, limit) <==> NoTailIn(s[d + 1..], Added(entries, s, at), limit - d - 1)
    ensures NoTailIn(s, entries, limit) <==> NoTailIn(s[d + 1..], entries, limit - d - 1)
  {
    var t := s[d + 1..];
    forall k | 0 <= k < limit - d - 1
      ensures TailIn(t, k, entries) <==> TailIn(s, d + 1 + k, entries)
      ensures TailIn(t, k, Added(entries, s, at)) <==> TailIn(t, k, entries)
    {
      StartBehind(s, d, k);
    }
    forall i | 0 <= i < limit && TailIn(s, i, entries) ensures d < i && TailIn(t, i - d - 1, entries) {
      if i <= d { FirstLabel(s, i); }
    }
  }

  lemma {:induction false} ShortBehind(s: seq<byte>, d: nat, limit: int)
    requires d == FirstDot(s) < |s| && d < limit
    ensures ShortUpTo(s, limit) <==> d <= 63 && ShortUpTo(s[d + 1..], limit - d - 1)
  {
    var t := s[d + 1..];
    assert LabelStart(s, 0) && s[0..] == s;
    forall k | 0 <= k < limit - d - 1 && LabelStart(t, k)
      ensures LabelStart(s, d + 1 + k) && s[d + 1 + k..] == t[k..]
    {
      StartBehind(s, d, k);
    }
    forall k | 0 < k < limit && LabelStart(s, k)
      ensures d < k && LabelStart(t, k - d - 1) && s[k..] == t[k - d - 1..]
    {
      if k <= d { FirstLabel(s, k); } else { StartBehind(s, d, k - d - 1); }
    }
  }

  lemma {:induction false} BytesInFront(s: seq<byte>, d: nat, rest: seq<byte>, n: int)
    requires d == FirstDot(s) < |s| && d <= 63 && d < n && LabelBytes(rest, s[d + 1..], n - d - 1)
    ensures LabelBytes(Piece(s, d) + rest, s, n)
  {
    var bytes := Piece(s, d) + rest;
    forall k | 0 <= k < n ensures LabelByte(bytes, s, k) {
      if k == 0 {
        assert s[0..] == s;
      } else if k <= d {
        FirstLabel(s, k);
      } else {
        StartBehind(s, d, k - d - 1);
        assert LabelByte(rest, s[d + 1..], k - d - 1);
        if !LabelStart(s, k) { assert s[d + 1..][k - d - 2] == s[k - 1]; }
      }
    }
  }

  lemma {:induction false} BytesAtEnd(s: seq<byte>)
    requires FirstDot(s) == |s| <= 63
    ensures LabelBytes(LastPiece(s), s, |s| + 1)
  {
    forall k | 0 <= k <= |s| ensures LabelByte(LastPiece(s), s, k) {
      if k == 0 { assert s[0..] == s; } else { FirstLabel(s, k); }
    }
  }

  // ----- where a pointer is written

  /** The two bytes of a pointer to pos. */
  ghost predicate PointsTo(bytes: seq<byte>, i: nat, pos: nat) {
    i + 2 == |bytes| && IsPointer(bytes, i) && (pos < MAX_OFFSET ==> Target(bytes, i) == pos)
  }

  lemma {:induction false} PointerPoints(lead: seq<byte>, pos: nat)
    ensures PointsTo(lead + PointerTo(pos), |lead|, pos)
  {
    DivMod256(pos);
    var bytes := lead + PointerTo(pos);
    assert bytes[|lead|] == PointerTo(pos)[0] && bytes[|lead| + 1] == PointerTo(pos)[1];
  }

  /** The labels that start in front of limit and for which there would be room to start have at most 63 bytes. */
  ghost predicate ShortInRoom(at: nat, s: seq<byte>, bufLen: nat, limit: int) {
    ShortUpTo(s, if limit <= bufLen - at + 1 then limit else bufLen - at + 1)
  }

  /** -1 if a label that is too long comes before the room runs out, and -2 otherwise. */
  ghost predicate FailsWith(e: Emitted, at: nat, s: seq<byte>, bufLen: nat, limit: int) {
    e.Failed? ==> e.code == if ShortInRoom(at, s, bufLen, limit) then -2 else -1
  }

  lemma {:induction false} RoomShort(at: nat, s: seq<byte>, d: nat, bufLen: nat, limit: int)
    requires d == FirstDot(s) < |s| && d < limit && at <= bufLen
    ensures d > 63 ==> !ShortInRoom(at, s, bufLen, limit)
    ensures d <= 63 && at + d + 1 > bufLen ==> ShortInRoom(at, s, bufLen, limit)
    ensures d <= 63 && at + d + 1 <= bufLen ==>
              (ShortInRoom(at, s, bufLen, limit) <==> ShortInRoom(at + d + 1, s[d + 1..], bufLen, limit - d - 1))
  {
    var upTo := if limit <= bufLen - at + 1 then limit else bufLen - at + 1;
    assert LabelStart(s, 0) && s[0..] == s;
    forall k | 0 < k <= d ensures !LabelStart(s, k) { FirstLabel(s, k); }
    if d < upTo { ShortBehind(s, d, upTo); }
  }

  /** What is in front of i is written in full, and a pointer to pos stands for the rest; that is so exactly if
      there is room for it. */
  ghost predicate EndsInPointer(e: Emitted, at: nat, s: seq<byte>, bufLen: nat, i: nat, pos: nat) {
    && (e.Written? <==> at + i + 2 <= bufLen && ShortUpTo(s, i))
    && (e.Written? ==> PointsTo(e.bytes, i, pos) && LabelBytes(e.bytes, s, i))
    && FailsWith(e, at, s, bufLen, i)
  }

  /** The whole name is written, with a zero, if there is room for it without the zero. */
  ghost predicate InFull(e: Emitted, at: nat, s: seq<byte>, bufLen: nat) {
    && (e.Written? <==> at + |s| + 1 <= bufLen && ShortUpTo(s, |s| + 1))
    && (e.Written? ==> |s| < |e.bytes| && LabelBytes(e.bytes, s, |s| + 1) && e.bytes[|e.bytes| - 1] == 0 &&
                       |e.bytes| == if e.bytes[|s|] == 0 then |s| + 1 else |s| + 2)
    && FailsWith(e, at, s, bufLen, |s| + 1)
  }

  /** What Emit does with a label that others follow. */
  lemma {:induction false} EmitLabel(at: nat, s: seq<byte>, d: nat, entries: Names, entries': Names, table: bool,
                                     bufLen: nat)
    requires d == FirstDot(s) < |s| && !(table && s in entries)
    requires entries' == if table then Added(entries, s, at) else entries
    ensures var e := Emit(at, s, entries, table, bufLen);
      if d <= 63 && at + d + 1 <= bufLen then
        e == Preceded(Piece(s, d), Emit(at + d + 1, s[d + 1..], entries', table, bufLen))
      else e == Failed(if d > 63 then -1 else -2)
  {}

  lemma {:induction false} PointerBehind(e: Emitted, rest: Emitted, at: nat, s: seq<byte>, d: nat, bufLen: nat, i: nat,
                                         pos: nat)
    requires at <= bufLen && d == FirstDot(s) < |s| && d < i
    requires at + d + 1 <= bufLen ==> EndsInPointer(rest, at + d + 1, s[d + 1..], bufLen, i - d - 1, pos)
    requires
      if d <= 63 && at + d + 1 <= bufLen then e == Preceded(Piece(s, d), rest)
      else e == Failed(if d > 63 then -1 else -2)
    ensures EndsInPointer(e, at, s, bufLen, i, pos)
  {
    ShortBehind(s, d, i);
    RoomShort(at, s, d, bufLen, i);
    if e.Written? {
      hide ShortUpTo, LabelBytes;
      BytesInFront(s, d, rest.bytes, i);
      assert e.bytes[i] == rest.bytes[i - d - 1] && e.bytes[i + 1] == rest.bytes[i - d];
    }
  }

  lemma {:induction false} FullBehind(e: Emitted, rest: Emitted, at: nat, s: seq<byte>, d: nat, bufLen: nat)
    requires at <= bufLen && d == FirstDot(s) < |s|
    requires at + d + 1 <= bufLen ==> InFull(rest, at + d + 1, s[d + 1..], bufLen)
    requires
      if d <= 63 && at + d + 1 <= bufLen then e == Preceded(Piece(s, d), rest)
      else e == Failed(if d > 63 then -1 else -2)
    ensures InFull(e, at, s, bufLen)
  {
    ShortBehind(s, d, |s| + 1);
    RoomShort(at, s, d, bufLen, |s| + 1);
    if e.Written? {
      hide ShortUpTo, LabelBytes;
      BytesInFront(s, d, rest.bytes, |s| + 1);
      assert e.bytes[|s|] == rest.bytes[|s| - d - 1];
    }
  }

  lemma {:induction false} FullAtEnd(at: nat, s: seq<byte>, entries: Names, table: bool, bufLen: nat)
    requires at <= bufLen && FirstDot(s) == |s| && !(table && s in entries)
    ensures InFull(Emit(at, s, entries, table, bufLen), at, s, bufLen)
  {
    var d := |s|;
    assert s[0..] == s && LabelStart(s, 0);
    forall k | 0 < k <= |s| ensures !LabelStart(s, k) { FirstLabel(s, k); }
    if d <= 63 && at + d + 1 <= bufLen {
      EmitEnd(at, s, entries, table, bufLen);
      BytesAtEnd(s);
    }
  }

  /** When the first of the tails of s that is in the table starts at i, a pointer stands for it. */
  lemma {:induction false} Compressed(at: nat, s: seq<byte>, entries: Names, bufLen: nat, i: nat)
    requires at <= bufLen && TailIn(s, i, entries) && NoTailIn(s, entries, i)
    ensures EndsInPointer(Emit(at, s, entries, true, bufLen), at, s, bufLen, i, entries[s[i..]])
    decreases |s|
  {
    var d := FirstDot(s);
    if i == 0 {
      assert s[0..] == s && [] + PointerTo(entries[s]) == PointerTo(entries[s]);
      PointerPoints([], entries[s]);
      return;
    }
    assert s !in entries by { assert !TailIn(s, 0, entries) && LabelStart(s, 0) && s[0..] == s; }
    if i <= d { FirstLabel(s, i); }
    var t, entries' := s[d + 1..], Added(entries, s, at);
    StartBehind(s, d, i - d - 1);
    NoTailBehind(s, d, entries, at, i);
    EmitLabel(at, s, d, entries, entries', true, bufLen);
    hide Emit, EndsInPointer, NoTailIn;
    if at + d + 1 <= bufLen { Compressed(at + d + 1, t, entries', bufLen, i - d - 1); }
    PointerBehind(Emit(at, s, entries, true, bufLen), Emit(at + d + 1, t, entries', true, bufLen), at, s, d, bufLen, i,
                  entries[s[i..]]);
  }

  /** When none of them is in the table, or there is no table, the name is written in full. */
  lemma {:induction false} Uncompressed(at: nat, s: seq<byte>, entries: Names, table: bool, bufLen: nat)
    requires at <= bufLen && (table ==> NoTailIn(s, entries, |s| + 1))
    ensures InFull(Emit(at, s, entries, table, bufLen), at, s, bufLen)
    decreases |s|
  {
    var d := FirstDot(s);
    assert table ==> s !in entries by {
      if table { assert !TailIn(s, 0, entries) && LabelStart(s, 0) && s[0..] == s; }
    }
    if d == |s| {
      FullAtEnd(at, s, entries, table, bufLen);
      return;
    }
    var t, entries' := s[d + 1..], if table then Added(entries, s, at) else entries;
    if table { NoTailBehind(s, d, entries, at, |s| + 1); }
    EmitLabel(at, s, d, entries, entries', table, bufLen);
    hide Emit, InFull, NoTailIn;
    if at + d + 1 <= bufLen { Uncompressed(at + d + 1, t, entries', table, bufLen); }
    FullBehind(Emit(at, s, entries, table, bufLen), Emit(at + d + 1, t, entries', table, bufLen), at, s, d, bufLen);
  }

  // ----- what is left in the table

  lemma {:induction false} TailsIn(s: seq<byte>, entries: Names)
    requires s in entries && (FirstDot(s) < |s| ==> AllTailsIn(s[FirstDot(s) + 1..], entries))
    ensures AllTailsIn(s, entries)
  {
    var d := FirstDot(s);
    forall i | LabelStart(s, i) ensures TailIn(s, i, entries) {
      if i == 0 {
        assert s[0..] == s;
      } else if i <= d {
        FirstLabel(s, i);
      } else {
        StartBehind(s, d, i - d - 1);
        assert TailIn(s[d + 1..], i - d - 1, entries);
      }
    }
  }

  lemma {:induction false} TailsStay(s: seq<byte>, before: Names, after: Names)
    requires AllTailsIn(s, before) && forall v | v in before :: v in after
    ensures AllTailsIn(s, after)
  {
    forall i | LabelStart(s, i) ensures TailIn(s, i, after) { assert TailIn(s, i, before); }
  }

  lemma {:induction false} TailOfTail(s: seq<byte>, j: int, entries: Names)
    requires AllTailsIn(s, entries) && LabelStart(s, j)
    ensures AllTailsIn(s[j..], entries)
  {
    forall i | LabelStart(s[j..], i) ensures TailIn(s[j..], i, entries) {
      assert s[j + i..] == s[j..][i..];
      assert TailIn(s, j + i, entries);
    }
  }

  /** v is s or stands behind one of its dots, and pos is its place when s is written at at. */
  predicate TailAt(s: seq<byte>, v: seq<byte>, at: nat, pos: nat) {
    |v| <= |s| && LabelStart(s, |s| - |v|) && v == s[|s| - |v|..] && pos == at + |s| - |v|
  }

  lemma {:induction false} TailAtBehind(s: seq<byte>, d: nat, v: seq<byte>, at: nat, pos: nat)
    requires d == FirstDot(s) < |s| && TailAt(s[d + 1..], v, at + d + 1, pos)
    ensures TailAt(s, v, at, pos)
  {
    StartBehind(s, d, |s| - d - 1 - |v|);
  }

  /** What is in the table stays there; what is new is the name or stands behind one of its dots, and the table
      says where it is written. */
  lemma {:induction false} Kept(at: nat, s: seq<byte>, entries: Names, bufLen: nat)
    requires Emit(at, s, entries, true, bufLen).Written?
    ensures var after := Emit(at, s, entries, true, bufLen).entries;
      && (forall v | v in entries :: v in after && after[v] == entries[v])
      && (forall v | v in after && v !in entries :: TailAt(s, v, at, after[v]))
      && |after| <= |entries| + |Labels(s)|
      && (|entries| <= 128 ==> |after| <= 128)
    decreases |s|
  {
    var d := FirstDot(s);
    if s in entries { return; }
    assert TailAt(s, s, at, at);
    if d == |s| {
      EmitEnd(at, s, entries, true, bufLen);
      return;
    }
    var entries' := Added(entries, s, at);
    EmitUnfolded(at, at + d + 1, s, entries, entries', true, bufLen);
    Kept(at + d + 1, s[d + 1..], entries', bufLen);
    var after := Emit(at, s, entries, true, bufLen).entries;
    forall v | v in after && v !in entries && v != s ensures TailAt(s, v, at, after[v]) {
      TailAtBehind(s, d, v, at, after[v]);
    }
  }

  lemma {:induction false} ClosedBehind(s: seq<byte>, entries: Names, at: nat, n: nat)
    requires ClosedUpTo(entries, |s|) && n < |s| && s !in entries
    ensures ClosedUpTo(Added(entries, s, at), n)
  {
    forall v | v in Added(entries, s, at) && |v| <= n ensures AllTailsIn(v, Added(entries, s, at)) {
      TailsStay(v, entries, Added(entries, s, at));
    }
  }

  /** What Remembered says of a name whose first label is new, for the rest of the name. */
  lemma {:induction false} RoomBehind(at: nat, s: seq<byte>, d: nat, entries: Names, entries': Names, bufLen: nat)
    requires Emit(at, s, entries, true, bufLen).Written? && ClosedUpTo(entries, |s|)
    requires |entries| + |Labels(s)| <= 128 && d == FirstDot(s) < |s|
    requires s !in entries && entries' == Added(entries, s, at)
    ensures var rest := Emit(at + d + 1, s[d + 1..], entries', true, bufLen);
      && rest.Written? && Emit(at, s, entries, true, bufLen).entries == rest.entries && s in rest.entries
      && ClosedUpTo(entries', |s[d + 1..]|) && |entries'| + |Labels(s[d + 1..])| <= 128
  {
    hide Emit, AllTailsIn;
    ClosedBehind(s, entries, at, |s| - d - 1);
    hide ClosedUpTo;
    EmitLabel(at, s, d, entries, entries', true, bufLen);
    Kept(at + d + 1, s[d + 1..], entries', bufLen);
  }

  /** Remembered, for a name that is in the table or that has one label. */
  lemma {:induction false} RememberedShort(at: nat, s: seq<byte>, entries: Names, bufLen: nat)
    requires Emit(at, s, entries, true, bufLen).Written? && ClosedUpTo(entries, |s|)
    requires |entries| < 128 && (s in entries || FirstDot(s) == |s|)
    ensures AllTailsIn(s, Emit(at, s, entries, true, bufLen).entries)
  {
    if s !in entries {
      EmitEnd(at, s, entries, true, bufLen);
      hide ClosedUpTo, AllTailsIn;
      TailsIn(s, Added(entries, s, at));
    }
  }

  /** As long as the table has room for all labels, a name that is written leaves itself and what stands
      behind its dots in it. */
  lemma {:induction false} Remembered(at: nat, s: seq<byte>, entries: Names, bufLen: nat)
    requires Emit(at, s, entries, true, bufLen).Written? && ClosedUpTo(entries, |s|)
    requires |entries| + |Labels(s)| <= 128
    ensures AllTailsIn(s, Emit(at, s, entries, true, bufLen).entries)
    decreases |s|
  {
    hide Emit, AllTailsIn, ClosedUpTo;
    var d := FirstDot(s);
    if s in entries || d == |s| {
      RememberedShort(at, s, entries, bufLen);
      return;
    }
    var entries' := Added(entries, s, at);
    RoomBehind(at, s, d, entries, entries', bufLen);
    hide *;
    Remembered(at + d + 1, s[d + 1..], entries', bufLen);
    TailsIn(s, Emit(at, s, entries, true, bufLen).entries);
  }

  /** Remembered, for a table that holds all tails of its names, and which goes on doing so. */
  lemma {:induction false} RemembersAll(at: nat, s: seq<byte>, entries: Names, bufLen: nat)
    requires Emit(at, s, entries, true, bufLen).Written? && Closed(entries) && |entries| + |Labels(s)| <= 128
    ensures var after := Emit(at, s, entries, true, bufLen).entries; AllTailsIn(s, after) && Closed(after)
  {
    hide Emit, AllTailsIn, TailAt;
    assert ClosedUpTo(entries, |s|);
    Remembered(at, s, entries, bufLen);
    Kept(at, s, entries, bufLen);
    ClosedAfter(at, s, entries, Emit(at, s, entries, true, bufLen).entries);
  }

  lemma {:induction false} ClosedAfter(at: nat, s: seq<byte>, entries: Names, after: Names)
    requires Closed(entries) && AllTailsIn(s, after) && (forall v | v in entries :: v in after)
    requires forall v | v in after && v !in entries :: TailAt(s, v, at, after[v])
    ensures Closed(after)
  {
    hide AllTailsIn;
    forall v | v in after ensures AllTailsIn(v, after) {
      if v in entries { TailsStay(v, entries, after); } else { TailOfTail(s, |s| - |v|, after); }
    }
  }

  /** A name that is written a second time, and what stands behind each of its dots, takes two bytes: a pointer
      to where it stands. */
  lemma {:induction false} WrittenAgain(at: nat, s: seq<byte>, entries: Names, bufLen: nat, again: nat, i: nat)
    requires Emit(at, s, entries, true, bufLen).Written? && Closed(entries) && |entries| + |Labels(s)| <= 128
    requires LabelStart(s, i) && again + 2 <= bufLen
    ensures var t, after := s[i..], Emit(at, s, entries, true, bufLen).entries;
      && t in after && after[t] == (if t in entries then entries[t] else at + i)
      && Emit(again, t, after, true, bufLen).Written?
      && PointsTo(Emit(again, t, after, true, bufLen).bytes, 0, after[t])
      && Emit(again, t, after, true, bufLen).entries == after
  {
    RemembersAll(at, s, entries, bufLen);
    Kept(at, s, entries, bufLen);
    var t, after := s[i..], Emit(at, s, entries, true, bufLen).entries;
    assert TailIn(s, i, after) && LabelStart(t, 0) && t[0..] == t;
    Compressed(again, t, after, bufLen, 0);
  }

  lemma {:induction false} EmitA(entries: Names, at: nat)
    requires (at == 12 && entries == map[]) || (at == 15 && entries == map[[97] := 12])
    ensures Emit(at, [97], entries, true, 17) ==
              Written(if at == 12 then [1, 97, 0] else [192, 12], map[[97] := 12])
  {
    assert FirstDot([97]) == 1;
    if at == 12 {
      EmitEnd(at, [97], entries, true, 17);
      assert Piece([97], 1) + [0] == [1, 97, 0];
    }
  }

  /** The name "a" at 12 and again at 15: first in full, then two bytes that lead to 12. */
  method TwiceA() returns (buf: array<byte>)
    ensures buf.Length == 17 && buf[12..] == [1, 97, 0, 192, 12]
  {
    hide Emit;
    buf := new byte[17];
    var table := new LabelTable();
    EmitA(map[], 12);
    var r, past := DnsnameToLabels(buf, 17, 12, [97], table);
    ghost var first := buf[..15];
    assert first[12..] == [1, 97, 0];
    EmitA(table.entries, 15);
    r, past := DnsnameToLabels(buf, 17, 15, [97], table);
    assert buf[..17] == first + [192, 12];
  }

  // ----- whole packets

  /** How many labels the names of the items have. */
  function LabelCount(items: seq<Item>): nat {
    if items == [] then 0
    else (if items[0].Domain? then |Labels(items[0].name)| else 0) + LabelCount(items[1..])
  }

  /** A name that is in the table takes two bytes wherever it comes. */
  lemma {:induction false} KnownShort(b: seq<byte>, items: seq<Item>, entries: Names, bufLen: nat, j: nat)
    requires Assemble(b, items, entries, bufLen).Packet? && j < |items| && items[j].Domain?
    requires items[j].name in entries
    ensures var p := Assemble(b, items, entries, bufLen);
      j < |p.spans| && p.spans[j].end == p.spans[j].start + 2
    decreases |items|
  {
    var e := Step(b, items[0], entries, bufLen);
    if j > 0 {
      if items[0].Domain? { Kept(|b|, items[0].name, entries, bufLen); }
      KnownShort(b + e.bytes, items[1..], e.entries, bufLen, j - 1);
    }
  }

  /** In a packet with at most 128 labels, a name takes two bytes if an earlier name is it or ends in it behind
      a dot. */
  lemma {:induction false} SharedShort(b: seq<byte>, items: seq<Item>, entries: Names, bufLen: nat, i: nat, j: nat,
                                       k: nat)
    requires Assemble(b, items, entries, bufLen).Packet? && i < j < |items| && items[i].Domain? && items[j].Domain?
    requires LabelStart(items[i].name, k) && items[j].name == items[i].name[k..]
    requires Closed(entries) && |entries| + LabelCount(items) <= 128
    ensures var p := Assemble(b, items, entries, bufLen);
      j < |p.spans| && p.spans[j].end == p.spans[j].start + 2
    decreases |items|
  {
    var e := Step(b, items[0], entries, bufLen);
    if items[0].Domain? {
      RemembersAll(|b|, items[0].name, entries, bufLen);
      Kept(|b|, items[0].name, entries, bufLen);
    }
    if i == 0 {
      assert TailIn(items[0].name, k, e.entries);
      KnownShort(b + e.bytes, items[1..], e.entries, bufLen, j - 1);
    } else {
      SharedShort(b + e.bytes, items[1..], e.entries, bufLen, i - 1, j - 1, k);
    }
  }

  /** SharedShort, for a packet that starts with an empty table. */
  lemma {:induction false} PacketShares(b: seq<byte>, items: seq<Item>, bufLen: nat, i: nat, j: nat, k: nat)
    requires Assemble(b, items, map[], bufLen).Packet? && i < j < |items| && items[i].Domain? && items[j].Domain?
    requires LabelStart(items[i].name, k) && items[j].name == items[i].name[k..] && LabelCount(items) <= 128
    ensures var p := Assemble(b, items, map[], bufLen);
      j < |p.spans| && p.spans[j].end == p.spans[j].start + 2
  {
    SharedShort(b, items, map[], bufLen, i, j, k);
  }
}
