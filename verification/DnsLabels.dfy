/** dnsname_to_labels, which writes names into a packet and shares what is already there, and why
    name_parse reads back what it wrote (section 4.1.4 of RFC 1035). */
module DnsLabels {
  import opened Basics
  import opened DnsNames

  const MAX_LABELS := 128

  // ----- what a packet spells

  /** Byte k of s stands behind the length byte at pos. */
  ghost predicate ByteAt(b: seq<byte>, pos: nat, s: seq<byte>, k: int) {
    0 <= k < |s| && pos + 1 + k < |b| ==> b[pos + 1 + k] == s[k]
  }

  /** The first d bytes of s, with their number in front, at pos. */
  ghost predicate LabelAt(b: seq<byte>, pos: nat, s: seq<byte>, d: nat) {
    pos + 1 + d <= |b| && d <= |s| && b[pos] == d && forall k | 0 <= k < d :: ByteAt(b, pos, s, k)
  }

  predicate IsPointer(b: seq<byte>, pos: nat) {
    pos + 2 <= |b| && b[pos] >= 192
  }

  /** The name s is spelled at pos, which belongs to a name that starts at start; a pointer leads to a
      place before that start. */
  ghost predicate Spells(b: seq<byte>, start: nat, pos: nat, s: seq<byte>)
    decreases |s|, start
  {
    if IsPointer(b, pos) then
      Target(b, pos) < start && Spells(b, Target(b, pos), Target(b, pos), s)
    else
      var d := FirstDot(s);
      1 <= d <= 63 && LabelAt(b, pos, s, d)
      && if d == |s| then pos + 1 + d < |b| && b[pos + 1 + d] == 0 else Spells(b, start, pos + 1 + d, s[d + 1..])
  }

  /** The index just after what is written at pos. */
  ghost function EndOf(b: seq<byte>, pos: nat, s: seq<byte>): nat
    decreases |s|
  {
    if IsPointer(b, pos) then pos + 2
    else
      var d := FirstDot(s);
      if d == |s| then pos + d + 2 else EndOf(b, pos + 1 + d, s[d + 1..])
  }

  ghost predicate SameAt(b: seq<byte>, f: seq<byte>, k: int) {
    0 <= k < |b| && k < |f| ==> b[k] == f[k]
  }

  /** f starts with b. */
  ghost predicate Starts(b: seq<byte>, f: seq<byte>) {
    |b| <= |f| && forall k :: SameAt(b, f, k)
  }

  lemma {:induction false} StartsWith(b: seq<byte>, c: seq<byte>, f: seq<byte>)
    requires f == b + c
    ensures Starts(b, f)
  {
    forall k ensures SameAt(b, f, k) {}
  }

  lemma {:induction false} StartsOn(a: seq<byte>, b: seq<byte>, f: seq<byte>)
    requires Starts(a, b) && Starts(b, f)
    ensures Starts(a, f)
  {
    forall k ensures SameAt(a, f, k) { assert SameAt(a, b, k) && SameAt(b, f, k); }
  }

  lemma {:induction false} LabelLonger(b: seq<byte>, f: seq<byte>, pos: nat, s: seq<byte>, d: nat)
    requires Starts(b, f) && LabelAt(b, pos, s, d)
    ensures LabelAt(f, pos, s, d)
  {
    assert SameAt(b, f, pos);
    forall k | 0 <= k < d ensures ByteAt(f, pos, s, k) { assert ByteAt(b, pos, s, k) && SameAt(b, f, pos + 1 + k); }
  }

  /** A label, and what is spelled behind it. */
  lemma {:induction false} LabelSpells(b: seq<byte>, start: nat, pos: nat, s: seq<byte>, d: nat)
    requires d == FirstDot(s) && 1 <= d <= 63 && LabelAt(b, pos, s, d)
    requires if d == |s| then pos + 1 + d < |b| && b[pos + 1 + d] == 0 else Spells(b, start, pos + 1 + d, s[d + 1..])
    ensures Spells(b, start, pos, s) &&
            EndOf(b, pos, s) == if d == |s| then pos + d + 2 else EndOf(b, pos + 1 + d, s[d + 1..])
  {}

  /** More bytes behind do not change what is spelled. */
  lemma {:induction false} SpellsLonger(b: seq<byte>, f: seq<byte>, start: nat, pos: nat, s: seq<byte>)
    requires Spells(b, start, pos, s) && Starts(b, f)
    ensures Spells(f, start, pos, s) && EndOf(f, pos, s) == EndOf(b, pos, s) <= |b|
    decreases |s|, start
  {
    assert SameAt(b, f, pos) && SameAt(b, f, pos + 1);
    var d := FirstDot(s);
    if IsPointer(b, pos) {
      SpellsLonger(b, f, Target(b, pos), Target(b, pos), s);
    } else if d < |s| {
      LabelLonger(b, f, pos, s, d);
      SpellsLonger(b, f, start, pos + 1 + d, s[d + 1..]);
      LabelSpells(b, start, pos, s, d);
      LabelSpells(f, start, pos, s, d);
    } else {
      LabelLonger(b, f, pos, s, d);
      assert SameAt(b, f, pos + 1 + d);
      LabelSpells(f, start, pos, s, d);
    }
  }

  lemma {:induction false} SpellsLater(b: seq<byte>, start: nat, later: nat, pos: nat, s: seq<byte>)
    requires Spells(b, start, pos, s) && start <= later
    ensures Spells(b, later, pos, s)
    decreases |s|
  {
    var d := FirstDot(s);
    if !IsPointer(b, pos) && d < |s| { SpellsLater(b, start, later, pos + 1 + d, s[d + 1..]); }
  }

  lemma {:induction false} LabelRead(b: seq<byte>, pos: nat, s: seq<byte>, d: nat)
    requires LabelAt(b, pos, s, d)
    ensures b[pos + 1..pos + 1 + d] == s[..d]
  {
    forall k | 0 <= k < d ensures b[pos + 1..pos + 1 + d][k] == s[..d][k] { assert ByteAt(b, pos, s, k); }
  }

  lemma {:induction false} ParseLabel(b: seq<byte>, pos: nat, s: seq<byte>, d: nat, count: nat, jumped: int)
    requires LabelAt(b, pos, s, d) && 1 <= d <= 63 && count <= |b|
    ensures Parse(b, pos, count, jumped) == After([s[..d]], Parse(b, pos + 1 + d, count, jumped))
  {
    LabelRead(b, pos, s, d);
  }

  lemma {:induction false} AfterOne(l: seq<byte>, rest: seq<seq<byte>>, end: nat)
    ensures After([l], Name(rest, end)) == Name([l] + rest, end)
  {}

  /** What is spelled is what is parsed: a chain of pointers that go backwards never has too many jumps. */
  lemma {:induction false} ParseSpelled(b: seq<byte>, start: nat, pos: nat, s: seq<byte>, count: nat, jumped: int)
    requires Spells(b, start, pos, s) && count + start <= |b|
    ensures Parse(b, pos, count, jumped) == Name(Labels(s), if jumped < 0 then EndOf(b, pos, s) else jumped)
    decreases |s|, start
  {
    var d := FirstDot(s);
    if IsPointer(b, pos) {
      ParseSpelled(b, Target(b, pos), Target(b, pos), s, count + 1, if jumped < 0 then pos + 2 else jumped);
    } else {
      ParseLabel(b, pos, s, d, count, jumped);
      var end := if jumped < 0 then EndOf(b, pos, s) else jumped;
      if d < |s| {
        ParseSpelled(b, start, pos + 1 + d, s[d + 1..], count, jumped);
        AfterOne(s[..d], Labels(s[d + 1..]), end);
      } else {
        AfterOne(s[..d], [], end);
        assert s[..d] == s && [s] + [] == [s];
      }
    }
  }

  // ----- dnsname_to_labels

  /** The names that have been written, and where. */
  type Names = map<seq<byte>, nat>

  function Lookup(entries: Names, name: seq<byte>): int {
    if name in entries then entries[name] else -1
  }

  function Added(entries: Names, name: seq<byte>, pos: nat): Names {
    if |entries| == MAX_LABELS then entries else entries[name := pos]
  }

  /** The table of labels. The source searches an array, and hides that behind these two functions. */
  class LabelTable {
    var entries: Names

    constructor ()
      ensures entries == map[]
    {
      entries := map[];
    }

    /** dnslabel_table_get_pos */
    method GetPos(name: seq<byte>) returns (pos: int)
      ensures pos == Lookup(entries, name)
    {
      pos := if name in entries then entries[name] else -1;
    }

    /** dnslabel_table_add, for a name that is not there yet */
    method Add(name: seq<byte>, pos: nat) returns (r: int)
      requires name !in entries
      modifies this
      ensures entries == Added(old(entries), name, pos) && r == if |old(entries)| == MAX_LABELS then -1 else 0
    {
      if |entries| == MAX_LABELS {
        return -1;
      }
      entries := entries[name := pos];
      r := 0;
    }
  }

  /** What a call writes and leaves in the table, or the error it returns. */
  datatype Emitted = Failed(code: int) | Written(bytes: seq<byte>, entries: Names)

  function Div256(n: nat): nat { if n < 256 then 0 else 1 + Div256(n - 256) }

  function Mod256(n: nat): (r: nat)
    ensures r < 256
  {
    if n < 256 then n else Mod256(n - 256)
  }

  function Mod64(n: nat): (r: nat)
    ensures r < 64
  {
    if n < 64 then n else Mod64(n - 64)
  }

  lemma DivMod256(n: nat)
    ensures Times256(Div256(n)) + Mod256(n) == n && Div256(n) == n / 256 && Mod256(n) == n % 256
  {}

  /** The two bytes of pos | 0xc000. */
  function PointerTo(pos: nat): (r: seq<byte>)
    ensures |r| == 2
  {
    [192 + Mod64(Div256(pos)), Mod256(pos)]
  }

  /** The first d bytes of s, with their number in front. */
  function Piece(s: seq<byte>, d: nat): (r: seq<byte>)
    requires d <= |s| && d <= 63
    ensures |r| == 1 + d
  {
    [d as byte] + s[..d]
  }

  /** The last label of a name; a zero follows it unless it ends in one. */
  function LastPiece(s: seq<byte>): seq<byte>
    requires |s| <= 63
  {
    if s == [] || s[|s| - 1] == 0 then Piece(s, |s|) else Piece(s, |s|) + [0]
  }

  /** What is written for the rest s of a name at position at; without a table, entries is empty. */
  function Emit(at: nat, s: seq<byte>, entries: Names, table: bool, bufLen: nat): Emitted
    decreases |s|
  {
    var d := FirstDot(s);
    if table && s in entries then
      if at + 2 > bufLen then Failed(-2) else Written(PointerTo(entries[s]), entries)
    else if d > 63 then Failed(-1)
    else if at + d + 1 > bufLen then Failed(-2)
    else
      var entries' := if table then Added(entries, s, at) else entries;
      if d == |s| then Written(LastPiece(s), entries')
      else Preceded(Piece(s, d), Emit(at + d + 1, s[d + 1..], entries', table, bufLen))
  }

  function Preceded(lead: seq<byte>, e: Emitted): Emitted {
    match e
    case Failed(code) => Failed(code)
    case Written(bytes, entries) => Written(lead + bytes, entries)
  }

  // ----- what is written is spelled

  ghost predicate EntryOk(v: seq<byte>, pos: nat, b: seq<byte>, limit: nat) {
    ValidName(v) && pos < limit && pos < MAX_OFFSET && Spells(b, pos, pos, v)
  }

  /** Every name in the table is spelled where it says. */
  ghost predicate TableOk(entries: Names, b: seq<byte>) {
    forall v | v in entries :: EntryOk(v, entries[v], b, |b|)
  }

  lemma {:induction false} EntryLonger(v: seq<byte>, pos: nat, b: seq<byte>, f: seq<byte>, limit: nat)
    requires EntryOk(v, pos, b, limit) && Starts(b, f)
    ensures EntryOk(v, pos, f, limit)
  {
    SpellsLonger(b, f, pos, pos, v);
  }

  /** Of the entries, those that are not longer than n are spelled before start; b is all that is written. */
  ghost predicate Known(entries: Names, b: seq<byte>, start: nat, n: nat) {
    forall v | v in entries && |v| <= n :: EntryOk(v, entries[v], b, start)
  }

  /** What a call adds is spelled. */
  ghost predicate Fresh(before: Names, after: Names, b: seq<byte>, n: nat) {
    forall v | v in after :: (v in before && after[v] == before[v]) || (|v| <= n && EntryOk(v, after[v], b, |b|))
  }

  /** f, which is b and what e adds, spells s behind b, and e adds only names that are spelled. */
  ghost predicate Correct(e: Emitted, b: seq<byte>, f: seq<byte>, start: nat, s: seq<byte>, entries: Names) {
    e.Written? ==>
      && f == b + e.bytes && Starts(b, f) && Spells(f, start, |b|, s) && EndOf(f, |b|, s) == |f| &&
         Fresh(entries, e.entries, f, |s|)
  }

  lemma {:induction false} PointerSpells(b: seq<byte>, f: seq<byte>, start: nat, s: seq<byte>, ref: nat)
    requires ref < start <= |b| && ref < MAX_OFFSET && Spells(b, ref, ref, s) && f == b + PointerTo(ref)
    ensures Starts(b, f) && Spells(f, start, |b|, s) && EndOf(f, |b|, s) == |f|
  {
    StartsWith(b, PointerTo(ref), f);
    SpellsLonger(b, f, ref, ref, s);
    DivMod256(ref);
    assert f[|b|] == PointerTo(ref)[0] && f[|b| + 1] == PointerTo(ref)[1];
    assert Target(f, |b|) == ref;
  }

  lemma {:induction false} PieceAt(b: seq<byte>, s: seq<byte>, d: nat, lead: seq<byte>)
    requires d <= |s| && d <= 63 && lead == b + Piece(s, d)
    ensures LabelAt(lead, |b|, s, d) && Starts(b, lead)
  {
    StartsWith(b, Piece(s, d), lead);
    assert lead[|b|] == Piece(s, d)[0];
    forall k | 0 <= k < d ensures ByteAt(lead, |b|, s, k) { assert lead[|b| + 1 + k] == Piece(s, d)[1 + k]; }
  }

  lemma {:induction false} LastSpells(b: seq<byte>, f: seq<byte>, start: nat, s: seq<byte>)
    requires 1 <= |s| <= 63 && FirstDot(s) == |s| && s[|s| - 1] != 0 && f == b + LastPiece(s)
    ensures Starts(b, f) && Spells(f, start, |b|, s) && EndOf(f, |b|, s) == |f|
  {
    var lead := b + Piece(s, |s|);
    PieceAt(b, s, |s|, lead);
    assert f == lead + [0];
    StartsWith(lead, [0], f);
    StartsOn(b, lead, f);
    LabelLonger(lead, f, |b|, s, |s|);
  }

  /** Behind a label, the shorter names that were known still are. */
  lemma {:induction false} KnownLonger(entries: Names, b: seq<byte>, f: seq<byte>, start: nat, s: seq<byte>, n: nat)
    requires Known(entries, b, start, |s|) && n < |s| && Starts(b, f)
    ensures Known(entries, f, start, n) && Known(Added(entries, s, |b|), f, start, n)
  {
    forall v | v in entries && |v| <= n ensures EntryOk(v, entries[v], f, start) {
      EntryLonger(v, entries[v], b, f, start);
    }
  }

  lemma {:induction false} AddedFresh(entries: Names, after: Names, s: seq<byte>, at: nat, f: seq<byte>, start: nat)
    requires ValidName(s) && start <= at < |f| && at < MAX_OFFSET && Spells(f, start, at, s)
    requires after == entries || after == Added(entries, s, at)
    ensures Fresh(entries, after, f, |s|)
  {
    SpellsLater(f, start, at, at, s);
  }

  lemma {:induction false} FreshTwice(before: Names, middle: Names, after: Names, f: seq<byte>, n: nat, m: nat)
    requires Fresh(before, middle, f, n) && Fresh(middle, after, f, m) && m <= n
    ensures Fresh(before, after, f, n)
  {}

  lemma {:induction false} TailValid(s: seq<byte>)
    requires ValidName(s)
    ensures 1 <= FirstDot(s) <= 63 && (FirstDot(s) < |s| ==> ValidName(s[FirstDot(s) + 1..]))
    ensures s != [] ==> s[|s| - 1] != 0
  {
    var d := FirstDot(s);
    if d < |s| {
      var t := s[d + 1..];
      forall i | 0 <= i < |t| ensures t[i] != NUL { assert t[i] == s[d + 1 + i]; }
    }
  }

  /** What holds behind the first label holds in front of it. */
  lemma {:induction false} EmitBack(b: seq<byte>, lead: seq<byte>, f: seq<byte>, start: nat, s: seq<byte>,
                                    entries: Names, entries': Names, e: Emitted)
    requires start <= |b| < MAX_OFFSET && ValidName(s) && 1 <= FirstDot(s) <= 63 && FirstDot(s) < |s|
    requires lead == b + Piece(s, FirstDot(s)) && LabelAt(lead, |b|, s, FirstDot(s)) && Starts(b, lead)
    requires Correct(e, lead, f, start, s[FirstDot(s) + 1..], entries')
    requires entries' == entries || entries' == Added(entries, s, |b|)
    ensures Correct(Preceded(Piece(s, FirstDot(s)), e), b, f, start, s, entries)
  {
    if e.Written? {
      var d := FirstDot(s);
      Assoc(b, Piece(s, d), e.bytes);
      StartsOn(b, lead, f);
      LabelLonger(lead, f, |b|, s, d);
      LabelSpells(f, start, |b|, s, d);
      AddedFresh(entries, entries', s, |b|, f, start);
      FreshTwice(entries, entries', e.entries, f, |s|, |s| - d - 1);
    }
  }

  lemma {:induction false} EmitUnfolded(at: nat, next: nat, s: seq<byte>, entries: Names, entries': Names, table: bool,
                                        bufLen: nat)
    requires FirstDot(s) < |s| && FirstDot(s) <= 63 && next == at + FirstDot(s) + 1 <= bufLen &&
             !(table && s in entries)
    requires entries' == if table then Added(entries, s, at) else entries
    ensures Emit(at, s, entries, table, bufLen) ==
              Preceded(Piece(s, FirstDot(s)), Emit(next, s[FirstDot(s) + 1..], entries', table, bufLen))
  {}

  lemma {:induction false} EmitEnd(at: nat, s: seq<byte>, entries: Names, table: bool, bufLen: nat)
    requires FirstDot(s) == |s| <= 63 && at + |s| + 1 <= bufLen && !(table && s in entries)
    ensures Emit(at, s, entries, table, bufLen) ==
              Written(LastPiece(s), if table then Added(entries, s, at) else entries)
  {}

  /** A name for which there is room is written. */
  lemma {:induction false} EmitFits(at: nat, s: seq<byte>, entries: Names, table: bool, bufLen: nat)
    requires ValidName(s) && at + |s| + 1 <= bufLen
    ensures Emit(at, s, entries, table, bufLen).Written?
    decreases |s|
  {
    var d := FirstDot(s);
    TailValid(s);
    if table && s in entries {
    } else if d < |s| {
      var entries' := if table then Added(entries, s, at) else entries;
      EmitFits(at + d + 1, s[d + 1..], entries', table, bufLen);
      EmitUnfolded(at, at + d + 1, s, entries, entries', table, bufLen);
    } else {
      EmitEnd(at, s, entries, table, bufLen);
    }
  }

  /** One byte more than the limit can be written, and no more. */
  lemma {:induction false} EmitBound(at: nat, s: seq<byte>, entries: Names, table: bool, bufLen: nat)
    ensures var e := Emit(at, s, entries, table, bufLen);
      if e.Written? then at + |e.bytes| <= bufLen + 1 else e.code < 0
    decreases |s|
  {
    var d := FirstDot(s);
    if !(table && s in entries) && d < |s| && d <= 63 && at + d + 1 <= bufLen {
      var entries' := if table then Added(entries, s, at) else entries;
      EmitBound(at + d + 1, s[d + 1..], entries', table, bufLen);
    }
  }

  /** No label is longer than 63 bytes. */
  predicate ShortLabels(s: seq<byte>)
    decreases |s|
  {
    FirstDot(s) <= 63 && (FirstDot(s) < |s| ==> ShortLabels(s[FirstDot(s) + 1..]))
  }

  /** Neither s nor what stands behind one of its dots is in the table. */
  predicate Unshared(s: seq<byte>, entries: Names)
    decreases |s|
  {
    s !in entries && (FirstDot(s) < |s| ==> Unshared(s[FirstDot(s) + 1..], entries))
  }

  /** From at on, s is written in full and takes all the bytes up to the limit, and the zero is still to come. */
  predicate TakesAll(at: nat, s: seq<byte>, entries: Names, table: bool, bufLen: nat) {
    && at + |s| + 1 == bufLen
    && s != [] && s[|s| - 1] != 0 && s[|s| - 1] != DOT
    && ShortLabels(s) && (table ==> Unshared(s, entries))
  }

  lemma {:induction false} UnsharedAdded(t: seq<byte>, entries: Names, s: seq<byte>, at: nat)
    requires |t| < |s|
    ensures Unshared(t, Added(entries, s, at)) <==> Unshared(t, entries)
    decreases |t|
  {
    if FirstDot(t) < |t| { UnsharedAdded(t[FirstDot(t) + 1..], entries, s, at); }
  }

  /** TakesAll, for a name of several labels. */
  lemma {:induction false} TakesRest(at: nat, s: seq<byte>, entries: Names, table: bool, bufLen: nat, d: nat)
    requires d == FirstDot(s) < |s| && d <= 63 && !(table && s in entries)
    ensures
      var entries' := if table then Added(entries, s, at) else entries;
      TakesAll(at, s, entries, table, bufLen) <==> TakesAll(at + d + 1, s[d + 1..], entries', table, bufLen)
  {
    DotFromIs(s, 0);
    UnsharedAdded(s[d + 1..], entries, s, at);
    assert d + 1 < |s| ==> s[d + 1..][|s| - d - 2] == s[|s| - 1];
  }

  /** TakesAll, for a name that is in the table, a last label, or a label for which there is no place. */
  lemma {:induction false} PastShort(at: nat, s: seq<byte>, entries: Names, table: bool, bufLen: nat)
    requires at <= bufLen
    requires (table && s in entries) || FirstDot(s) == |s| || FirstDot(s) > 63 || at + FirstDot(s) + 1 > bufLen
    ensures var e := Emit(at, s, entries, table, bufLen);
      e.Written? && at + |e.bytes| == bufLen + 1 <==> TakesAll(at, s, entries, table, bufLen)
  {
    DotFromIs(s, 0);
  }

  /** Exactly then a byte is written beyond the limit. */
  lemma {:induction false} PastWhen(at: nat, s: seq<byte>, entries: Names, table: bool, bufLen: nat)
    requires at <= bufLen
    ensures var e := Emit(at, s, entries, table, bufLen);
      e.Written? && at + |e.bytes| == bufLen + 1 <==> TakesAll(at, s, entries, table, bufLen)
    decreases |s|
  {
    hide TakesAll;
    var d := FirstDot(s);
    if (table && s in entries) || d == |s| || d > 63 || at + d + 1 > bufLen {
      PastShort(at, s, entries, table, bufLen);
    } else {
      var entries' := if table then Added(entries, s, at) else entries;
      PastWhen(at + d + 1, s[d + 1..], entries', table, bufLen);
      TakesRest(at, s, entries, table, bufLen, d);
      EmitUnfolded(at, at + d + 1, s, entries, entries', table, bufLen);
    }
  }

  /** EmitSpells, when there is no label after the first one, or the table is of use. */
  lemma {:induction false} EmitShort(b: seq<byte>, start: nat, s: seq<byte>, entries: Names, table: bool, bufLen: nat)
    returns (f: seq<byte>)
    requires start <= |b| && ValidName(s) && Known(entries, b, start, |s|) && bufLen <= MAX_OFFSET
    requires (table && s in entries) || FirstDot(s) == |s| || |b| + FirstDot(s) + 1 > bufLen
    ensures Correct(Emit(|b|, s, entries, table, bufLen), b, f, start, s, entries)
  {
    TailValid(s);
    f := b;
    if table && s in entries {
      f := b + PointerTo(entries[s]);
      PointerSpells(b, f, start, s, entries[s]);
    } else if |b| + FirstDot(s) + 1 <= bufLen {
      f := b + LastPiece(s);
      LastSpells(b, f, start, s);
      AddedFresh(entries, if table then Added(entries, s, |b|) else entries, s, |b|, f, start);
      EmitEnd(|b|, s, entries, table, bufLen);
    }
  }

  /** A name is spelled where it is written, and so is every name that gets into the table. */
  lemma {:induction false} EmitSpells(b: seq<byte>, start: nat, s: seq<byte>, entries: Names, table: bool, bufLen: nat)
    returns (f: seq<byte>)
    requires start <= |b| && ValidName(s) && Known(entries, b, start, |s|) && bufLen <= MAX_OFFSET
    ensures Correct(Emit(|b|, s, entries, table, bufLen), b, f, start, s, entries)
    decreases |s|
  {
    var d := FirstDot(s);
    TailValid(s);
    if (table && s in entries) || d == |s| || |b| + d + 1 > bufLen {
      f := EmitShort(b, start, s, entries, table, bufLen);
      return;
    }
    var entries' := if table then Added(entries, s, |b|) else entries;
    var lead := b + Piece(s, d);
    PieceAt(b, s, d, lead);
    KnownLonger(entries, b, lead, start, s, |s| - d - 1);
    f := EmitSpells(lead, start, s[d + 1..], entries', table, bufLen);
    EmitUnfolded(|b|, |lead|, s, entries, entries', table, bufLen);
    EmitBack(b, lead, f, start, s, entries, entries', Emit(|lead|, s[d + 1..], entries', table, bufLen));
  }

  lemma {:induction false} Assoc(a: seq<byte>, b: seq<byte>, c: seq<byte>)
    ensures a + (b + c) == a + b + c
  {}

  lemma {:induction false} PrecededTwice(a: seq<byte>, b: seq<byte>, e: Emitted)
    ensures Preceded(a, Preceded(b, e)) == Preceded(a + b, e)
  {
    if e.Written? { Assoc(a, b, e.bytes); }
  }

  // ----- the program

  ghost function EntriesOf(table: LabelTable?): Names
    reads table
  {
    if table == null then map[] else table.entries
  }

  /** The length byte and the bytes of the first label of s, at buf[j]. */
  method PutPiece(buf: array<byte>, j: nat, s: seq<byte>, d: nat)
    requires d <= |s| && d <= 63 && j + d + 1 <= buf.Length
    modifies buf
    ensures buf[..j + d + 1] == old(buf[..j]) + Piece(s, d)
  {
    buf[j] := d;
    forall i | 0 <= i < d { buf[j + 1 + i] := s[i]; }
  }

  /** APPEND16(ref | 0xc000) */
  method PutPointer(buf: array<byte>, j: nat, ref: nat)
    requires j + 2 <= buf.Length
    modifies buf
    ensures buf[..j + 2] == old(buf[..j]) + PointerTo(ref)
  {
    var bytes := PointerTo(ref);
    buf[j] := bytes[0];
    buf[j + 1] := bytes[1];
  }

  /** The final zero, if the name did not end in a dot; past says that there is no place for it in buf. */
  method PutEnd(buf: array<byte>, j: nat, s: seq<byte>, ghost b: seq<byte>) returns (r: nat, past: bool)
    requires 0 < j <= buf.Length && |s| <= 63 && buf[..j] == b + Piece(s, |s|)
    modifies buf
    ensures r == |b| + |LastPiece(s)| && InPlace(buf, b + LastPiece(s)) && (past <==> r > buf.Length)
  {
    r, past := j, false;
    assert buf[j - 1] == buf[..j][j - 1] == Piece(s, |s|)[|s|];
    if j == 0 || buf[j - 1] != 0 {
      assert b + LastPiece(s) == buf[..j] + [0];
      if j < buf.Length {
        buf[j] := 0;
      } else {
        past := true;
      }
      r := j + 1;
    }
  }

  /** The bytes f stand at the start of buf, as far as there is place. */
  ghost predicate InPlace(buf: array<byte>, f: seq<byte>)
    reads buf
  {
    if |f| <= buf.Length then buf[..|f|] == f else buf[..] == f[..buf.Length]
  }

  /** r, and what stands in buf and in the table, are what e says, behind the bytes b; past says that the
      last byte was written behind buf. */
  ghost predicate Delivered(e: Emitted, r: int, past: bool, b: seq<byte>, buf: array<byte>, table: LabelTable?)
    reads buf, table
  {
    match e
    case Failed(code) => r == code && !past
    case Written(bytes, entries) =>
      r == |b| + |bytes| && InPlace(buf, b + bytes) && (past <==> r > buf.Length) && EntriesOf(table) == entries
  }

  /** The bytes in front of j stand in buf, and whole is what they and those to come are. */
  ghost predicate OnTheWay(whole: Emitted, b: seq<byte>, done: seq<byte>, buf: array<byte>, bufLen: nat, j: nat,
                           s: seq<byte>, table: LabelTable?)
    reads buf, table
  {
    && j == |b| + |done| <= bufLen <= buf.Length && buf[..j] == b + done
    && whole == Preceded(done, Emit(j, s, EntriesOf(table), table != null, bufLen))
  }

  /** The part of dnsname_to_labels that looks for the rest of the name in the table. */
  method TryPointer(buf: array<byte>, bufLen: nat, j: nat, s: seq<byte>, table: LabelTable?, ghost whole: Emitted,
                    ghost b: seq<byte>, ghost done: seq<byte>)
    returns (found: bool, r: int)
    requires OnTheWay(whole, b, done, buf, bufLen, j, s, table)
    modifies buf
    ensures found ==> Delivered(whole, r, false, b, buf, table)
    ensures !found ==> OnTheWay(whole, b, done, buf, bufLen, j, s, table) && !(table != null && s in table.entries)
  {
    found, r := false, 0;
    if table != null {
      var ref := table.GetPos(s);
      if ref >= 0 {
        if j + 2 > bufLen {
          return true, -2;
        }
        PutPointer(buf, j, ref);
        Assoc(b, done, PointerTo(ref));
        return true, j + 2;
      }
    }
  }

  /** The checks and the writing of one label; code is negative when a check fails. */
  method PutNext(buf: array<byte>, bufLen: nat, j: nat, s: seq<byte>, table: LabelTable?) returns (code: int, d: nat)
    requires j <= bufLen <= buf.Length && !(table != null && s in table.entries)
    modifies buf, if table == null then {} else {table}
    ensures code < 0 ==> Emit(j, s, old(EntriesOf(table)), table != null, bufLen) == Failed(code)
    ensures code >= 0 ==> d == FirstDot(s) <= 63 && j + d + 1 <= bufLen
    ensures code >= 0 ==> EntriesOf(table) == if table != null then Added(old(EntriesOf(table)), s, j) else map[]
    ensures code >= 0 ==> buf[..j + d + 1] == old(buf[..j]) + Piece(s, d)
  {
    d := FirstDot(s);
    if d > 63 {
      return -1, d;
    }
    if j + d + 1 > bufLen {
      return -2, d;
    }
    if table != null { var _ := table.Add(s, j); }
    PutPiece(buf, j, s, d);
    code := 0;
  }

  /** The part of dnsname_to_labels that writes a label; r is the result if it is the last one. */
  method PutRound(buf: array<byte>, bufLen: nat, j: nat, s: seq<byte>, table: LabelTable?, ghost whole: Emitted,
                  ghost b: seq<byte>, ghost done: seq<byte>)
    returns (last: bool, r: int, past: bool, d: nat)
    requires OnTheWay(whole, b, done, buf, bufLen, j, s, table) && !(table != null && s in table.entries)
    modifies buf, if table == null then {} else {table}
    ensures last ==> Delivered(whole, r, past, b, buf, table)
    ensures !last ==> d == FirstDot(s) < |s| && d <= 63
    ensures !last ==> OnTheWay(whole, b, done + Piece(s, d), buf, bufLen, j + d + 1, s[d + 1..], table)
  {
    ghost var entries := EntriesOf(table);
    var code;
    code, d := PutNext(buf, bufLen, j, s, table);
    if code < 0 {
      return true, code, false, d;
    }
    Assoc(b, done, Piece(s, d));
    last, r, past := d == |s|, 0, false;
    if last {
      EmitEnd(j, s, entries, table != null, bufLen);
      r, past := PutEnd(buf, j + d + 1, s, b + done);
      Assoc(b, done, LastPiece(s));
    } else {
      EmitUnfolded(j, j + d + 1, s, entries, EntriesOf(table), table != null, bufLen);
      PrecededTwice(done, Piece(s, d), Emit(j + d + 1, s[d + 1..], EntriesOf(table), table != null, bufLen));
    }
  }

  /** dnsname_to_labels. The final zero is written without a check of the length: past says that it went
      behind buf. */
  method DnsnameToLabels(buf: array<byte>, bufLen: nat, j0: nat, name: seq<byte>, table: LabelTable?)
    returns (r: int, past: bool)
    requires j0 <= bufLen <= buf.Length
    modifies buf, if table == null then {} else {table}
    ensures Delivered(if |name| > 255 then Failed(-2) else Emit(j0, name, old(EntriesOf(table)), table != null, bufLen),
                      r, past, old(buf[..j0]), buf, table)
    ensures r <= bufLen + 1
    ensures past <==> |name| <= 255 && bufLen == buf.Length &&
                      TakesAll(j0, name, old(EntriesOf(table)), table != null, bufLen)
  {
    if |name| > 255 {
      return -2, false;
    }
    EmitBound(j0, name, EntriesOf(table), table != null, bufLen);
    PastWhen(j0, name, EntriesOf(table), table != null, bufLen);
    hide Emit, FirstDot, InPlace, TakesAll;
    ghost var b := buf[..j0];
    ghost var whole := Emit(j0, name, EntriesOf(table), table != null, bufLen);
    var j, s := j0, name;
    ghost var done: seq<byte> := [];
    assert b + [] == b;
    while true
      invariant OnTheWay(whole, b, done, buf, bufLen, j, s, table)
      decreases |s|
    {
      var found, last, d;
      found, r := TryPointer(buf, bufLen, j, s, table, whole, b, done);
      if found {
        return r, false;
      }
      last, r, past, d := PutRound(buf, bufLen, j, s, table, whole, b, done);
      if last {
        return;
      }
      done := done + Piece(s, d);
      j, s := j + d + 1, s[d + 1..];
    }
  }

  /** A name of one byte, and a buffer of two: the zero goes behind the buffer. */
  method OnePast() returns (past: bool)
    ensures past
  {
    var buf := new byte[2];
    var table := new LabelTable();
    assert FirstDot([97]) == 1;
    var r;
    r, past := DnsnameToLabels(buf, 2, 0, [97], table);
  }

  // ----- whole packets

  /** A part of a packet: a name, or other bytes. */
  datatype Item = Raw(bytes: seq<byte>) | Domain(name: seq<byte>)

  datatype Span = Span(start: nat, end: nat)

  datatype Packet = NoRoom | Packet(bytes: seq<byte>, spans: seq<Span>)

  /** What one item adds. */
  function Step(b: seq<byte>, item: Item, entries: Names, bufLen: nat): Emitted {
    match item
    case Raw(bytes) => Written(bytes, entries)
    case Domain(name) => Emit(|b|, name, entries, true, bufLen)
  }

  /** The packet that starts with b and goes on with the items, whose names share one table. */
  function Assemble(b: seq<byte>, items: seq<Item>, entries: Names, bufLen: nat): Packet
    decreases |items|
  {
    if items == [] then Packet(b, [])
    else match Step(b, items[0], entries, bufLen)
      case Failed(_) => NoRoom
      case Written(bytes, entries') => Behind(Span(|b|, |b| + |bytes|),
                                              Assemble(b + bytes, items[1..], entries', bufLen))
  }

  function Behind(span: Span, p: Packet): Packet {
    if p.NoRoom? then NoRoom else Packet(p.bytes, [span] + p.spans)
  }

  predicate ValidItem(i: Item) {
    i.Domain? ==> ValidName(i.name)
  }

  /** The item is spelled at its place. */
  ghost predicate Legible(f: seq<byte>, i: Item, span: Span) {
    i.Domain? ==>
      span.start <= |f| && Spells(f, span.start, span.start, i.name) && EndOf(f, span.start, i.name) == span.end
  }

  /** One more item leaves a correct table. */
  lemma {:induction false} StepLegible(b: seq<byte>, item: Item, entries: Names, bufLen: nat) returns (f: seq<byte>)
    requires ValidItem(item) && TableOk(entries, b) && bufLen <= MAX_OFFSET && Step(b, item, entries, bufLen).Written?
    ensures var e := Step(b, item, entries, bufLen);
      f == b + e.bytes && Starts(b, f) && TableOk(e.entries, f) && Legible(f, item, Span(|b|, |f|))
  {
    var e := Step(b, item, entries, bufLen);
    f := b + e.bytes;
    StartsWith(b, e.bytes, f);
    forall v | v in entries ensures EntryOk(v, entries[v], f, |f|) { EntryLonger(v, entries[v], b, f, |b|); }
    if item.Domain? { f := EmitSpells(b, |b|, item.name, entries, true, bufLen); }
  }

  lemma {:induction false} LegibleLonger(b: seq<byte>, f: seq<byte>, i: Item, span: Span)
    requires Legible(b, i, span) && Starts(b, f)
    ensures Legible(f, i, span)
  {
    if i.Domain? { SpellsLonger(b, f, span.start, span.start, i.name); }
  }

  /** Every name in a packet is spelled at its place. */
  lemma {:induction false} PacketLegible(b: seq<byte>, items: seq<Item>, entries: Names, bufLen: nat)
    requires bufLen <= MAX_OFFSET && TableOk(entries, b) && (forall i | 0 <= i < |items| :: ValidItem(items[i]))
    requires Assemble(b, items, entries, bufLen).Packet?
    ensures var p := Assemble(b, items, entries, bufLen);
      Starts(b, p.bytes) && |p.spans| == |items| &&
      forall i | 0 <= i < |items| :: Legible(p.bytes, items[i], p.spans[i])
    decreases |items|
  {
    var p := Assemble(b, items, entries, bufLen);
    if items == [] {
      assert b + [] == b;
      StartsWith(b, [], b);
      return;
    }
    var e := Step(b, items[0], entries, bufLen);
    var f := StepLegible(b, items[0], entries, bufLen);
    PacketLegible(f, items[1..], e.entries, bufLen);
    var rest := Assemble(f, items[1..], e.entries, bufLen);
    StartsOn(b, f, p.bytes);
    LegibleLonger(f, p.bytes, items[0], Span(|b|, |f|));
    forall i | 0 <= i < |items| ensures Legible(p.bytes, items[i], p.spans[i]) {
      if i > 0 { assert items[i] == items[1..][i - 1] && p.spans[i] == rest.spans[i - 1]; }
    }
  }

  /** Every name that was written with one shared table is read back, and reading ends just behind it. */
  lemma {:induction false} PacketReadBack(b: seq<byte>, items: seq<Item>, bufLen: nat, i: nat)
    requires bufLen <= MAX_OFFSET && (forall i | 0 <= i < |items| :: ValidItem(items[i]))
    requires Assemble(b, items, map[], bufLen).Packet? && i < |items| && items[i].Domain?
    ensures var p := Assemble(b, items, map[], bufLen);
      && |p.spans| == |items| && p.spans[i].start <= |p.bytes|
      && Parse(p.bytes, p.spans[i].start, 0, -1) == Name(Labels(items[i].name), p.spans[i].end)
      && Dotted(Labels(items[i].name)) == items[i].name
  {
    PacketLegible(b, items, map[], bufLen);
    var p := Assemble(b, items, map[], bufLen);
    assert Legible(p.bytes, items[i], p.spans[i]);
    ParseSpelled(p.bytes, p.spans[i].start, p.spans[i].start, items[i].name, 0, -1);
    DottedLabels(items[i].name);
  }
}
