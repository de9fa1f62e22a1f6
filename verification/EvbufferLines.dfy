/** End-of-line search, copying out, and reading lines. */
module EvbufferLines {
  import opened Basics
  import opened Chains
  import opened EvbufferEnds
  import opened EvbufferMove
  import opened EvbufferPullup
  import opened EvbufferSearch

  // ----- the first byte of a set

  /** x is the first place at lo or after where a byte of set is; -1 if there is none. */
  ghost predicate FirstOf(s: seq<byte>, set_: seq<byte>, lo: int, x: int) {
    && 0 <= lo && (x == -1 || (lo <= x < |s| && s[x] in set_))
    && forall y | lo <= y < (if x == -1 then |s| else x) :: s[y] !in set_
  }

  ghost predicate NoneOf(s: seq<byte>, set_: seq<byte>, lo: int, hi: int) {
    0 <= lo <= hi <= |s| && forall y | lo <= y < hi :: s[y] !in set_
  }

  /** evbuffer_strchr */
  method Strchr(buf: Evbuffer, it: Ptr, ch: byte) returns (r: int, q: Ptr)
    requires buf.Valid() && IsPtr(buf, it)
    ensures FirstOf(buf.Contents(), [ch], it.pos, r)
    ensures r >= 0 ==> q.pos == r && InsideChain(buf, q)
  {
    ghost var g := buf.g;
    ghost var i: nat :| PtrAt(g, it, i);
    BaseEnds(g);
    PtrIn(g, it, i);
    q := it;
    while q.chain != null
      invariant PtrAt(g, q, i) && NoneOf(g.Bytes(), [ch], it.pos, q.pos)
      decreases |g.spine| - i
    {
      assert Linked(g, i);
      var chain := q.chain;
      var x := Scan(chain, q.posInChain, ch, g, i);
      if x >= 0 {
        q := Ptr(q.pos + x - q.posInChain, chain, x);
        assert InsideAt(g, q, i);
        return q.pos, q;
      }
      q := Ptr(q.pos + chain.off - q.posInChain, chain.next, 0);
      i := i + 1;
    }
    r := -1;
  }

  /** find_eol_char, over the bytes of chain c from from on. */
  method FindEolChar(c: Chain, from: nat, ghost b: seq<byte>) returns (x: int)
    requires c.Holds(b) && from <= |b|
    ensures FirstOf(b, [CR, LF], from, x)
  {
    var s := from;
    while s < c.off
      invariant from <= s && forall y | from <= y < s && y < |b| :: b[y] !in [CR, LF]
    {
      var chunk := if s + CHUNK_SZ < c.off then CHUNK_SZ else c.off - s;
      var cr := Memchr(c, s, s + chunk, CR, b);
      var lf := Memchr(c, s, s + chunk, LF, b);
      if cr >= 0 {
        if lf >= 0 && lf < cr {
          return lf;
        }
        return cr;
      } else if lf >= 0 {
        return lf;
      }
      s := s + CHUNK_SZ;
    }
    x := -1;
  }

  /** evbuffer_find_eol_char */
  method FindEol(buf: Evbuffer, it: Ptr) returns (r: int, q: Ptr)
    requires buf.Valid() && IsPtr(buf, it)
    ensures FirstOf(buf.Contents(), [CR, LF], it.pos, r)
    ensures r >= 0 ==> q.pos == r && InsideChain(buf, q)
  {
    ghost var g := buf.g;
    ghost var i: nat :| PtrAt(g, it, i);
    BaseEnds(g);
    PtrIn(g, it, i);
    q := it;
    while q.chain != null
      invariant PtrAt(g, q, i) && NoneOf(g.Bytes(), [CR, LF], it.pos, q.pos)
      decreases |g.spine| - i
    {
      assert SoundAt(g, i) && Linked(g, i);
      BlockIn(g, i);
      var chain := q.chain;
      var x := FindEolChar(chain, q.posInChain, g.blocks[i]);
      if x >= 0 {
        q := Ptr(q.pos + x - q.posInChain, chain, x);
        assert InsideAt(g, q, i);
        return q.pos, q;
      }
      q := Ptr(q.pos + chain.off - q.posInChain, chain.next, 0);
      i := i + 1;
    }
    r := -1;
  }

  /** The bytes from lo to hi-1 are of set, and the one at hi, if any, is not. */
  ghost predicate RunOf(s: seq<byte>, set_: seq<byte>, lo: int, hi: int) {
    0 <= lo <= hi <= |s| && (forall y | lo <= y < hi :: s[y] in set_) && (hi < |s| ==> s[hi] !in set_)
  }

  ghost predicate AllOf(s: seq<byte>, set_: seq<byte>, lo: int, hi: int) {
    0 <= lo <= hi <= |s| && forall y | lo <= y < hi :: s[y] in set_
  }

  /** The loop of evbuffer_strspn within one chain. */
  method SpanChain(c: Chain, from: nat, chrset: seq<byte>, ghost b: seq<byte>) returns (n: nat)
    requires c.Holds(b) && from <= |b|
    ensures RunOf(b, chrset, from, from + n)
  {
    n := 0;
    while from + n < c.off
      invariant from + n <= |b| && forall y | from <= y < from + n :: b[y] in chrset
    {
      assert c.At(b, from + n);
      if c.data[c.misalign + from + n] !in chrset {
        return;
      }
      n := n + 1;
    }
  }

  /** The loop of evbuffer_strspn: n is the chain that it stops in, at byte at, or the last one. */
  method SpanChains(start: Chain, position: nat, chrset: seq<byte>, ghost g: Shape, ghost i: nat, ghost lo: nat)
    returns (count: nat, chain: Chain, at: nat, ghost n: nat)
    requires Sound(g) && (forall j :: Linked(g, j)) && PtrAt(g, Ptr(lo, start, position), i)
    ensures RunOf(g.Bytes(), chrset, lo, lo + count) && n < |g.spine| && chain == g.spine[n]
    ensures lo + count < |g.Bytes()| ==> PtrAt(g, Ptr(lo + count, chain, at), n)
    ensures lo + count >= |g.Bytes()| ==> lo + count == |g.Bytes()| && n == |g.spine| - 1 && at == 0
  {
    BaseEnds(g);
    PtrIn(g, Ptr(lo, start, position), i);
    count, chain, at, n := 0, start, position, i;
    while true
      invariant n < |g.spine| && chain == g.spine[n]
      invariant at <= |g.blocks[n]| && lo + count == Base(g, n) + at
      invariant AllOf(g.Bytes(), chrset, lo, lo + count)
      decreases |g.spine| - n
    {
      assert SoundAt(g, n) && Linked(g, n);
      BlockIn(g, n);
      var m := SpanChain(chain, at, chrset, g.blocks[n]);
      count := count + m;
      if at + m < chain.off {
        at := at + m;
        return;
      }
      if chain.next == null {
        at := 0;
        return;
      }
      chain, at, n := chain.next, 0, n + 1;
    }
  }

  /** A byte that is not of the set stands at lo or behind. */
  ghost predicate Stops(s: seq<byte>, set_: seq<byte>, lo: int) {
    exists j :: lo <= j < |s| && 0 <= j && s[j] !in set_
  }

  /** evbuffer_strspn: how many bytes from p on are of chrset, and what becomes of p. When the run goes on to the
      end of the buffer, q is put at the start of the last chain, which is not where q.pos says. */
  method Strspn(buf: Evbuffer, p: Ptr, chrset: seq<byte>) returns (count: nat, q: Ptr)
    requires buf.Valid() && IsPtr(buf, p)
    ensures RunOf(buf.Contents(), chrset, p.pos, p.pos + count) && q.pos == p.pos + count
    ensures IsPtr(buf, q) <==>
            p.chain == null || Stops(buf.Contents(), chrset, p.pos) || buf.g.blocks[|buf.g.blocks| - 1] == []
  {
    ghost var i: nat :| PtrAt(buf.g, p, i);
    BaseEnds(buf.g);
    PtrIn(buf.g, p, i);
    if p.chain == null {
      return 0, p;
    }
    var chain, at;
    ghost var n;
    count, chain, at, n := SpanChains(p.chain, p.posInChain, chrset, buf.g, i, p.pos);
    q := Ptr(p.pos + count, chain, at);
    if p.pos + count < |buf.Contents()| {
      AtIsPtr(buf, q, n);
    } else {
      LeftAtStart(buf, q);
    }
  }

  lemma AtIsPtr(buf: Evbuffer, p: Ptr, i: nat)
    requires PtrAt(buf.g, p, i)
    ensures IsPtr(buf, p)
  {
  }

  /** The end of the bytes, and the start of the last chain. */
  lemma LeftAtStart(buf: Evbuffer, q: Ptr)
    requires buf.Valid() && buf.g.spine != [] && q == Ptr(|buf.Contents()|, buf.g.Last(), 0)
    ensures IsPtr(buf, q) <==> buf.g.blocks[|buf.g.blocks| - 1] == []
  {
    var g := buf.g;
    var m := |g.spine| - 1;
    BaseEnds(g);
    BlockIn(g, m);
    Pairwise(g);
    if g.blocks[m] == [] {
      assert PtrAt(g, q, m);
    }
    forall i: nat | PtrAt(g, q, i) ensures g.blocks[m] == [] {
      assert i == m;
    }
  }

  /** A run to the end of a buffer, after which the pointer addresses no byte of the buffer, nor its end. */
  method StrspnLeaves() returns (buf: Evbuffer, q: Ptr)
    ensures fresh(buf) && buf.Valid() && q.pos == |buf.Contents()| == 2 && !IsPtr(buf, q)
  {
    buf := new Evbuffer();
    var r := Add(buf, [CR, LF]);
    assert buf.Contents() == [CR, LF];
    var p, count;
    r, p := SetPtr(buf, NOT_FOUND, 0, PtrSet);
    count, q := Strspn(buf, p, [CR, LF]);
  }

  // ----- evbuffer_search_eol

  datatype EolStyle = EolAny | EolCrlf | EolCrlfStrict | EolLf | EolNul

  /** The line that starts at lo ends at x, and the terminator there is len bytes long. */
  ghost predicate EolAt(s: seq<byte>, style: EolStyle, lo: int, x: int, len: int) {
    match style
    case EolAny => x >= 0 && len > 0 && FirstOf(s, [CR, LF], lo, x) && RunOf(s, [CR, LF], x, x + len)
    case EolCrlfStrict => x >= 0 && len == 2 && Found(s, [CR, LF], lo, |s|, x)
    case EolCrlf =>
      && lo <= x && len in {1, 2} && FirstOf(s, [LF], lo, x + len - 1)
      && (len == 2 ==> s[x] == CR) && (len == 1 && lo < x ==> s[x - 1] != CR)
    case EolLf => x >= 0 && len == 1 && FirstOf(s, [LF], lo, x)
    case EolNul => x >= 0 && len == 1 && FirstOf(s, [NUL], lo, x)
  }

  /** No line that starts at lo ends. */
  ghost predicate NoEol(s: seq<byte>, style: EolStyle, lo: int) {
    match style
    case EolAny => FirstOf(s, [CR, LF], lo, -1)
    case EolCrlfStrict => Found(s, [CR, LF], lo, |s|, -1)
    case EolCrlf => FirstOf(s, [LF], lo, -1)
    case EolLf => FirstOf(s, [LF], lo, -1)
    case EolNul => FirstOf(s, [NUL], lo, -1)
  }

  /** evbuffer_getchr, for a pointer to a byte. */
  method GetChr(buf: Evbuffer, p: Ptr) returns (ch: byte)
    requires buf.Valid() && InsideChain(buf, p)
    ensures 0 <= p.pos < |buf.Contents()| && ch == buf.Contents()[p.pos]
  {
    ghost var g := buf.g;
    ghost var i: nat :| InsideAt(g, p, i);
    BlockIn(g, i);
    assert SoundAt(g, i) && p.chain.At(g.blocks[i], p.posInChain);
    ch := p.chain.data[p.chain.misalign + p.posInChain];
  }

  /** evbuffer_ptr_subtract by one, from a pointer to a byte that is not the first one. */
  method StepBack(buf: Evbuffer, p: Ptr) returns (q: Ptr)
    requires buf.Valid() && InsideChain(buf, p) && p.pos > 0
    ensures q.pos == p.pos - 1 && InsideChain(buf, q)
  {
    ghost var g := buf.g;
    ghost var i: nat :| InsideAt(g, p, i);
    if 1 <= p.posInChain {
      q := p.(pos := p.pos - 1, posInChain := p.posInChain - 1);
      assert InsideAt(g, q, i);
    } else {
      PtrIn(g, p, i);
      var r;
      r, q := SetPtr(buf, p, p.pos - 1, PtrSet);
    }
  }

  lemma InsideIsPtr(buf: Evbuffer, p: Ptr)
    requires InsideChain(buf, p)
    ensures IsPtr(buf, p)
  {
    var i: nat :| InsideAt(buf.g, p, i);
    assert PtrAt(buf.g, p, i);
  }

  /** What to make of the LF at q: is there a CR in front of it? */
  method LookBack(buf: Evbuffer, it: Ptr, q: Ptr) returns (r: Ptr, len: nat)
    requires buf.Valid() && InsideChain(buf, q) && 0 <= it.pos <= q.pos
    ensures IsPtr(buf, r) && len in {1, 2} && r.pos + len - 1 == q.pos && it.pos <= r.pos && q.pos < |buf.Contents()|
    ensures len == 2 ==> buf.Contents()[r.pos] == CR
    ensures len == 1 && it.pos < r.pos ==> buf.Contents()[r.pos - 1] != CR
  {
    hide InsideChain, IsPtr;
    r, len := q, 1;
    InsideIsPtr(buf, q);
    var _ := GetChr(buf, q);
    if q.pos != it.pos {
      var back := StepBack(buf, q);
      var ch := GetChr(buf, back);
      if ch == CR {
        InsideIsPtr(buf, back);
        r, len := back, 2;
      }
    }
  }

  lemma StartsIn(buf: Evbuffer, p: Ptr)
    requires IsPtr(buf, p)
    ensures 0 <= p.pos <= |buf.Contents()|
  {
    var i: nat :| PtrAt(buf.g, p, i);
    PtrIn(buf.g, p, i);
  }

  /** The part of evbuffer_search_eol that looks for LF or CR LF. */
  method SearchCrlf(buf: Evbuffer, it: Ptr) returns (r: Ptr, len: nat)
    requires buf.Valid() && IsPtr(buf, it)
    ensures if r == NOT_FOUND then len == 0 && NoEol(buf.Contents(), EolCrlf, it.pos)
            else IsPtr(buf, r) && EolAt(buf.Contents(), EolCrlf, it.pos, r.pos, len)
  {
    hide InsideChain, IsPtr;
    StartsIn(buf, it);
    var x, q := Strchr(buf, it, LF);
    if x < 0 {
      return NOT_FOUND, 0;
    }
    r, len := LookBack(buf, it, q);
  }

  /** The part of evbuffer_search_eol for a run of CR and LF. */
  method SearchAny(buf: Evbuffer, it: Ptr) returns (r: Ptr, len: nat)
    requires buf.Valid() && IsPtr(buf, it)
    ensures if r == NOT_FOUND then len == 0 && NoEol(buf.Contents(), EolAny, it.pos)
            else IsPtr(buf, r) && EolAt(buf.Contents(), EolAny, it.pos, r.pos, len)
  {
    hide IsPtr;
    var x;
    x, r := FindEol(buf, it);
    if x < 0 {
      return NOT_FOUND, 0;
    }
    InsideIsPtr(buf, r);
    var it2;
    len, it2 := Strspn(buf, r, [CR, LF]);
  }

  /** The part of evbuffer_search_eol for CR LF. */
  method SearchStrict(buf: Evbuffer, it: Ptr) returns (r: Ptr, len: nat)
    requires buf.Valid() && IsPtr(buf, it) && |buf.Contents()| <= SSIZE_MAX
    ensures if r == NOT_FOUND then len == 0 && NoEol(buf.Contents(), EolCrlfStrict, it.pos)
            else IsPtr(buf, r) && EolAt(buf.Contents(), EolCrlfStrict, it.pos, r.pos, len)
  {
    r := SearchRange(buf, [CR, LF], At(it), Unset);
    if r.pos < 0 {
      return NOT_FOUND, 0;
    }
    len := 2;
  }

  /** evbuffer_search_eol */
  method SearchEol(buf: Evbuffer, start: Limit, style: EolStyle) returns (r: Ptr, len: nat)
    requires buf.Valid() && IsLimit(buf, start) && |buf.Contents()| <= SSIZE_MAX
    ensures var lo := if start.At? then start.p.pos else 0;
      if r == NOT_FOUND then len == 0 && NoEol(buf.Contents(), style, lo)
      else IsPtr(buf, r) && EolAt(buf.Contents(), style, lo, r.pos, len)
  {
    BaseEnds(buf.g);
    if start.At? && start.p.chain == null {
      AtEnd(buf, start.p, style);
      return NOT_FOUND, 0;
    }
    var it := if start.At? then start.p else Ptr(0, buf.first, 0);
    assert !start.At? ==> PtrAt(buf.g, it, 0);
    match style
    case EolAny => r, len := SearchAny(buf, it);
    case EolCrlfStrict => r, len := SearchStrict(buf, it);
    case EolCrlf => r, len := SearchCrlf(buf, it);
    case EolLf => r, len := SearchByte(buf, it, LF);
    case EolNul => r, len := SearchByte(buf, it, NUL);
  }

  method SearchByte(buf: Evbuffer, it: Ptr, ch: byte) returns (r: Ptr, len: nat)
    requires buf.Valid() && IsPtr(buf, it)
    ensures if r == NOT_FOUND then len == 0 && FirstOf(buf.Contents(), [ch], it.pos, -1)
            else IsPtr(buf, r) && len == 1 && r.pos >= 0 && FirstOf(buf.Contents(), [ch], it.pos, r.pos)
  {
    var x;
    x, r := Strchr(buf, it, ch);
    if x < 0 {
      return NOT_FOUND, 0;
    }
    InsideIsPtr(buf, r);
    len := 1;
  }

  /** There is nothing behind the end. */
  lemma AtEnd(buf: Evbuffer, p: Ptr, style: EolStyle)
    requires buf.Valid() && IsPtr(buf, p) && p.chain == null
    ensures NoEol(buf.Contents(), style, p.pos)
  {
    var i: nat :| PtrAt(buf.g, p, i);
    PtrIn(buf.g, p, i);
    BaseEnds(buf.g);
  }

  // ----- evbuffer_copyout, evbuffer_remove and evbuffer_readln

  /** memcpy of n bytes of chain c, from from on, to position at. */
  method CopyFrom(data: array<byte>, at: nat, c: Chain, from: nat, n: nat, ghost b: seq<byte>, ghost s: seq<byte>)
    requires c.Holds(b) && from + n <= |b| && c.data != data
    requires |s| == at && at + n <= data.Length && Filled(data, 0, s)
    modifies data
    ensures Filled(data, 0, s + b[from..from + n])
  {
    var d := c.data[c.misalign + from..c.misalign + from + n];
    forall j | 0 <= j < n ensures d[j] == b[from..from + n][j] { assert c.At(b, from + j); }
    assert d == b[from..from + n];
    label before:
    Memcpy(data, at, d);
    ghost var t := s + d;
    forall j ensures Placed(data, 0, t, j) { assert old@before(Placed(data, 0, s, j)); }
  }

  /** The first n bytes of data are those of s from lo on. */
  ghost predicate Copied(data: array<byte>, s: seq<byte>, lo: nat, n: nat)
    reads data
  {
    lo + n <= |s| && Filled(data, 0, s[lo..lo + n])
  }

  /** CopyFrom, for chain i of the buffer. */
  method CopyPiece(data: array<byte>, at: nat, c: Chain, from: nat, n: nat, ghost g: Shape, ghost i: nat, ghost lo: nat)
    requires Sound(g) && i < |g.spine| && c == g.spine[i] && from + n <= |g.blocks[i]| && data !in g.mem &&
             data !in g.shared
    requires Base(g, i) + from == lo + at && at + n <= data.Length && Copied(data, g.Bytes(), lo, at)
    modifies data
    ensures Sound(g) && Copied(data, g.Bytes(), lo, at + n)
    ensures Base(g, i + 1) == Base(g, i) + |g.blocks[i]|
  {
    assert SoundAt(g, i);
    BlockIn(g, i);
    ChunkOf(g, i, from, n);
    ghost var s := g.Bytes();
    assert s[lo..lo + (at + n)] == s[lo..lo + at] + s[lo + at..lo + at + n];
    label before:
    CopyFrom(data, at, c, from, n, g.blocks[i], s[lo..lo + at]);
    forall j ensures SoundAt(g, j) { assert old@before(SoundAt(g, j)); }
  }

  /** evbuffer_copyout_from, the loop and what follows it, from byte position of chain i on. */
  method CopyChains(start: Chain?, position: nat, data: array<byte>, len: nat, ghost g: Shape, ghost i0: nat,
                    ghost lo: nat)
    requires Sound(g) && (forall j :: Linked(g, j)) && i0 <= |g.spine| &&
             start == if i0 < |g.spine| then g.spine[i0] else null
    requires position <= if i0 < |g.spine| then |g.blocks[i0]| else 0
    requires Base(g, i0) + position == lo && lo + len <= |g.Bytes()| && len <= data.Length
    requires data !in g.mem && data !in g.shared
    modifies data
    ensures Sound(g) && Copied(data, g.Bytes(), lo, len)
  {
    ghost var i := i0;
    BaseEnds(g);
    var chain, from: nat, left: nat := start, position, len;
    while left > 0 && left >= chain.off - from
      invariant i <= |g.spine| && chain == if i < |g.spine| then g.spine[i] else null
      invariant from <= (if i < |g.spine| then |g.blocks[i]| else 0) && left <= len
      invariant left > 0 ==> chain != null && Base(g, i) + from == lo + (len - left)
      invariant Copied(data, g.Bytes(), lo, len - left) && Sound(g) && forall j :: Linked(g, j)
      decreases |g.spine| - i
    {
      assert SoundAt(g, i) && Linked(g, i);
      var n := chain.off - from;
      CopyPiece(data, len - left, chain, from, n, g, i, lo);
      left := left - n;
      chain, from, i := chain.next, 0, i + 1;
    }
    if left > 0 {
      assert SoundAt(g, i);
      CopyPiece(data, len - left, chain, from, left, g, i, lo);
    }
  }

  /** evbuffer_copyout_from */
  method CopyOut(buf: Evbuffer, start: Limit, data: array<byte>, datlen: nat) returns (r: int)
    requires buf.Valid() && IsLimit(buf, start) && |buf.Contents()| <= SSIZE_MAX
    requires data !in buf.g.mem && data !in buf.g.shared
    requires data.Length >= Wanted(buf, start, datlen)
    modifies data
    ensures buf.Valid()
    ensures r == if start.At? && datlen > SSIZE_MAX - start.p.pos then -1
                 else if buf.freezeStart && Wanted(buf, start, datlen) > 0 then -1
                 else Wanted(buf, start, datlen)
    ensures r > 0 ==> Copied(data, buf.Contents(), if start.At? then start.p.pos else 0, r)
  {
    ghost var g := buf.g;
    BaseEnds(g);
    var it, len := Ptr(0, buf.first, 0), datlen;
    assert PtrAt(g, it, 0);
    if start.At? {
      if datlen > SSIZE_MAX - start.p.pos {
        return -1;
      }
      it := start.p;
      if len + it.pos > buf.totalLen { len := buf.totalLen - it.pos; }
    } else if len > buf.totalLen {
      len := buf.totalLen;
    }
    if len == 0 {
      return 0;
    }
    if buf.freezeStart {
      return -1;
    }
    ghost var i: nat :| PtrAt(g, it, i);
    PtrIn(g, it, i);
    CopyChains(it.chain, it.posInChain, data, len, g, i, it.pos);
    r := len;
  }

  /** How many bytes there are to copy. */
  ghost function Wanted(buf: Evbuffer, start: Limit, datlen: nat): nat
    requires IsLimit(buf, start)
    reads buf
  {
    var lo := if start.At? then start.p.pos else 0;
    assert 0 <= lo <= |buf.Contents()| by {
      if start.At? { var i: nat :| PtrAt(buf.g, start.p, i); PtrIn(buf.g, start.p, i); }
    }
    if lo + datlen > |buf.Contents()| then |buf.Contents()| - lo else datlen
  }

  /** evbuffer_remove */
  method Remove(buf: Evbuffer, data: array<byte>, datlen: nat) returns (r: int)
    requires buf.Valid() && |buf.Contents()| <= SSIZE_MAX
    requires data !in buf.g.mem && data !in buf.g.shared
    requires data.Length >= if datlen < |buf.Contents()| then datlen else |buf.Contents()|
    modifies data, buf`first, buf`last, buf`lastWithDatap, buf`totalLen, buf`g, buf.g.cells`misalign, buf.g.cells`off,
             buf.g.cells`refcnt
    ensures buf.Valid()
    ensures var n := if datlen < |old(buf.Contents())| then datlen else |old(buf.Contents())|;
      && (buf.freezeStart && n > 0 ==> r == -1 && buf.Contents() == old(buf.Contents()))
      && (!buf.freezeStart || n == 0 ==>
            r == AsInt(n) && buf.Contents() == old(buf.Contents())[n..] && Copied(data, old(buf.Contents()), 0, n))
    ensures buf.g.cells == old(buf.g.cells) && buf.g.mem == old(buf.g.mem) && buf.g.shared == old(buf.g.shared)
  {
    r := CopyOut(buf, Unset, data, datlen);
    if r > 0 {
      ghost var freed;
      var d;
      d, freed := Drain(buf, r);
    }
    r := AsInt(r);
  }

  /** evbuffer_readln: takes a line of n bytes and its terminator of len bytes off the buffer. */
  method Readln(buf: Evbuffer, style: EolStyle) returns (line: array?<byte>, n: nat, ghost len: nat)
    requires buf.Valid() && |buf.Contents()| <= SSIZE_MAX
    modifies buf`first, buf`last, buf`lastWithDatap, buf`totalLen, buf`g, buf.g.cells`misalign, buf.g.cells`off,
             buf.g.cells`refcnt
    ensures buf.Valid()
    ensures line == null <==> buf.freezeStart || NoEol(old(buf.Contents()), style, 0)
    ensures line == null ==> n == 0 && buf.Contents() == old(buf.Contents())
    ensures line != null ==> EolAt(old(buf.Contents()), style, 0, n, len) && n + len <= |old(buf.Contents())|
    ensures line != null ==> line.Length == n + 1 && line[..n] == old(buf.Contents())[..n] && line[n] == 0
    ensures line != null ==> buf.Contents() == old(buf.Contents())[n + len..]
    ensures buf.g.cells == old(buf.g.cells) && buf.g.mem == old(buf.g.mem) && buf.g.shared == old(buf.g.shared)
  {
    line, n, len := null, 0, 0;
    if buf.freezeStart {
      return;
    }
    ghost var s := buf.Contents();
    var it, extra := SearchEol(buf, Unset, style);
    NeverBoth(s, style, it.pos, extra);
    if it.pos < 0 {
      return;
    }
    EolFits(s, style, it.pos, extra);
    n, len := it.pos, extra;
    line := TakeLine(buf, n, extra);
  }

  /** Copies n bytes out, ends them with a NUL, and drains them and extra more. */
  method TakeLine(buf: Evbuffer, n: nat, extra: nat) returns (line: array<byte>)
    requires buf.Valid() && !buf.freezeStart && n + extra <= |buf.Contents()| <= SSIZE_MAX
    modifies buf`first, buf`last, buf`lastWithDatap, buf`totalLen, buf`g, buf.g.cells`misalign, buf.g.cells`off,
             buf.g.cells`refcnt
    ensures buf.Valid() && buf.Contents() == old(buf.Contents())[n + extra..]
    ensures line.Length == n + 1 && line[..n] == old(buf.Contents())[..n] && line[n] == 0
    ensures buf.g.cells == old(buf.g.cells) && buf.g.mem == old(buf.g.mem) && buf.g.shared == old(buf.g.shared)
  {
    ghost var s := buf.Contents();
    line := new byte[n + 1];
    var r := Remove(buf, line, n);
    Terminate(line, n, s);
    ghost var freed;
    r, freed := Drain(buf, extra);
  }

  /** line[n] = '\0' */
  method Terminate(line: array<byte>, n: nat, ghost s: seq<byte>)
    requires line.Length == n + 1 && Copied(line, s, 0, n)
    modifies line
    ensures n <= |s| && line[..n] == s[..n] && line[n] == 0
  {
    forall j | 0 <= j < n ensures line[..n][j] == s[..n][j] { assert Placed(line, 0, s[0..n], j); }
    assert line[..n] == s[..n];
    line[n] := 0;
  }

  /** A place with a terminator and no terminator at all exclude each other. */
  lemma NeverBoth(s: seq<byte>, style: EolStyle, x: int, len: nat)
    ensures !(EolAt(s, style, 0, x, len) && NoEol(s, style, 0))
  {
    if EolAt(s, style, 0, x, len) {
      match style
      case EolAny => assert s[x] in [CR, LF];
      case EolCrlfStrict => assert MatchAt(s, [CR, LF], x);
      case EolCrlf => assert s[x + len - 1] in [LF];
      case EolLf => assert s[x] in [LF];
      case EolNul => assert s[x] in [NUL];
    }
  }

  lemma EolFits(s: seq<byte>, style: EolStyle, x: int, len: nat)
    requires EolAt(s, style, 0, x, len)
    ensures 0 <= x && x + len <= |s|
  {}

  // ----- what a line is

  /** t can end a line: 13 is CR and 10 is LF. */
  ghost predicate IsTerminator(t: seq<byte>, style: EolStyle) {
    match style
    case EolAny => t != [] && forall j | 0 <= j < |t| :: t[j] == 13 || t[j] == 10
    case EolCrlfStrict => t == [13, 10]
    case EolCrlf => t == [10] || t == [13, 10]
    case EolLf => t == [10]
    case EolNul => t == [0]
  }

  /** Some part of s can end a line. */
  ghost predicate HasTerminator(s: seq<byte>, style: EolStyle) {
    exists x, y | 0 <= x <= y <= |s| :: IsTerminator(s[x..y], style)
  }

  /** What a terminator of the style ends in. */
  function LastOf(style: EolStyle): seq<byte> {
    match style
    case EolAny => [CR, LF]
    case EolNul => [NUL]
    case _ => [LF]
  }

  lemma InLastOf(style: EolStyle, b: byte)
    ensures b in LastOf(style) <==> if style.EolAny? then b == CR || b == LF else b == if style.EolNul? then NUL else LF
  {
  }

  lemma NotTerminator(s: seq<byte>, style: EolStyle, a: nat, b: nat)
    requires a <= b <= |s|
    requires if style.EolCrlfStrict? then b != a + 2 || !MatchAt(s, [CR, LF], a)
             else a == b || s[b - 1] !in LastOf(style)
    ensures !IsTerminator(s[a..b], style)
  {
    assert a < b ==> s[a..b][b - a - 1] == s[b - 1];
    assert b == a + 2 ==> (s[a..b] == [CR, LF] <==> MatchAt(s, [CR, LF], a));
  }

  /** Where SearchEol stops, the buffer splits into a line without any terminator, a terminator and the rest. */
  lemma LineSplits(s: seq<byte>, style: EolStyle, x: int, len: nat)
    requires EolAt(s, style, 0, x, len)
    ensures 0 <= x && x + len <= |s| && s == s[..x] + s[x..x + len] + s[x + len..]
    ensures IsTerminator(s[x..x + len], style) && !HasTerminator(s[..x], style)
  {
    EolFits(s, style, x, len);
    var line := s[..x];
    forall a, b | 0 <= a <= b <= |line| ensures !IsTerminator(line[a..b], style) {
      assert line[a..b] == s[a..b];
      NotTerminator(s, style, a, b);
    }
  }

  /** It stops nowhere exactly when there is no terminator. */
  lemma NoLine(s: seq<byte>, style: EolStyle)
    ensures NoEol(s, style, 0) <==> !HasTerminator(s, style)
  {
    if NoEol(s, style, 0) {
      forall a, b | 0 <= a <= b <= |s| ensures !IsTerminator(s[a..b], style) {
        NotTerminator(s, style, a, b);
      }
    } else if style.EolCrlfStrict? {
      var w := [CR, LF];
      var y: nat :| y < |s| - |w| + 1 && MatchAt(s, w, y);
      assert IsTerminator(s[y..y + |w|], style);
    } else {
      var y :| 0 <= y < |s| && s[y] in LastOf(style);
      assert s[y..y + 1] == [s[y]];
      InLastOf(style, s[y]);
      assert IsTerminator(s[y..y + 1], style);
    }
  }
}
