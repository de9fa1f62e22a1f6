/** Positions in a buffer, searching across chains, and reading lines. */
module EvbufferSearch {
  import opened Basics
  import opened Chains

  const CHUNK_SZ := 128
  const CR: byte := 13
  const LF: byte := 10
  const NUL: byte := 0

  /** struct evbuffer_ptr */
  datatype Ptr = Ptr(pos: int, chain: Chain?, posInChain: nat)

  const NOT_FOUND := Ptr(-1, null, 0)

  /** Where block i starts among the bytes of g. */
  ghost function Base(g: Shape, i: nat): nat
    requires i <= |g.blocks|
  {
    |Flat(g.blocks[..i])|
  }

  /** p addresses a byte of chain i, or the end of its data, or the end of the list. */
  ghost predicate PtrAt(g: Shape, p: Ptr, i: nat) {
    && i <= |g.spine| == |g.blocks|
    && p.chain == (if i < |g.spine| then g.spine[i] else null)
    && p.posInChain <= (if i < |g.spine| then |g.blocks[i]| else 0)
    && p.pos == Base(g, i) + p.posInChain
  }

  ghost predicate IsPtr(buf: Evbuffer, p: Ptr)
    reads buf
  {
    exists i :: PtrAt(buf.g, p, i)
  }

  /** p addresses a byte, not just the end of the data of a chain. */
  ghost predicate InsideChain(buf: Evbuffer, p: Ptr)
    reads buf
  {
    exists i :: InsideAt(buf.g, p, i)
  }

  ghost predicate InsideAt(g: Shape, p: Ptr, i: nat) {
    PtrAt(g, p, i) && i < |g.blocks| && p.posInChain < |g.blocks[i]|
  }

  /** Block i among the bytes of g. */
  lemma BlockIn(g: Shape, i: nat)
    requires i < |g.blocks|
    ensures Base(g, i + 1) == Base(g, i) + |g.blocks[i]| <= |g.Bytes()|
    ensures forall x | Base(g, i) <= x < Base(g, i) + |g.blocks[i]| :: g.Bytes()[x] == g.blocks[i][x - Base(g, i)]
  {
    FlatAround(g.blocks, i);
  }

  lemma PtrIn(g: Shape, p: Ptr, i: nat)
    requires PtrAt(g, p, i)
    ensures 0 <= p.pos <= |g.Bytes()|
  {
    BaseEnds(g);
    if i < |g.blocks| { BlockIn(g, i); }
  }

  lemma BaseEnds(g: Shape)
    ensures Base(g, 0) == 0 && Base(g, |g.blocks|) == |g.Bytes()|
  {
    assert g.blocks[..|g.blocks|] == g.blocks;
  }

  // ----- memchr and memcmp

  /** memchr over the bytes from to to-1 of chain c. */
  method Memchr(c: Chain, from: nat, to: nat, ch: byte, ghost b: seq<byte>) returns (x: int)
    requires c.Holds(b) && from <= to <= |b|
    ensures x == -1 || from <= x < to
    ensures x >= 0 ==> b[x] == ch
    ensures forall j | from <= j < (if x == -1 then to else x) :: b[j] != ch
  {
    x := from;
    while x < to
      invariant from <= x <= to && forall j | from <= j < x :: b[j] != ch
    {
      assert c.At(b, x);
      if c.data[c.misalign + x] == ch {
        return;
      }
      x := x + 1;
    }
    x := -1;
  }

  /** memcmp of n bytes of chain c, from from on, with those of mem from k on. */
  method Memcmp(c: Chain, from: nat, mem: seq<byte>, k: nat, n: nat, ghost b: seq<byte>) returns (r: int, ghost d: nat)
    requires c.Holds(b) && from + n <= |b| && k + n <= |mem|
    ensures r == 0 <==> b[from..from + n] == mem[k..k + n]
    ensures r != 0 ==> d < n && b[from..from + d] == mem[k..k + d] && b[from + d] != mem[k + d]
    ensures r != 0 ==> (r < 0 <==> b[from + d] < mem[k + d])
  {
    var j := 0;
    d := 0;
    while j < n
      invariant j <= n && b[from..from + j] == mem[k..k + j]
    {
      assert c.At(b, from + j);
      assert b[from..from + j + 1] == b[from..from + j] + [b[from + j]] &&
             mem[k..k + j + 1] == mem[k..k + j] + [mem[k + j]];
      if c.data[c.misalign + from + j] != mem[k + j] {
        assert b[from..from + n][j] == b[from + j] && mem[k..k + n][j] == mem[k + j];
        return if c.data[c.misalign + from + j] < mem[k + j] then -1 else 1, j;
      }
      j := j + 1;
    }
    r := 0;
  }

  // ----- evbuffer_ptr_set

  datatype How = PtrSet | PtrAdd

  /** The loop of evbuffer_ptr_set: walks left bytes on from position in chain i. */
  method Walk(buf: Evbuffer, start: Chain?, position: nat, left: nat, ghost i: nat)
    returns (chain: Chain?, rest: nat, ghost n: nat)
    requires buf.Valid() && i <= |buf.g.blocks| && PtrAt(buf.g, Ptr(Base(buf.g, i) + position, start, position), i)
    ensures n <= |buf.g.spine| == |buf.g.blocks| && chain == if n < |buf.g.spine| then buf.g.spine[n] else null
    ensures n < |buf.g.spine| ==> rest < |buf.g.blocks[n]|
    ensures Base(buf.g, n) + rest == Base(buf.g, i) + position + left
  {
    ghost var g := buf.g;
    var pos: nat := position;
    chain, rest, n := start, left, i;
    while chain != null && pos + rest >= chain.off
      invariant n <= |g.spine| && chain == if n < |g.spine| then g.spine[n] else null
      invariant pos <= if n < |g.spine| then |g.blocks[n]| else 0
      invariant Base(g, n) + pos + rest == Base(g, i) + position + left
      decreases |g.spine| - n
    {
      assert SoundAt(g, n) && Linked(g, n);
      BlockIn(g, n);
      rest := rest - (chain.off - pos);
      chain, pos, n := chain.next, 0, n + 1;
    }
    if chain != null { assert SoundAt(g, n); rest := pos + rest; }
  }

  /** evbuffer_ptr_set. With PtrSet, or from a pointer into the buffer, the result addresses the wanted
      position, or is the end, or says that there is no such position. */
  method SetPtr(buf: Evbuffer, p: Ptr, position: nat, how: How) returns (r: int, q: Ptr)
    requires buf.Valid() && (how.PtrAdd? && p.pos >= 0 ==> IsPtr(buf, p))
    ensures how.PtrAdd? && (p.pos < 0 || SIZE_MAX - position < p.pos) ==> r == -1 && q == p
    ensures !(how.PtrAdd? && (p.pos < 0 || SIZE_MAX - position < p.pos)) ==>
      var target := if how.PtrSet? then position else p.pos + position;
      && r == (if target <= |buf.Contents()| then 0 else -1)
      && (r == 0 ==> q.pos == target && IsPtr(buf, q) && (q.chain == null <==> target == |buf.Contents()|))
      && (r == 0 && q.chain != null ==> InsideChain(buf, q))
      && (r == -1 ==> q == NOT_FOUND)
  {
    ghost var g := buf.g;
    BaseEnds(g);
    if how.PtrAdd? && (p.pos < 0 || SIZE_MAX - position < p.pos) {
      return -1, p;
    }
    var chain, rest, target;
    ghost var n;
    if how.PtrSet? {
      target := position;
      chain, rest, n := Walk(buf, buf.first, 0, position, 0);
    } else {
      target := p.pos + position;
      ghost var i: nat :| PtrAt(g, p, i);
      chain, rest, n := Walk(buf, p.chain, p.posInChain, position, i);
    }
    if chain != null {
      BlockIn(g, n);
      q := Ptr(target, chain, rest);
      assert PtrAt(g, q, n) && InsideAt(g, q, n);
      r := 0;
    } else if rest == 0 {
      q := Ptr(target, null, 0);
      assert PtrAt(g, q, n);
      r := 0;
    } else {
      q, r := NOT_FOUND, -1;
    }
  }

  // ----- evbuffer_search_range

  /** what occurs in s at x. */
  ghost predicate MatchAt(s: seq<byte>, what: seq<byte>, x: int) {
    0 <= x && x + |what| <= |s| && s[x..x + |what|] == what
  }

  lemma SliceOfSlice<T>(s: seq<T>, a: nat, b: nat, c: nat, d: nat)
    requires a <= b <= |s| && c <= d <= b - a
    ensures s[a..b][c..d] == s[a + c..a + d]
  {
    var l, r := s[a..b][c..d], s[a + c..a + d];
    forall j | 0 <= j < d - c ensures l[j] == r[j] {
      assert l[j] == s[a..b][c + j] == s[a + c + j];
    }
  }

  /** The first k bytes match at x, and so do the next n, or they do not. */
  lemma MatchStep(s: seq<byte>, what: seq<byte>, x: nat, k: nat, n: nat)
    requires x + |what| <= |s| && k + n <= |what| && s[x..x + k] == what[..k]
    ensures s[x + k..x + k + n] == what[k..k + n] ==> s[x..x + (k + n)] == what[..k + n]
    ensures s[x + k..x + k + n] != what[k..k + n] ==> !MatchAt(s, what, x)
  {
    assert s[x..x + (k + n)] == s[x..x + k] + s[x + k..x + k + n];
    assert what[..k + n] == what[..k] + what[k..k + n];
    if MatchAt(s, what, x) {
      SliceOfSlice(s, x, x + |what|, k, k + n);
    }
  }

  /** n bytes of chain i are n bytes of the buffer. */
  lemma ChunkOf(g: Shape, i: nat, from: nat, n: nat)
    requires i < |g.blocks| && from + n <= |g.blocks[i]|
    ensures Base(g, i) + from + n <= |g.Bytes()|
    ensures g.Bytes()[Base(g, i) + from..Base(g, i) + from + n] == g.blocks[i][from..from + n]
  {
    BlockIn(g, i);
  }

  /** The first k bytes of what are those of s at x. */
  ghost predicate Agrees(s: seq<byte>, what: seq<byte>, x: int, k: nat) {
    0 <= x && k <= |what| && x + k <= |s| && s[x..x + k] == what[..k]
  }

  /** What comparing n bytes of chain i tells. */
  lemma MemcmpStep(g: Shape, what: seq<byte>, x: nat, k: nat, i: nat, position: nat, n: nat)
    requires i < |g.blocks| && position + n <= |g.blocks[i]| && Base(g, i) + position == x + k
    requires Agrees(g.Bytes(), what, x, k) && k + n <= |what| && x + |what| <= |g.Bytes()|
    ensures g.blocks[i][position..position + n] == what[k..k + n] ==> Agrees(g.Bytes(), what, x, k + n)
    ensures g.blocks[i][position..position + n] != what[k..k + n] ==> !MatchAt(g.Bytes(), what, x)
    ensures Base(g, i + 1) == Base(g, i) + |g.blocks[i]|
  {
    BlockIn(g, i);
    ChunkOf(g, i, position, n);
    MatchStep(g.Bytes(), what, x, k, n);
  }

  /** Byte d is the first in which s, from x on, and what differ, and r says which one is less. */
  ghost predicate Differs(s: seq<byte>, what: seq<byte>, x: int, d: nat, r: int) {
    Agrees(s, what, x, d) && d < |what| && x + d < |s| && s[x + d] != what[d] && (r < 0 <==> s[x + d] < what[d])
  }

  /** The first difference in n bytes of chain i. */
  lemma MemcmpDiffers(g: Shape, what: seq<byte>, x: nat, k: nat, i: nat, position: nat, n: nat, d: nat, r: int)
    requires i < |g.blocks| && position + n <= |g.blocks[i]| && Base(g, i) + position == x + k
    requires Agrees(g.Bytes(), what, x, k) && k + n <= |what| && x + |what| <= |g.Bytes()| && d < n
    requires g.blocks[i][position..position + d] == what[k..k + d]
    requires g.blocks[i][position + d] != what[k + d] && (r < 0 <==> g.blocks[i][position + d] < what[k + d])
    ensures Differs(g.Bytes(), what, x, k + d, r)
  {
    MemcmpStep(g, what, x, k, i, position, d);
    BlockIn(g, i);
  }

  lemma AgreesAll(s: seq<byte>, what: seq<byte>, x: int)
    ensures Agrees(s, what, x, |what|) <==> MatchAt(s, what, x)
    ensures 0 <= x <= |s| ==> Agrees(s, what, x, 0)
  {
    assert what[..|what|] == what;
  }

  /** The loop of evbuffer_ptr_memcmp, from byte position of chain i on. */
  method MemcmpChains(start: Chain?, position: nat, what: seq<byte>, ghost g: Shape, ghost i0: nat, ghost x: nat)
    returns (r: int, ghost d: nat)
    requires Sound(g) && (forall j :: Linked(g, j)) && i0 <= |g.spine| &&
             start == if i0 < |g.spine| then g.spine[i0] else null
    requires position <= if i0 < |g.spine| then |g.blocks[i0]| else 0
    requires Base(g, i0) + position == x && x + |what| <= |g.Bytes()|
    ensures r == 0 <==> MatchAt(g.Bytes(), what, x)
    ensures r != 0 ==> Differs(g.Bytes(), what, x, d, r)
  {
    ghost var i := i0;
    BaseEnds(g);
    AgreesAll(g.Bytes(), what, x);
    var chain, at: nat, k: nat := start, position, 0;
    while k < |what| && chain != null
      invariant k <= |what| && i <= |g.spine| && chain == if i < |g.spine| then g.spine[i] else null
      invariant at <= if i < |g.spine| then |g.blocks[i]| else 0
      invariant k < |what| ==> Base(g, i) + at == x + k
      invariant Agrees(g.Bytes(), what, x, k)
      decreases |g.spine| - i
    {
      assert SoundAt(g, i) && Linked(g, i);
      var n := if |what| - k + at > chain.off then chain.off - at else |what| - k;
      MemcmpStep(g, what, x, k, i, at, n);
      r, d := Memcmp(chain, at, what, k, n, g.blocks[i]);
      if r != 0 {
        MemcmpDiffers(g, what, x, k, i, at, n, d, r);
        d := k + d;
        return;
      }
      chain, at, k, i := chain.next, 0, k + n, i + 1;
    }
    r, d := 0, 0;
  }

  /** evbuffer_ptr_memcmp: 0 exactly when what occurs at p; otherwise the first byte that differs, d, gives the
      sign. Where there is no place for what, the result is -1. */
  method PtrMemcmp(buf: Evbuffer, p: Ptr, what: seq<byte>) returns (r: int, ghost d: nat)
    requires buf.Valid() && (p.pos >= 0 ==> IsPtr(buf, p)) && |what| <= SIZE_MAX && |buf.Contents()| <= SSIZE_MAX
    ensures r == 0 <==> MatchAt(buf.Contents(), what, p.pos)
    ensures r != 0 ==> if p.pos < 0 || p.pos + |what| > |buf.Contents()| then r == -1
                       else Differs(buf.Contents(), what, p.pos, d, r)
  {
    if p.pos < 0 || SIZE_MAX - |what| < p.pos || p.pos + |what| > buf.totalLen {
      return -1, 0;
    }
    ghost var i: nat :| PtrAt(buf.g, p, i);
    r, d := MemcmpChains(p.chain, p.posInChain, what, buf.g, i, p.pos);
  }

  datatype Limit = Unset | At(p: Ptr)

  /** The place where what occurs for the first time at lo or after, ending by hi; -1 if it does not. */
  ghost predicate Found(s: seq<byte>, what: seq<byte>, lo: int, hi: int, x: int) {
    && (x == -1 || (lo <= x && x + |what| <= hi && MatchAt(s, what, x)))
    && forall y | lo <= y < (if x == -1 then hi - |what| + 1 else x) :: !MatchAt(s, what, y)
  }

  ghost predicate IsLimit(buf: Evbuffer, l: Limit)
    reads buf
  {
    l.At? ==> IsPtr(buf, l.p)
  }

  /** memchr in the rest of the chain that p points into. */
  method Scan(chain: Chain, from: nat, ch: byte, ghost g: Shape, ghost i: nat) returns (x: int)
    requires Sound(g) && i < |g.spine| && chain == g.spine[i] && from <= |g.blocks[i]|
    ensures x == -1 || (from <= x < |g.blocks[i]| && Base(g, i) + x < |g.Bytes()| && g.Bytes()[Base(g, i) + x] == ch)
    ensures Base(g, i + 1) == Base(g, i) + |g.blocks[i]| <= |g.Bytes()| && chain.off == |g.blocks[i]|
    ensures forall y | Base(g, i) + from <= y < Base(g, i) + (if x == -1 then |g.blocks[i]| else x) ::
              g.Bytes()[y] != ch
  {
    assert SoundAt(g, i);
    BlockIn(g, i);
    x := Memchr(chain, from, chain.off, ch, g.blocks[i]);
  }

  /** Where the first byte of what is not, what does not occur. */
  lemma NoneWithoutFirst(s: seq<byte>, what: seq<byte>, lo: int, hi: int)
    requires what != [] && 0 <= lo && hi <= |s| && forall y | lo <= y < hi :: s[y] != what[0]
    ensures forall y | lo <= y < hi :: !MatchAt(s, what, y)
  {
    forall y | lo <= y < hi ensures !MatchAt(s, what, y) {
      if y + |what| <= |s| { assert s[y..y + |what|][0] == s[y]; }
    }
  }

  /** What lies behind the chain of a limit lies behind the limit. */
  lemma PastLimit(g: Shape, p: Ptr, i: nat, q: Ptr)
    requires exists e :: PtrAt(g, p, e)
    requires i < |g.spine| && p.chain == g.spine[i] && PtrAt(g, q, i + 1)
    requires forall x, y :: Differ(g, x, y)
    ensures p.pos <= q.pos
  {
    Pairwise(g);
    var e: nat :| PtrAt(g, p, e);
    BlockIn(g, i);
  }

  /** One round of the search: finds the next place for what in the chain of p, or passes the chain. */
  method SearchChain(buf: Evbuffer, what: seq<byte>, p: Ptr, ghost i: nat)
    returns (hit: bool, none: bool, q: Ptr, ghost n: nat)
    requires buf.Valid() && PtrAt(buf.g, p, i) && p.chain != null && what != [] && |what| <= SSIZE_MAX &&
             |buf.Contents()| <= SSIZE_MAX
    ensures PtrAt(buf.g, q, n) && p.pos <= q.pos <= |buf.Contents()| && i <= n <= i + 1
    ensures forall y | p.pos <= y < q.pos :: !MatchAt(buf.Contents(), what, y)
    ensures hit ==> MatchAt(buf.Contents(), what, q.pos)
    ensures !hit ==> p.pos < q.pos || i < n
    ensures none ==> n == i + 1 && !hit
  {
    ghost var g, s := buf.g, buf.Contents();
    var chain := p.chain;
    assert Linked(g, i);
    var x := Scan(chain, p.posInChain, what[0], g, i);
    none := x == -1;
    if none {
      NoneWithoutFirst(s, what, p.pos, Base(g, i + 1));
      return false, true, Ptr(p.pos + chain.off - p.posInChain, chain.next, 0), i + 1;
    }
    NoneWithoutFirst(s, what, p.pos, Base(g, i) + x);
    q, n := Ptr(p.pos + x - p.posInChain, chain, x), i;
    assert PtrAt(g, q, i);
    var c;
    ghost var d;
    c, d := PtrMemcmp(buf, q, what);
    hit := c == 0;
    if !hit {
      q := if x + 1 == chain.off then Ptr(q.pos + 1, chain.next, 0) else Ptr(q.pos + 1, chain, x + 1);
      n := if x + 1 == chain.off then i + 1 else i;
    }
  }

  /** The loop of evbuffer_search_range; hi is where what must end, lastChain the chain that hi lies in. */
  method SearchFrom(buf: Evbuffer, what: seq<byte>, start: Ptr, end: Limit) returns (r: Ptr)
    requires buf.Valid() && IsPtr(buf, start) && IsLimit(buf, end) && what != [] && |what| <= SSIZE_MAX &&
             |buf.Contents()| <= SSIZE_MAX
    ensures Found(buf.Contents(), what, start.pos, if end.At? then end.p.pos else |buf.Contents()|, r.pos)
    ensures if r.pos >= 0 then IsPtr(buf, r) else r == NOT_FOUND
  {
    ghost var g, s := buf.g, buf.Contents();
    BaseEnds(g);
    ghost var i: nat :| PtrAt(g, start, i);
    var lastChain := if end.At? then end.p.chain else null;
    r := start;
    while r.chain != null
      invariant PtrAt(g, r, i) && start.pos <= r.pos
      invariant forall y | start.pos <= y < r.pos :: !MatchAt(s, what, y)
      decreases |g.spine| - i, |s| - r.pos
    {
      var hit, none, q;
      ghost var n;
      hit, none, q, n := SearchChain(buf, what, r, i);
      assert buf.Contents() == s;
      if hit {
        if end.At? && q.pos + |what| > end.p.pos {
          return NOT_FOUND;
        }
        return q;
      }
      if none && r.chain == lastChain {
        PastLimit(g, end.p, i, q);
        return NOT_FOUND;
      }
      r, i := q, n;
    }
    r := NOT_FOUND;
  }

  /** evbuffer_search_range */
  method SearchRange(buf: Evbuffer, what: seq<byte>, start: Limit, end: Limit) returns (r: Ptr)
    requires buf.Valid() && IsLimit(buf, start) && IsLimit(buf, end) && |what| <= SSIZE_MAX &&
             |buf.Contents()| <= SSIZE_MAX
    ensures what != [] ==>
              Found(buf.Contents(), what, if start.At? then start.p.pos else 0,
                    if end.At? then end.p.pos else |buf.Contents()|, r.pos)
    ensures if r.pos >= 0 then IsPtr(buf, r) else r == NOT_FOUND
    ensures what == [] ==> r.pos == if start.At? then start.p.pos else 0
  {
    BaseEnds(buf.g);
    r := if start.At? then start.p else Ptr(0, buf.first, 0);
    assert !start.At? ==> PtrAt(buf.g, r, 0);
    ghost var i: nat :| PtrAt(buf.g, r, i);
    PtrIn(buf.g, r, i);
    if |what| > 0 {
      r := SearchFrom(buf, what, r, end);
    }
  }
}
