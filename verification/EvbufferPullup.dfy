/** evbuffer_pullup: makes the first bytes of a buffer contiguous. */
module EvbufferPullup {
  import opened Basics
  import opened Chains
  import opened EvbufferMove

  /** Byte j of s is in a, counted from at. */
  ghost predicate Placed(a: array<byte>, at: nat, s: seq<byte>, j: int)
    reads a
  {
    0 <= j < |s| ==> at + j < a.Length && a[at + j] == s[j]
  }

  ghost predicate Filled(a: array<byte>, at: nat, s: seq<byte>)
    reads a
  {
    forall j :: Placed(a, at, s, j)
  }

  /** The chains from index i on are sound, and none of them is stored in a. */
  ghost predicate SoundFrom(g: Shape, i: nat, a: array<byte>)
    reads g.cells`misalign, g.cells`off, g.cells`immutable, g.mem, g.shared
  {
    forall x | i <= x < |g.spine| :: SoundAt(g, x) && g.spine[x].data != a
  }

  /** memcpy of the first n bytes of chain c to position pos, behind the bytes s. */
  method CopyChainBytes(a: array<byte>, pos: nat, c: Chain, n: nat, ghost b: seq<byte>, ghost at: nat,
                        ghost s: seq<byte>)
    requires c.Holds(b) && n <= |b| && c.data != a
    requires pos == at + |s| && pos + n <= a.Length && Filled(a, at, s)
    modifies a
    ensures Filled(a, at, s + b[..n])
    ensures forall j | 0 <= j < a.Length && !(pos <= j < pos + n) :: a[j] == old(a[j])
  {
    var d := Peek(c, n, b);
    label before:
    Memcpy(a, pos, d);
    forall j ensures Placed(a, at, s + b[..n], j) { assert old@before(Placed(a, at, s, j)); }
  }

  /** One round of the loop: copies chain n of g behind the first n ones, and frees it. */
  method GatherOne(a: array<byte>, pos: nat, c: Chain, ghost at: nat, ghost g: Shape, ghost i: nat, ghost n: nat)
    requires |g.spine| == |g.blocks| && i <= n < |g.spine| && c == g.spine[n] && SoundFrom(g, i, a) && a !in g.shared
    requires pos == at + |Flat(g.blocks[..n])| && pos + c.off <= a.Length && c.refcnt > 0
    requires Filled(a, at, Flat(g.blocks[..n]))
    modifies a, c`refcnt
    ensures SoundFrom(g, i, a) && |Flat(g.blocks[..n + 1])| == |Flat(g.blocks[..n])| + c.off && c.off == |g.blocks[n]|
    ensures Filled(a, at, Flat(g.blocks[..n + 1]))
    ensures c.refcnt == old(c.refcnt) - 1
  {
    assert SoundAt(g, n);
    FlatAround(g.blocks, n);
    WholeList(g.blocks[n]);
    label before:
    CopyChainBytes(a, pos, c, c.off, g.blocks[n], at, Flat(g.blocks[..n]));
    c.refcnt := c.refcnt - 1;
    forall x | i <= x < |g.spine| ensures SoundAt(g, x) && g.spine[x].data != a { assert old@before(SoundAt(g, x)); }
  }

  lemma WholeList<T>(s: seq<T>)
    ensures s[..|s|] == s
  {}

  /** The loop of evbuffer_pullup: copies and frees the chains, from index i on, that go whole. */
  method Gather(a: array<byte>, buffer: nat, size: nat, start: Chain?, lastWithData: Chain?, pred: Chain?,
                ghost at: nat, ghost g: Shape, ghost i: nat)
    returns (chain: Chain?, pos: nat, rest: nat, hitLast: bool, hitPred: bool, ghost n: nat)
    requires |g.spine| == |g.blocks| && i <= |g.spine| && SoundFrom(g, i, a) && a !in g.shared
    requires forall x, y :: Differ(g, x, y)
    requires forall x :: Linked(g, x)
    requires forall x :: Held(g, x)
    requires start == if i < |g.spine| then g.spine[i] else null
    requires buffer == at + |Flat(g.blocks[..i])| && buffer + size <= a.Length && Filled(a, at, Flat(g.blocks[..i]))
    requires 0 < g.k < |g.spine| && lastWithData == g.spine[g.k] && pred == g.spine[g.k - 1]
    modifies a, g.cells`refcnt
    ensures i <= n <= |g.spine| && chain == (if n < |g.spine| then g.spine[n] else null) && SoundFrom(g, i, a)
    ensures pos == at + |Flat(g.blocks[..n])| && pos + rest == buffer + size && (n < |g.spine| ==> rest < |g.blocks[n]|)
    ensures Filled(a, at, Flat(g.blocks[..n]))
    ensures (hitLast <==> i <= g.k < n) && (hitPred <==> i <= g.k - 1 < n)
    ensures forall x | 0 <= x < |g.spine| :: g.spine[x].refcnt == old(g.spine[x].refcnt) - (if i <= x < n then 1 else 0)
  {
    Pairwise(g);
    chain, pos, rest, hitLast, hitPred, n := start, buffer, size, false, false, i;
    while chain != null && rest >= chain.off
      invariant i <= n <= |g.spine| && chain == (if n < |g.spine| then g.spine[n] else null) && SoundFrom(g, i, a)
      invariant pos == at + |Flat(g.blocks[..n])| && pos + rest == buffer + size
      invariant Filled(a, at, Flat(g.blocks[..n]))
      invariant (hitLast <==> i <= g.k < n) && (hitPred <==> i <= g.k - 1 < n)
      invariant forall x | 0 <= x < |g.spine| ::
                  g.spine[x].refcnt == old(g.spine[x].refcnt) - (if i <= x < n then 1 else 0)
      decreases |g.spine| - n
    {
      assert SoundAt(g, n) && Linked(g, n) && old(Held(g, n));
      var next := chain.next;
      GatherOne(a, pos, chain, at, g, i, n);
      rest, pos := rest - chain.off, pos + chain.off;
      if chain == lastWithData { hitLast := true; }
      if chain == pred { hitPred := true; }
      chain, n := next, n + 1;
    }
    if chain != null { assert SoundAt(g, n); }
  }

  /** The buffer once its first chains, up to n, and m bytes of chain n, have been pulled into tmp. */
  ghost function Pulled(g: Shape, tmp: Chain, n: nat, m: nat, cells: set<Chain>, mem: set<array<byte>>): Shape
    requires n <= |g.spine| == |g.blocks| && (if n < |g.spine| then m < |g.blocks[n]| else m == 0)
  {
    Shape([tmp] + g.spine[n..], [Flat(g.blocks[..n]) + Part(g, n, m)] + Rest(g, n, m),
          if n > g.k then 0 else g.k - n + 1, cells, mem, g.shared)
  }

  /** The m bytes of chain n that are pulled in too. */
  ghost function Part(g: Shape, n: nat, m: nat): seq<byte>
    requires n <= |g.spine| == |g.blocks| && (if n < |g.spine| then m < |g.blocks[n]| else m == 0)
  {
    if n < |g.spine| then g.blocks[n][..m] else []
  }

  ghost function Rest(g: Shape, n: nat, m: nat): seq<seq<byte>>
    requires n <= |g.spine| == |g.blocks| && (if n < |g.spine| then m < |g.blocks[n]| else m == 0)
  {
    if n < |g.spine| then [g.blocks[n][m..]] + g.blocks[n + 1..] else []
  }

  lemma RejoinMiddle(a: seq<byte>, b: seq<byte>, c: seq<byte>, m: nat)
    requires m <= |b|
    ensures a + b[..m] + (b[m..] + c) == a + b + c
  {}

  lemma PulledBytes(g: Shape, n: nat, m: nat)
    requires |g.spine| == |g.blocks| && n <= |g.spine| && (if n < |g.spine| then m < |g.blocks[n]| else m == 0)
    ensures Flat([Flat(g.blocks[..n]) + Part(g, n, m)] + Rest(g, n, m)) == g.Bytes()
  {
    var lead := Flat(g.blocks[..n]);
    FlatCons(lead + Part(g, n, m), Rest(g, n, m));
    if n < |g.spine| {
      var b := g.blocks[n];
      FlatAround(g.blocks, n);
      FlatCons(b[m..], g.blocks[n + 1..]);
      RejoinMiddle(lead, b, Flat(g.blocks[n + 1..]), m);
    } else {
      WholeList(g.blocks);
    }
  }

  lemma PulledLast(g: Shape, tmp: Chain, n: nat, m: nat, h: Shape)
    requires |g.spine| == |g.blocks| && LastData(g.blocks, g.k) && 0 < n <= |g.spine| &&
             (if n < |g.spine| then m < |g.blocks[n]| else m == 0)
    requires (n > g.k ==> n == |g.spine|) && h == Pulled(g, tmp, n, m, h.cells, h.mem)
    ensures LastData(h.blocks, h.k)
  {}

  lemma PulledSound(g: Shape, tmp: Chain, n: nat, m: nat, h: Shape)
    requires 0 < n <= |g.spine| == |g.blocks| && (if n < |g.spine| then m < |g.blocks[n]| else m == 0)
    requires LastData(g.blocks, g.k) && (n > g.k ==> n == |g.spine|) && g.mem !! g.shared
    requires forall x, y :: Differ(g, x, y)
    requires h == Pulled(g, tmp, n, m, h.cells, h.mem) && g.cells <= h.cells && g.mem <= h.mem && h.mem !! h.shared
    requires tmp in h.cells && tmp.data in h.mem && !tmp.immutable && tmp.data.Length <= MAX_ALLOC &&
             tmp.Holds(h.blocks[0])
    requires forall x | n <= x < |g.spine| :: g.spine[x] != tmp && g.spine[x].data != tmp.data
    requires forall x | n < x < |g.spine| :: SoundAt(g, x)
    requires n < |g.spine| ==> SoundAt(h, 1)
    ensures Sound(h) && h.Bytes() == g.Bytes()
  {
    PulledBytes(g, n, m);
    PulledLast(g, tmp, n, m, h);
    forall x ensures SoundAt(h, x) { if 1 < x < |h.spine| { assert SoundAt(g, n + x - 1); } }
    forall x, y ensures Differ(h, x, y) { if 0 < x { assert Differ(g, n + x - 1, n + y - 1); } }
  }

  /** What is known of the shape g, the target tmp and the shape h when the loop stopped at chain n. */
  ghost predicate PullState(g: Shape, tmp: Chain, n: nat, m: nat, h: Shape)
    reads tmp`immutable
  {
    && 0 < n <= |g.spine| == |g.blocks| && (if n < |g.spine| then m < |g.blocks[n]| else m == 0)
    && LastData(g.blocks, g.k) && (n > g.k ==> n == |g.spine|) && g.mem !! g.shared
    && (forall x, y :: Differ(g, x, y))
    && h == Pulled(g, tmp, n, m, h.cells, h.mem) && g.cells <= h.cells && g.mem <= h.mem && h.mem !! h.shared
    && tmp in h.cells && tmp.data in h.mem && !tmp.immutable && tmp.data.Length <= MAX_ALLOC
    && (forall x | n <= x < |g.spine| :: g.spine[x] != tmp && g.spine[x].data != tmp.data)
  }

  /** Trims the chain the loop stopped at by the m bytes that were pulled in. */
  method TrimStop(tmp: Chain, chain: Chain?, m: nat, ghost g: Shape, ghost n: nat, ghost h: Shape)
    requires PullState(g, tmp, n, m, h) && tmp.Holds(h.blocks[0])
    requires forall x | n <= x < |g.spine| :: SoundAt(g, x)
    requires chain == if n < |g.spine| then g.spine[n] else null
    modifies h.cells`misalign, h.cells`off
    ensures Sound(h) && h.Bytes() == g.Bytes()
  {
    Pairwise(g);
    label before:
    if chain != null {
      assert SoundAt(g, n);
      Skip(chain, m, g.blocks[n]);
    }
    forall x | n < x < |g.spine| ensures SoundAt(g, x) { assert old@before(SoundAt(g, x)); }
    PulledSound(g, tmp, n, m, h);
  }

  /** Puts tmp in front of the chain the loop stopped at. */
  method LinkPulled(buf: Evbuffer, tmp: Chain, chain: Chain?, ghost g: Shape, ghost n: nat, ghost h: Shape)
    requires n <= |g.spine| && h.spine == [tmp] + g.spine[n..] && g.cells <= h.cells && tmp in h.cells
    requires forall x | n <= x < |g.spine| :: g.spine[x] != tmp
    requires tmp.refcnt > 0 && Sound(h) && buf.last == g.Last()
    requires forall x | n <= x < |g.spine| :: Linked(g, x) && Held(g, x)
    requires chain == if n < |g.spine| then g.spine[n] else null
    modifies buf`first, buf`last, buf`g, tmp`next
    ensures Spine(buf.first, h) && Sound(h) && buf.g == h && buf.last == h.Last()
  {
    label before:
    if chain == null { buf.last := tmp; }
    buf.first := tmp;
    tmp.next := chain;
    buf.g := h;
    forall x ensures Linked(h, x) && Held(h, x) {
      if 0 < x < |h.spine| { assert old@before(Linked(g, n + x - 1)) && old@before(Held(g, n + x - 1)); }
    }
  }

  /** The end of evbuffer_pullup: last_with_datap may have pointed into a chain that is gone. */
  method RepairPred(buf: Evbuffer, hitLast: bool, hitPred: bool, ghost h: Shape)
    requires Spine(buf.first, h) && Sound(h) && |h.spine| > 0
    requires hitLast ==> h.k == 0
    requires hitPred && !hitLast ==> h.k == 1
    requires !hitPred && !hitLast ==> buf.lastWithDatap == h.Pred()
    modifies buf`lastWithDatap
    ensures buf.lastWithDatap == h.Pred()
  {
    assert Linked(h, 0) && SoundAt(h, 1);
    if hitLast {
      buf.lastWithDatap := null;
    } else if hitPred {
      buf.lastWithDatap := if buf.first.next != null && buf.first.next.off > 0 then buf.first else null;
    }
  }

  /** What the loop of evbuffer_pullup tells about the last chain with data. */
  lemma PullFlags(g: Shape, tmp: Chain, i: nat, n: nat, m: nat, size: nat, h: Shape)
    requires |g.spine| == |g.blocks| && LastData(g.blocks, g.k) && i <= n <= |g.spine| && i <= 1 &&
             (i == 1 ==> g.spine[0] == tmp)
    requires g.blocks != [] && |g.blocks[0]| < size <= |g.Bytes()| && size == |Flat(g.blocks[..n])| + m
    requires n < |g.spine| ==> m < |g.blocks[n]|
    ensures 0 < n && 0 < g.k < |g.spine| && (n > g.k ==> n == |g.spine|) && (n == |g.spine| ==> m == 0)
  {
    if g.k == 0 {
      FlatEmpty(g.blocks[1..]);
    }
    if n > g.k {
      Halves(g.blocks, n);
      FlatConcat(g.blocks[..n], g.blocks[n..]);
      FlatEmpty(g.blocks[n..]);
    }
  }

  /** The loop, and the copy of the part of the chain it stopped at. */
  method GatherAll(tmp: Chain, at: nat, len: nat, start: Chain?, lastWithData: Chain?, pred: Chain?, ghost g: Shape,
                   ghost i: nat)
    returns (chain: Chain?, m: nat, hitLast: bool, hitPred: bool, ghost n: nat)
    requires |g.spine| == |g.blocks| && i <= |g.spine| && SoundFrom(g, i, tmp.data) && tmp.data !in g.shared
    requires forall x, y :: Differ(g, x, y)
    requires forall x :: Linked(g, x)
    requires forall x :: Held(g, x)
    requires start == if i < |g.spine| then g.spine[i] else null
    requires at == tmp.misalign + |Flat(g.blocks[..i])| && Filled(tmp.data, tmp.misalign, Flat(g.blocks[..i]))
    requires at + len <= tmp.data.Length && |Flat(g.blocks[..i])| + len <= |g.Bytes()|
    requires 0 < g.k < |g.spine| && lastWithData == g.spine[g.k] && pred == g.spine[g.k - 1]
    modifies tmp.data, g.cells`refcnt
    ensures i <= n <= |g.spine| && chain == (if n < |g.spine| then g.spine[n] else null) && SoundFrom(g, i, tmp.data)
    ensures if n < |g.spine| then m < |g.blocks[n]| else m == 0
    ensures |Flat(g.blocks[..i])| + len == |Flat(g.blocks[..n])| + m
    ensures Filled(tmp.data, tmp.misalign, Flat(g.blocks[..n]) + Part(g, n, m))
    ensures (hitLast <==> i <= g.k < n) && (hitPred <==> i <= g.k - 1 < n)
    ensures forall x | 0 <= x < |g.spine| :: g.spine[x].refcnt == old(g.spine[x].refcnt) - (if i <= x < n then 1 else 0)
  {
    var pos;
    chain, pos, m, hitLast, hitPred, n := Gather(tmp.data, at, len, start, lastWithData, pred, tmp.misalign, g, i);
    if chain != null {
      CopyStop(tmp, chain, pos, m, g, i, n);
    } else {
      WholeList(g.blocks);
      assert Flat(g.blocks[..n]) + [] == Flat(g.blocks[..n]);
    }
  }

  method CopyStop(tmp: Chain, chain: Chain, pos: nat, m: nat, ghost g: Shape, ghost i: nat, ghost n: nat)
    requires i <= n < |g.spine| == |g.blocks| && chain == g.spine[n] && m < |g.blocks[n]|
    requires SoundFrom(g, i, tmp.data) && tmp.data !in g.shared
    requires pos == tmp.misalign + |Flat(g.blocks[..n])| && pos + m <= tmp.data.Length
    requires Filled(tmp.data, tmp.misalign, Flat(g.blocks[..n]))
    modifies tmp.data
    ensures SoundFrom(g, i, tmp.data)
    ensures Filled(tmp.data, tmp.misalign, Flat(g.blocks[..n]) + Part(g, n, m))
  {
    assert SoundAt(g, n);
    label before:
    CopyChainBytes(tmp.data, pos, chain, m, g.blocks[n], tmp.misalign, Flat(g.blocks[..n]));
    forall x | i <= x < |g.spine| ensures SoundAt(g, x) && g.spine[x].data != tmp.data {
      assert old@before(SoundAt(g, x));
    }
  }

  /** What PullInto starts from: everything but the chain tmp, whose off already counts what is to come. */
  ghost predicate Pulling(buf: Evbuffer, g: Shape, tmp: Chain, i: nat, len: nat)
    reads buf, g.cells, g.mem, g.shared, tmp, tmp.data
  {
    && |g.spine| == |g.blocks| && i <= 1 && i <= |g.spine| && LastData(g.blocks, g.k) && g.mem !! g.shared
    && (forall x, y :: Differ(g, x, y)) && (forall x :: Linked(g, x)) && (forall x :: Held(g, x))
    && SoundFrom(g, i, tmp.data) && tmp.data !in g.shared && !tmp.immutable && tmp.data.Length <= MAX_ALLOC
    && (if i == 1 then tmp == g.spine[0] && tmp.data in g.mem else tmp !in g.cells && tmp.refcnt > 0)
    && Filled(tmp.data, tmp.misalign, Flat(g.blocks[..i]))
    && tmp.off == |Flat(g.blocks[..i])| + len && tmp.misalign + tmp.off <= tmp.data.Length
    && buf.first == (if i == 1 then g.First() else tmp) && buf.last == g.Last() && buf.lastWithDatap == g.Pred()
    && buf.totalLen == |g.Bytes()| && g.spine != [] && |g.blocks[0]| < tmp.off <= |g.Bytes()|
  }

  /** Puts tmp in front and repairs last_with_datap. */
  method LinkAndRepair(buf: Evbuffer, tmp: Chain, chain: Chain?, hitLast: bool, hitPred: bool, ghost g: Shape,
                       ghost n: nat, ghost h: Shape)
    requires n <= |g.spine| && h.spine == [tmp] + g.spine[n..] && g.cells <= h.cells && tmp in h.cells
    requires forall x | n <= x < |g.spine| :: g.spine[x] != tmp
    requires tmp.refcnt > 0 && Sound(h) && buf.last == g.Last() && buf.totalLen == |h.Bytes()|
    requires forall x | n <= x < |g.spine| :: Linked(g, x) && Held(g, x)
    requires chain == if n < |g.spine| then g.spine[n] else null
    requires hitLast ==> h.k == 0
    requires hitPred && !hitLast ==> h.k == 1
    requires !hitPred && !hitLast ==> buf.lastWithDatap == h.Pred()
    modifies buf`first, buf`last, buf`lastWithDatap, buf`g, tmp`next
    ensures buf.Valid() && buf.g == h
  {
    LinkPulled(buf, tmp, chain, g, n, h);
    RepairPred(buf, hitLast, hitPred, h);
  }

  /** Links in tmp, which now holds what it should, and repairs the cached pointers. */
  method FinishPull(buf: Evbuffer, tmp: Chain, chain: Chain?, m: nat, hitLast: bool, hitPred: bool, ghost g: Shape,
                    ghost n: nat, ghost h: Shape)
    requires PullState(g, tmp, n, m, h) && tmp.Holds(h.blocks[0]) && tmp.refcnt > 0
    requires forall x | n <= x < |g.spine| :: SoundAt(g, x)
    requires forall x | n <= x < |g.spine| :: Linked(g, x) && Held(g, x)
    requires chain == if n < |g.spine| then g.spine[n] else null
    requires hitLast ==> h.k == 0
    requires hitPred && !hitLast ==> h.k == 1
    requires !hitPred && !hitLast ==> buf.lastWithDatap == h.Pred()
    requires buf.totalLen == |g.Bytes()| && buf.last == g.Last()
    modifies buf`first, buf`last, buf`lastWithDatap, buf`g, h.cells`misalign, h.cells`off, tmp`next
    ensures buf.Valid() && buf.g == h && h.Bytes() == g.Bytes()
  {
    hide Flat, LastData;
    TrimStop(tmp, chain, m, g, n, h);
    LinkAndRepair(buf, tmp, chain, hitLast, hitPred, g, n, h);
  }

  /** What the loop established. */
  lemma PullReady(g: Shape, tmp: Chain, i: nat, n: nat, m: nat, size: nat, h: Shape, hitLast: bool, hitPred: bool)
    requires |g.spine| == |g.blocks| && i <= 1 && LastData(g.blocks, g.k) && g.mem !! g.shared && i <= n <= |g.spine|
    requires forall x, y :: Differ(g, x, y)
    requires forall x | i <= x < |g.spine| :: g.spine[x].data != tmp.data
    requires tmp.data !in g.shared && !tmp.immutable && tmp.data.Length <= MAX_ALLOC
    requires if i == 1 then tmp == g.spine[0] else forall x | 0 <= x < |g.spine| :: g.spine[x] != tmp
    requires g.spine != [] && |g.blocks[0]| < size <= |g.Bytes()| && size == |Flat(g.blocks[..n])| + m
    requires if n < |g.spine| then m < |g.blocks[n]| else m == 0
    requires 0 < g.k < |g.spine| && (hitLast <==> i <= g.k < n) && (hitPred <==> i <= g.k - 1 < n)
    requires h == Pulled(g, tmp, n, m, g.cells + {tmp}, g.mem + {tmp.data})
    ensures PullState(g, tmp, n, m, h)
    ensures hitLast ==> h.k == 0
    ensures hitPred && !hitLast ==> h.k == 1
    ensures !hitPred && !hitLast ==> g.Pred() == h.Pred()
  {
    hide Flat;
    Pairwise(g);
    PullFlags(g, tmp, i, n, m, size, h);
  }

  /** More than the first chain holds is wanted, and there: the last chain with data is another one. */
  lemma BeyondFirst(g: Shape, size: nat)
    requires g.blocks != [] && LastData(g.blocks, g.k) && |g.blocks[0]| < size <= |g.Bytes()|
    ensures 0 < g.k < |g.blocks|
  {
    if g.k == 0 { FlatEmpty(g.blocks[1..]); }
  }

  lemma FilledHolds(c: Chain, b: seq<byte>)
    requires Filled(c.data, c.misalign, b) && c.off == |b| && c.misalign + c.off <= c.data.Length
    ensures c.Holds(b)
  {
    forall j ensures c.At(b, j) { assert Placed(c.data, c.misalign, b, j); }
  }

  /** What the loop leaves: chains from i to n copied and freed, and m bytes of chain n copied. */
  ghost predicate Gathered(g: Shape, tmp: Chain, i: nat, n: nat, m: nat, hitLast: bool, hitPred: bool)
    reads g.cells`misalign, g.cells`off, g.cells`immutable, g.mem, g.shared, tmp, tmp.data
  {
    && |g.spine| == |g.blocks| && i <= n <= |g.spine| && SoundFrom(g, i, tmp.data)
    && (if n < |g.spine| then m < |g.blocks[n]| else m == 0)
    && tmp.off == |Flat(g.blocks[..n])| + m
    && Filled(tmp.data, tmp.misalign, Flat(g.blocks[..n]) + Part(g, n, m))
    && 0 < g.k < |g.spine| && (hitLast <==> i <= g.k < n) && (hitPred <==> i <= g.k - 1 < n)
  }

  method PullLoop(buf: Evbuffer, tmp: Chain, at: nat, len: nat, start: Chain?, ghost g: Shape, ghost i: nat)
    returns (chain: Chain?, m: nat, hitLast: bool, hitPred: bool, ghost n: nat)
    requires Pulling(buf, g, tmp, i, len)
    requires start == if i < |g.spine| then g.spine[i] else null
    requires at == tmp.misalign + |Flat(g.blocks[..i])|
    modifies tmp.data, g.cells`refcnt
    ensures Gathered(g, tmp, i, n, m, hitLast, hitPred)
    ensures chain == if n < |g.spine| then g.spine[n] else null
    ensures forall x | 0 <= x < |g.spine| :: g.spine[x].refcnt == old(g.spine[x].refcnt) - (if i <= x < n then 1 else 0)
  {
    assert Linked(g, g.k - 1);
    var lastWithData := if buf.lastWithDatap == null then buf.first else buf.lastWithDatap.next;
    BeyondFirst(g, tmp.off);
    chain, m, hitLast, hitPred, n := GatherAll(tmp, at, len, start, lastWithData, buf.lastWithDatap, g, i);
  }

  method PullEnd(buf: Evbuffer, tmp: Chain, chain: Chain?, m: nat, hitLast: bool, hitPred: bool, ghost g: Shape,
                 ghost i: nat, ghost n: nat)
    requires Gathered(g, tmp, i, n, m, hitLast, hitPred)
    requires i <= 1 && LastData(g.blocks, g.k) && g.mem !! g.shared
    requires forall x, y :: Differ(g, x, y)
    requires tmp.data !in g.shared && !tmp.immutable && tmp.data.Length <= MAX_ALLOC &&
             tmp.misalign + tmp.off <= tmp.data.Length && tmp.refcnt > 0
    requires if i == 1 then g.spine != [] && tmp == g.spine[0] else forall x | 0 <= x < |g.spine| :: g.spine[x] != tmp
    requires g.spine != [] && |g.blocks[0]| < tmp.off <= |g.Bytes()|
    requires forall x | n <= x < |g.spine| :: Linked(g, x) && Held(g, x)
    requires chain == if n < |g.spine| then g.spine[n] else null
    requires buf.totalLen == |g.Bytes()| && buf.last == g.Last() && buf.lastWithDatap == g.Pred()
    modifies buf`first, buf`last, buf`lastWithDatap, buf`g, g.cells`misalign, g.cells`off, tmp`next, tmp`misalign,
             tmp`off
    ensures buf.Valid() && buf.g.Bytes() == g.Bytes() && buf.first == tmp
    ensures buf.g.cells == g.cells + {tmp} && buf.g.mem == g.mem + {tmp.data} && buf.g.shared == g.shared
    ensures n <= |g.spine| && buf.g.spine == [tmp] + g.spine[n..]
    ensures |buf.g.blocks| > 0 && |buf.g.blocks[0]| == old(tmp.off)
  {
    ghost var h := Pulled(g, tmp, n, m, g.cells + {tmp}, g.mem + {tmp.data});
    PullReady(g, tmp, i, n, m, tmp.off, h, hitLast, hitPred);
    FilledHolds(tmp, h.blocks[0]);
    FinishPull(buf, tmp, chain, m, hitLast, hitPred, g, n, h);
  }

  /** evbuffer_pullup, once there is a chain tmp with room for all of it. */
  method PullInto(buf: Evbuffer, tmp: Chain, at: nat, len: nat, start: Chain?, ghost g: Shape, ghost i: nat)
    returns (ghost n: nat)
    requires Pulling(buf, g, tmp, i, len)
    requires start == if i < |g.spine| then g.spine[i] else null
    requires at == tmp.misalign + |Flat(g.blocks[..i])|
    modifies buf`first, buf`last, buf`lastWithDatap, buf`g, g.cells`misalign, g.cells`off, g.cells`refcnt, tmp`next,
             tmp`misalign, tmp`off, tmp.data
    ensures buf.Valid() && buf.Contents() == g.Bytes() && buf.first == tmp
    ensures buf.g.cells == g.cells + {tmp} && buf.g.mem == g.mem + {tmp.data} && buf.g.shared == g.shared
    ensures i <= n <= |g.spine| && buf.g.spine == [tmp] + g.spine[n..]
    ensures |buf.g.blocks| > 0 && |buf.g.blocks[0]| == old(tmp.off)
    ensures forall x | 0 <= x < |g.spine| :: g.spine[x].refcnt == old(g.spine[x].refcnt) - (if i <= x < n then 1 else 0)
  {
    var chain, m, hitLast, hitPred;
    forall x | 0 <= x < |g.spine| ensures g.spine[x] in g.cells { assert Linked(g, x); }
    label before:
    chain, m, hitLast, hitPred, n := PullLoop(buf, tmp, at, len, start, g, i);
    forall x | n <= x < |g.spine| ensures Linked(g, x) && Held(g, x) {
      assert old@before(Linked(g, x)) && old@before(Held(g, x));
    }
    assert i == 1 ==> old@before(Held(g, 0));
    PullEnd(buf, tmp, chain, m, hitLast, hitPred, g, i, n);
  }

  lemma FlatFirst(bs: seq<seq<byte>>)
    requires bs != []
    ensures Flat(bs[..1]) == bs[0] && Flat(bs[..0]) == [] && |bs[0]| <= |Flat(bs)|
  {
    assert bs[..1][0] == bs[0] && bs[..1][1..] == [];
  }

  /** tmp = chain: the first chain has room for all of it. */
  method PullIntoFirst(buf: Evbuffer, size: nat) returns (ghost n: nat)
    requires buf.Valid() && buf.g.spine != [] && buf.first.off < size <= |buf.Contents()|
    requires !buf.first.immutable && buf.first.data.Length - buf.first.misalign >= size
    modifies buf`first, buf`last, buf`lastWithDatap, buf`g, buf.g.cells, buf.g.mem
    ensures buf.Valid() && buf.Contents() == old(buf.Contents()) && buf.first == old(buf.first)
    ensures buf.g.cells == old(buf.g.cells) && buf.g.mem == old(buf.g.mem) && buf.g.shared == old(buf.g.shared)
    ensures 1 <= n <= |old(buf.g.spine)| && buf.g.spine == [buf.first] + old(buf.g.spine)[n..]
    ensures |buf.g.blocks| > 0 && |buf.g.blocks[0]| == size
    ensures forall x | 0 <= x < |old(buf.g.spine)| ::
              old(buf.g.spine)[x].refcnt == old(buf.g.spine[x].refcnt) - (if 1 <= x < n then 1 else 0)
  {
    ghost var g := buf.g;
    var tmp := buf.first;
    assert SoundAt(g, 0) && Linked(g, 0);
    StorageApart(g, 0);
    FlatFirst(g.blocks);
    label before:
    var oldOff := tmp.off;
    tmp.off := size;
    forall x | 1 <= x < |g.spine| ensures SoundAt(g, x) && g.spine[x].data != tmp.data {
      assert old@before(SoundAt(g, x));
    }
    forall j ensures Placed(tmp.data, tmp.misalign, g.blocks[0], j) { assert old@before(tmp.At(g.blocks[0], j)); }
    n := PullInto(buf, tmp, tmp.misalign + oldOff, size - oldOff, tmp.next, g, 1);
    assert g.cells + {tmp} == g.cells && g.mem + {tmp.data} == g.mem;
  }

  /** A new chain takes all of it. */
  method PullIntoNew(buf: Evbuffer, size: nat) returns (tmp: Chain?, ghost n: nat)
    requires buf.Valid() && buf.g.spine != [] && buf.first.off < size <= |buf.Contents()|
    modifies buf`first, buf`last, buf`lastWithDatap, buf`g, buf.g.cells`misalign, buf.g.cells`off, buf.g.cells`refcnt
    ensures tmp == null <==> size > MAX_ALLOC
    ensures tmp == null ==> buf.Valid() && buf.g == old(buf.g)
    ensures tmp != null ==>
              buf.Valid() && buf.Contents() == old(buf.Contents()) && buf.first == tmp && fresh(tmp) && fresh(tmp.data)
    ensures tmp != null ==>
              buf.g.cells == old(buf.g.cells) + {tmp} && buf.g.mem == old(buf.g.mem) + {tmp.data} &&
              buf.g.shared == old(buf.g.shared)
    ensures tmp != null ==> n <= |old(buf.g.spine)| && buf.g.spine == [tmp] + old(buf.g.spine)[n..]
    ensures tmp != null ==> |buf.g.blocks| > 0 && |buf.g.blocks[0]| == size
    ensures tmp == null ==> n == 0
    ensures forall x | 0 <= x < |old(buf.g.spine)| ::
              old(buf.g.spine)[x].refcnt == old(buf.g.spine[x].refcnt) - (if x < n then 1 else 0)
  {
    ghost var g := buf.g;
    tmp := ChainNew(size);
    n := 0;
    if tmp == null {
      return;
    }
    assert SoundAt(g, 0);
    FlatFirst(g.blocks);
    tmp.off := size;
    var chain := buf.first;
    buf.first := tmp;
    forall x | 0 <= x < |g.spine| ensures SoundAt(g, x) && g.spine[x].data != tmp.data { assert old(SoundAt(g, x)); }
    n := PullInto(buf, tmp, 0, size, chain, g, 0);
  }

  /** The first n bytes of the buffer lie in one piece at the start of the data of its first chain. */
  ghost predicate Contiguous(buf: Evbuffer, c: Chain, n: nat)
    reads buf, c`misalign, c`off, c.data
  {
    && c == buf.first && n <= c.off && n <= |buf.Contents()|
    && forall j :: c.At(buf.Contents()[..n], j)
  }

  lemma FirstHolds(buf: Evbuffer, n: nat)
    requires buf.Valid() && buf.g.spine != [] && n <= |buf.g.blocks[0]|
    ensures buf.first != null && Contiguous(buf, buf.first, n)
  {
    var g := buf.g;
    assert SoundAt(g, 0);
    FlatHead(g.blocks, n);
    forall j ensures buf.first.At(buf.Contents()[..n], j) { assert buf.first.At(g.blocks[0], j); }
  }

  /** evbuffer_pullup writes behind the data of a first chain that may not be written: it has the space. Its
      storage can be that of other chains, which then see what is written. */
  ghost predicate Intrudes(buf: Evbuffer, size: int)
    reads buf, buf.g.cells, buf.g.mem, buf.g.shared
  {
    && buf.Valid() && 0 < size <= |buf.Contents()| && buf.first != null
    && assert SoundAt(buf.g, 0);
       buf.first.immutable && buf.first.off < size <= buf.first.data.Length - buf.first.misalign
  }

  /** Two chains show the same two bytes of a storage. Once x has been pulled up behind the one, and then y
      behind the other, the first one has y. */
  method TwoPullups(storage: array<byte>, x: byte, y: byte) returns (one: Chain, two: Chain)
    requires storage.Length == 3
    modifies storage
    ensures one.Holds(old(storage[..2]) + [y]) && two.Holds(old(storage[..2]) + [y])
  {
    ghost var b := storage[..2];
    one := new Chain.Over(storage, 0, 2, true);
    two := new Chain.Over(storage, 0, 2, true);
    forall j ensures one.At(b, j) && two.At(b, j) {}
    Extend(one, [x], b);
    forall j ensures two.At(b, j) { assert one.At(b + [x], j); }
    Extend(two, [y], b);
    forall j ensures one.At(b + [y], j) { assert two.At(b + [y], j); }
  }

  /** evbuffer_pullup. Chains first to stop-1 of the old list have been freed, once each. When it would write
      to a chain that may not be written, intrudes says so, and the model ends there. */
  method Pullup(buf: Evbuffer, len: int) returns (c: Chain?, intrudes: bool, ghost start: nat, ghost stop: nat)
    requires buf.Valid()
    modifies buf`first, buf`last, buf`lastWithDatap, buf`g, buf.g.cells, buf.g.mem
    ensures buf.Valid() && buf.Contents() == old(buf.Contents())
    ensures intrudes <==> old(Intrudes(buf, if len < 0 then |buf.Contents()| else len))
    ensures var size := if len < 0 then |old(buf.Contents())| else len;
      && (size == 0 || size > |old(buf.Contents())| ==> c == null)
      && (0 < size <= |old(buf.Contents())| && size <= MAX_ALLOC && !intrudes ==> c != null)
      && (c == null ==> buf.g == old(buf.g))
      && (c != null ==> Contiguous(buf, c, size))
    ensures start <= stop <= |old(buf.g.spine)| && start <= 1
    ensures c != null ==> buf.g.spine == [c] + old(buf.g.spine)[stop..] && (start == 1 ==> c == old(buf.g.spine)[0])
    ensures c == null ==> start == stop
    ensures forall x | 0 <= x < |old(buf.g.spine)| ::
      old(buf.g.spine)[x].refcnt == old(buf.g.spine[x].refcnt) - (if start <= x < stop then 1 else 0)
    ensures fresh(buf.g.cells - old(buf.g.cells)) && fresh(buf.g.mem - old(buf.g.mem)) &&
            buf.g.shared == old(buf.g.shared)
  {
    start, stop := 0, 0;
    c, intrudes := null, false;
    var size := len;
    if size < 0 { size := buf.totalLen; }
    if size == 0 || size > buf.totalLen {
      return;
    }
    assert buf.first != null ==> SoundAt(buf.g, 0);
    if buf.first.off >= size {
      start, stop, c := 1, 1, buf.first;
    } else if buf.first.data.Length - buf.first.misalign >= size {
      if buf.first.immutable {
        return null, true, 0, 0;
      }
      start, c := 1, buf.first;
      stop := PullIntoFirst(buf, size);
    } else {
      c, stop := PullIntoNew(buf, size);
      if c == null {
        return;
      }
    }
    FirstHolds(buf, size);
  }
}
