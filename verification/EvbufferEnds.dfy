/** evbuffer_add, evbuffer_prepend and evbuffer_drain. */
module EvbufferEnds {
  import opened Basics
  import opened Chains

  // ----- evbuffer_add

  const MAX_TO_REALIGN_IN_EXPAND := 2048
  const CHAIN_MAX_AUTO_SIZE := 4096

  /** evbuffer_chain_should_realign */
  predicate ShouldRealign(c: Chain, n: nat)
    reads c`off
  {
    c.data.Length - c.off >= n && c.off < c.data.Length / 2 && c.off <= MAX_TO_REALIGN_IN_EXPAND
  }

  /** evbuffer_chain_align on chain i of the buffer: nothing it holds changes. */
  method Realign(buf: Evbuffer, c: Chain, ghost i: nat)
    requires buf.Core() && i < |buf.g.spine| && c == buf.g.spine[i] && !c.immutable
    modifies c`misalign, c.data
    ensures buf.Core() && c.misalign == 0
  {
    ghost var g := buf.g;
    StorageApart(g, i);
    assert SoundAt(g, i);
    label before:
    ChainAlign(c, g.blocks[i]);
    forall j ensures SoundAt(g, j) { assert old@before(SoundAt(g, j)); }
  }

  /** A new chain of at least the given size that holds d. */
  method ChainNewWith(size: nat, d: seq<byte>) returns (c: Chain?)
    requires |d| <= size
    ensures c == null <==> size > MAX_ALLOC
    ensures c != null ==>
              fresh(c) && fresh(c.data) && size <= c.data.Length <= MAX_ALLOC && c.misalign == 0 && c.Holds(d)
    ensures c != null ==> c.next == null && !c.immutable && c.refcnt == 1
  {
    c := ChainNew(size);
    if c != null {
      Extend(c, d, []);
      assert [] + d == d;
    }
  }

  /** Fills the last chain with data, then inserts tmp, which holds the rest. */
  method FillAndInsert(buf: Evbuffer, c: Chain, head: seq<byte>, tmp: Chain, ghost rest: seq<byte>)
    requires buf.Valid() && buf.g.k < |buf.g.spine| && c == buf.g.spine[buf.g.k]
    requires head != [] ==> !c.immutable && c.misalign + c.off + |head| <= c.data.Length
    requires tmp !in buf.g.cells && tmp.data !in buf.g.mem + buf.g.shared && tmp.data.Length <= MAX_ALLOC
    requires tmp.Holds(rest) && tmp.next == null && !tmp.immutable && tmp.refcnt > 0
    modifies buf`first, buf`last, buf`lastWithDatap, buf`totalLen, buf`g, buf.g.cells, buf.g.mem
    ensures buf.Valid()
    ensures buf.Contents() == old(buf.Contents()) + head + rest
    ensures buf.g.cells == old(buf.g.cells) + {tmp} && buf.g.mem == old(buf.g.mem) + {tmp.data} &&
            buf.g.shared == old(buf.g.shared)
  {
    assert SoundAt(buf.g, buf.g.k);
    if |head| > 0 {
      AddInPlace(buf, c, head);
    }
    ghost var _ := ChainInsert(buf, tmp, rest, {tmp.data}, {});
  }

  /** How much evbuffer_add asks for when n bytes do not fit in a chain of the given length. */
  function AutoSize(length: nat, n: nat): (size: nat)
    ensures size >= n && (size > MAX_ALLOC ==> n > MAX_ALLOC || length > MAX_ALLOC)
  {
    var size := if length <= CHAIN_MAX_AUTO_SIZE / 2 then length * 2 else length;
    if n > size then n else size
  }

  /** The part of evbuffer_add that fills the last chain and puts the rest in a new one. */
  method AddSpill(buf: Evbuffer, c: Chain, d: seq<byte>, remain: nat) returns (r: int)
    requires buf.Valid() && buf.g.k < |buf.g.spine| && c == buf.g.spine[buf.g.k]
    requires remain <= |d| && c.data.Length <= MAX_ALLOC
    requires remain > 0 ==> !c.immutable && c.misalign + c.off + remain <= c.data.Length
    modifies buf`first, buf`last, buf`lastWithDatap, buf`totalLen, buf`g, buf.g.cells, buf.g.mem
    ensures buf.Valid()
    ensures r == if |d| > MAX_ALLOC then -1 else 0
    ensures buf.Contents() == old(buf.Contents()) + if r == 0 then d else []
    ensures fresh(buf.g.cells - old(buf.g.cells)) && fresh(buf.g.mem - old(buf.g.mem)) &&
            buf.g.shared == old(buf.g.shared)
  {
    ghost var s := buf.Contents();
    var tmp := ChainNewWith(AutoSize(c.data.Length, |d|), d[remain..]);
    if tmp == null {
      return -1;
    }
    FillAndInsert(buf, c, d[..remain], tmp, d[remain..]);
    Rejoin(s, d, remain);
    r := 0;
  }

  lemma Rejoin(s: seq<byte>, d: seq<byte>, n: nat)
    requires n <= |d|
    ensures s + d[..n] + d[n..] == s + d
  {}

  /** Gives a buffer without chains an empty first chain, if there is memory for it. */
  method InsertEmpty(buf: Evbuffer, size: nat, memory: bool) returns (c: Chain?)
    requires buf.Valid() && buf.g.spine == []
    modifies buf`first, buf`last, buf`lastWithDatap, buf`totalLen, buf`g, buf.g.cells`next, buf.g.cells`refcnt
    ensures buf.Valid() && buf.Contents() == old(buf.Contents())
    ensures c == null <==> !memory || size > MAX_ALLOC
    ensures c == null ==> buf.g == old(buf.g)
    ensures c != null ==> buf.g.spine == [c] && buf.g.blocks == [[]] && buf.g.k == 0 && fresh(c) && fresh(c.data)
    ensures c != null ==> !c.immutable && !c.multicast && c.misalign == c.off == 0 && c.data.Length >= size
    ensures c != null && size + CHAIN_SIZE <= MIN_BUFFER_SIZE ==> c.data.Length + CHAIN_SIZE == MIN_BUFFER_SIZE
    ensures c != null ==>
              buf.g.cells == old(buf.g.cells) + {c} && buf.g.mem == old(buf.g.mem) + {c.data} &&
              buf.g.shared == old(buf.g.shared)
  {
    if !memory {
      return null;
    }
    c := ChainNew(size);
    if c != null {
      ghost var _ := ChainInsert(buf, c, [], {c.data}, {});
    }
  }

  /** The bytes d are alone in the buffer: at the start of one chain, as small as it can be. */
  ghost predicate Alone(g: Shape, d: seq<byte>)
    reads g.cells`misalign, g.cells`immutable
  {
    && |g.spine| == 1 && g.blocks == [d] && g.k == 0 && g.spine[0] in g.cells
    && !g.spine[0].immutable && !g.spine[0].multicast && g.spine[0].misalign == 0
    && (|d| + CHAIN_SIZE <= MIN_BUFFER_SIZE ==> g.spine[0].data.Length + CHAIN_SIZE == MIN_BUFFER_SIZE)
  }

  lemma NoChains(buf: Evbuffer)
    requires buf.Valid() && buf.last == null
    ensures buf.g.spine == [] && buf.g.k == 0
  {
  }

  /** evbuffer_add */
  method Add(buf: Evbuffer, d: seq<byte>) returns (r: int)
    requires buf.Valid()
    modifies buf`first, buf`last, buf`lastWithDatap, buf`totalLen, buf`g, buf.g.cells, buf.g.mem
    ensures buf.Valid()
    ensures r == if buf.freezeEnd || |d| > SIZE_MAX - |old(buf.Contents())| || |d| > MAX_ALLOC then -1 else 0
    ensures buf.Contents() == old(buf.Contents()) + if r == 0 then d else []
    ensures old(buf.g.spine) == [] && r == 0 ==> Alone(buf.g, d)
    ensures fresh(buf.g.cells - old(buf.g.cells)) && fresh(buf.g.mem - old(buf.g.mem)) &&
            buf.g.shared == old(buf.g.shared)
  {
    if buf.freezeEnd || |d| > SIZE_MAX - buf.totalLen {
      return -1;
    }
    var chain := buf.LastWithData();
    if chain == null { chain := buf.last; }
    if chain == null {
      NoChains(buf);
      chain := InsertEmpty(buf, |d|, true);
      if chain == null {
        return -1;
      }
    }
    assert [] + d == d;
    r := AddAt(buf, chain, d);
  }

  /** evbuffer_add, once the last chain with data is known. */
  method AddAt(buf: Evbuffer, chain: Chain, d: seq<byte>) returns (r: int)
    requires buf.Valid() && buf.g.k < |buf.g.spine| && chain == buf.g.spine[buf.g.k]
    modifies buf`first, buf`last, buf`lastWithDatap, buf`totalLen, buf`g, buf.g.cells, buf.g.mem
    ensures buf.Valid()
    ensures r == if |d| > MAX_ALLOC then -1 else 0
    ensures buf.Contents() == old(buf.Contents()) + if r == 0 then d else []
    ensures old(!chain.immutable && chain.misalign + chain.off + |d| <= chain.data.Length) ==>
              && r == 0 && |old(buf.g.blocks)| == |old(buf.g.spine)|
              && buf.g == old(buf.g).Append(old(buf.g.k), d)
              && chain.misalign == old(chain.misalign) && !chain.immutable
    ensures fresh(buf.g.cells - old(buf.g.cells)) && fresh(buf.g.mem - old(buf.g.mem)) &&
            buf.g.shared == old(buf.g.shared)
  {
    assert SoundAt(buf.g, buf.g.k);
    var remain := 0;
    if !chain.immutable {
      remain := chain.data.Length - chain.misalign - chain.off;
      if remain >= |d| {
        AddInPlace(buf, chain, d);
        return 0;
      } else if ShouldRealign(chain, |d|) {
        Realign(buf, chain, buf.g.k);
        AddInPlace(buf, chain, d);
        return 0;
      }
    }
    r := AddSpill(buf, chain, d, remain);
  }

  // ----- evbuffer_prepend

  /** ExtendFront, on the first chain of the buffer. */
  method WriteFront(buf: Evbuffer, c: Chain, d: seq<byte>, ghost g: Shape)
    requires Sound(g) && |g.spine| > 0 && c == g.spine[0] && !c.immutable && |d| <= c.misalign
    modifies buf`totalLen, buf`g, c`misalign, c`off, c.data
    ensures buf.g == g.(blocks := g.blocks[0 := d + g.blocks[0]]) && Sound(buf.g) && buf.g.Bytes() == d + g.Bytes()
    ensures buf.totalLen == old(buf.totalLen) + |d| && c.misalign == old(c.misalign) - |d|
  {
    StorageApart(g, 0);
    assert SoundAt(g, 0);
    ghost var h := g.(blocks := g.blocks[0 := d + g.blocks[0]]);
    assert h.blocks[1..] == g.blocks[1..];
    label before:
    ExtendFront(c, d, g.blocks[0]);
    buf.totalLen := buf.totalLen + |d|;
    buf.g := h;
    forall j ensures SoundAt(h, j) { assert old@before(SoundAt(g, j)); }
    forall x, y ensures Differ(h, x, y) { assert Differ(g, x, y); }
  }

  /** The slack of the first chain; all of an empty one. */
  ghost function Front(g: Shape): nat
    reads g.cells`immutable, g.cells`misalign, g.cells`off
  {
    if g.spine == [] || g.spine[0] !in g.cells || g.spine[0].immutable then 0
    else if g.spine[0].off == 0 then g.spine[0].data.Length
    else g.spine[0].misalign
  }

  /** How many of len bytes go in when there are front bytes of slack and, or not, memory for a chain. */
  function GoIn(len: nat, front: nat, memory: bool): nat {
    if len > front && (!memory || len - front > MAX_ALLOC) then front else len
  }

  /** What fits into the slack of the first chain: the last n bytes of d. */
  method PrependInPlace(buf: Evbuffer, c: Chain, d: seq<byte>) returns (n: nat)
    requires buf.Valid() && |buf.g.spine| > 0 && c == buf.g.spine[0]
    modifies buf`totalLen, buf`g, buf.g.cells, buf.g.mem
    ensures buf.Valid() && n == (if |d| <= old(Front(buf.g)) then |d| else old(Front(buf.g)))
    ensures buf.Contents() == d[|d| - n..] + old(buf.Contents())
    ensures buf.g == old(buf.g).(blocks := buf.g.blocks) && (!c.immutable ==> c.misalign == old(Front(buf.g)) - n)
    ensures |old(buf.g.blocks)| > 0 && c.immutable == old(c.immutable)
    ensures !c.immutable ==> buf.g.blocks == old(buf.g.blocks)[0 := d[|d| - n..] + old(buf.g.blocks)[0]]
  {
    ghost var g := buf.g;
    assert SoundAt(g, 0);
    n := 0;
    if !c.immutable {
      if c.off == 0 {
        Recentre(c, g);
      }
      n := if c.misalign >= |d| then |d| else c.misalign;
      WriteFront(buf, c, d[|d| - n..], g);
      SameSpine(buf.first, g, buf.g);
    }
  }

  /** An empty chain is treated as empty at the beginning. */
  method Recentre(c: Chain, ghost g: Shape)
    requires Sound(g) && |g.spine| > 0 && c == g.spine[0] && c.off == 0
    modifies c`misalign
    ensures Sound(g) && c.misalign == c.data.Length
  {
    StorageApart'(g);
    assert SoundAt(g, 0);
    label before:
    c.misalign := c.data.Length;
    forall j ensures SoundAt(g, j) { assert old@before(SoundAt(g, j)); }
  }
  lemma StorageApart'(g: Shape)
    requires Sound(g) && |g.spine| > 0
    ensures forall j | 0 < j < |g.spine| :: g.spine[j] != g.spine[0]
  { Pairwise(g); }

  /** buf->first = tmp; tmp->next = chain */
  method LinkFront(buf: Evbuffer, tmp: Chain, c: Chain, ghost g: Shape, ghost h: Shape)
    requires Spine(buf.first, g) && g.spine != [] && c == g.spine[0] && tmp !in g.cells && tmp.refcnt > 0
    requires h.spine == [tmp] + g.spine && h.cells == g.cells + {tmp} && Sound(h)
    modifies buf`first, buf`lastWithDatap, buf`totalLen, buf`g, tmp`next
    ensures Spine(buf.first, h) && Sound(h) && buf.g == h
    ensures buf.lastWithDatap == if old(buf.lastWithDatap) == null && c.off > 0 then tmp else old(buf.lastWithDatap)
    ensures buf.totalLen == old(buf.totalLen) + tmp.off
  {
    label before:
    buf.first := tmp;
    if buf.lastWithDatap == null && c.off > 0 {
      buf.lastWithDatap := tmp;
    }
    tmp.next := c;
    buf.totalLen := buf.totalLen + tmp.off;
    buf.g := h;
    forall i ensures Linked(h, i) { assert old@before(Linked(g, i - 1)); }
    forall i ensures Held(h, i) { assert old@before(Held(g, i - 1)); }
  }

  /** The shape with the chain c, holding b, in front. */
  ghost function PushFront(g: Shape, c: Chain, b: seq<byte>): Shape {
    Shape([c] + g.spine, [b] + g.blocks, if g.blocks == [] || (g.k == 0 && g.blocks[0] == []) then 0 else g.k + 1,
          g.cells + {c}, g.mem + {c.data}, g.shared)
  }

  lemma SoundPushFront(g: Shape, c: Chain, b: seq<byte>)
    requires Sound(g) && Joins(c, b, {c.data}, {}, g) && g.spine != []
    ensures Sound(PushFront(g, c, b)) && PushFront(g, c, b).Bytes() == b + g.Bytes()
    ensures PushFront(g, c, b).Pred() == if g.k == 0 && g.blocks[0] != [] then c else g.Pred()
    ensures PushFront(g, c, b).Last() == g.Last()
  {
    var h := PushFront(g, c, b);
    assert h.blocks[1..] == g.blocks;
    forall i ensures SoundAt(h, i) { assert SoundAt(g, i - 1); }
    forall i, j ensures Differ(h, i, j) { assert Differ(g, i - 1, j - 1) && SoundAt(g, j - 1); }
  }

  /** The part of evbuffer_prepend that adds a chain for what did not fit. */
  method PrependChain(buf: Evbuffer, c: Chain, d: seq<byte>) returns (r: int)
    requires buf.Valid() && |buf.g.spine| > 0 && c == buf.g.spine[0]
    modifies buf`first, buf`lastWithDatap, buf`totalLen, buf`g
    ensures buf.Valid()
    ensures r == if |d| > MAX_ALLOC then -1 else 0
    ensures buf.Contents() == (if r == 0 then d else []) + old(buf.Contents())
    ensures fresh(buf.g.cells - old(buf.g.cells)) && fresh(buf.g.mem - old(buf.g.mem)) &&
            buf.g.shared == old(buf.g.shared)
  {
    ghost var g := buf.g;
    var tmp := ChainNew(|d|);
    if tmp == null {
      return -1;
    }
    tmp.misalign := tmp.data.Length;
    ExtendFront(tmp, d, []);
    assert d + [] == d && SoundAt(g, 0);
    SoundPushFront(g, tmp, d);
    LinkFront(buf, tmp, c, g, PushFront(g, tmp, d));
    r := 0;
  }

  /** d is alone in the buffer: at the end of one chain, as small as it can be. */
  ghost predicate AloneAtEnd(g: Shape, d: seq<byte>)
    reads g.cells`misalign, g.cells`immutable
  {
    && |g.spine| == 1 && g.blocks == [d] && g.k == 0 && g.spine[0] in g.cells && !g.spine[0].immutable
    && (|d| + CHAIN_SIZE <= MIN_BUFFER_SIZE ==>
          g.spine[0].data.Length + CHAIN_SIZE == MIN_BUFFER_SIZE && g.spine[0].misalign + |d| == g.spine[0].data.Length)
  }

  /** evbuffer_prepend; memory says whether the allocation of a chain succeeds, if there is one. If it fails the
      last n bytes of d stay, which are those that went into the slack of the first chain. */
  method Prepend(buf: Evbuffer, d: seq<byte>, memory: bool) returns (r: int, ghost n: nat)
    requires buf.Valid()
    modifies buf`first, buf`last, buf`lastWithDatap, buf`totalLen, buf`g, buf.g.cells, buf.g.mem
    ensures buf.Valid() && n <= |d|
    ensures buf.Contents() == d[|d| - n..] + old(buf.Contents())
    ensures r == if n == |d| then 0 else -1
    ensures n == if buf.freezeStart || |d| > SIZE_MAX - |old(buf.Contents())| then 0
                 else GoIn(|d|, old(Front(buf.g)), memory)
    ensures r == -1 && n > 0 <==>
              && !buf.freezeStart && |d| <= SIZE_MAX - |old(buf.Contents())|
              && 0 < old(Front(buf.g)) < |d| && (!memory || |d| - old(Front(buf.g)) > MAX_ALLOC)
    ensures old(buf.g.spine) == [] && d != [] && r == 0 ==> AloneAtEnd(buf.g, d)
    ensures fresh(buf.g.cells - old(buf.g.cells)) && fresh(buf.g.mem - old(buf.g.mem)) &&
            buf.g.shared == old(buf.g.shared)
  {
    if |d| == 0 {
      return 0, 0;
    }
    if buf.freezeStart || |d| > SIZE_MAX - buf.totalLen {
      return -1, 0;
    }
    var chain := buf.first;
    if chain == null {
      r := PrependFirst(buf, d, memory);
      n := if r == 0 then |d| else 0;
      return;
    }
    r, n := PrependAt(buf, chain, d, memory);
  }

  /** evbuffer_prepend, when there is no chain. */
  method PrependFirst(buf: Evbuffer, d: seq<byte>, memory: bool) returns (r: int)
    requires buf.Valid() && buf.g.spine == [] && d != []
    modifies buf`first, buf`last, buf`lastWithDatap, buf`totalLen, buf`g, buf.g.cells, buf.g.mem
    ensures buf.Valid() && buf.Contents() == (if r == 0 then d else []) + old(buf.Contents())
    ensures r == if !memory || |d| > MAX_ALLOC then -1 else 0
    ensures r == 0 ==> AloneAtEnd(buf.g, d)
    ensures fresh(buf.g.cells - old(buf.g.cells)) && fresh(buf.g.mem - old(buf.g.mem)) &&
            buf.g.shared == old(buf.g.shared)
  {
    var chain := InsertEmpty(buf, |d|, memory);
    if chain == null {
      return -1;
    }
    assert d + [] == d && d[0..] == d;
    ghost var n;
    r, n := PrependAt(buf, chain, d, memory);
  }

  /** evbuffer_prepend, once there is a first chain. */
  method PrependAt(buf: Evbuffer, c: Chain, d: seq<byte>, memory: bool) returns (r: int, ghost n: nat)
    requires buf.Valid() && |buf.g.spine| > 0 && c == buf.g.spine[0]
    modifies buf`first, buf`lastWithDatap, buf`totalLen, buf`g, buf.g.cells, buf.g.mem
    ensures buf.Valid() && n == GoIn(|d|, old(Front(buf.g)), memory)
    ensures buf.Contents() == d[|d| - n..] + old(buf.Contents())
    ensures r == if n == |d| then 0 else -1
    ensures |d| <= old(Front(buf.g)) && old(!c.immutable) ==>
              && !c.immutable
              && buf.g == old(buf.g).(blocks := buf.g.blocks) && c.misalign == old(Front(buf.g)) - |d|
              && |old(buf.g.blocks)| > 0 && buf.g.blocks == old(buf.g.blocks)[0 := d + old(buf.g.blocks)[0]]
    ensures fresh(buf.g.cells - old(buf.g.cells)) && fresh(buf.g.mem - old(buf.g.mem)) &&
            buf.g.shared == old(buf.g.shared)
  {
    var m := PrependInPlace(buf, c, d);
    n := m;
    if m == |d| {
      return 0, m;
    }
    var rest := d[..|d| - m];
    assert rest + d[|d| - m..] == d;
    if !memory {
      return -1, n;
    }
    r := PrependChain(buf, c, rest);
    if r == 0 { n := |d|; }
  }

  /** Ten bytes in front of 970, and no memory for one more chain: the last six of them stay. */
  method PrependPart(tail: seq<byte>, d: seq<byte>) returns (buf: Evbuffer, r: int)
    requires |tail| == 970 && |d| == 10
    ensures fresh(buf) && buf.Valid() && r == -1 && buf.Contents() == d[4..] + tail
  {
    buf := new Evbuffer();
    ghost var n;
    r, n := Prepend(buf, tail, true);
    assert tail[0..] + [] == tail;
    assert SoundAt(buf.g, 0);
    r, n := Prepend(buf, d, false);
  }

  // ----- evbuffer_drain

  /** All the data lies in the chains up to the last one with data. */
  lemma FlatUpTo(g: Shape, n: nat)
    requires Sound(g) && g.k < n <= |g.spine|
    ensures Flat(g.blocks[..n]) == g.Bytes()
  {
    Halves(g.blocks, n);
    FlatConcat(g.blocks[..n], g.blocks[n..]);
    FlatEmpty(g.blocks[n..]);
  }

  /** The shape without its first n chains and the first m bytes of the next one; the chains in
      gone and the storage in goneMem are no longer its own. */
  ghost function Drop(g: Shape, n: nat, m: nat, gone: set<Chain>, goneMem: set<array<byte>>): Shape
    requires n < |g.spine| == |g.blocks| && n <= g.k && m <= |g.blocks[n]|
  {
    Shape(g.spine[n..], [g.blocks[n][m..]] + g.blocks[n + 1..], g.k - n, g.cells - gone, g.mem - goneMem, g.shared)
  }

  lemma DropBytes(g: Shape, n: nat, m: nat, gone: set<Chain>, goneMem: set<array<byte>>)
    requires n < |g.spine| == |g.blocks| && n <= g.k && m <= |g.blocks[n]|
    ensures |Flat(g.blocks[..n])| + m <= |g.Bytes()|
    ensures Drop(g, n, m, gone, goneMem).Bytes() == g.Bytes()[|Flat(g.blocks[..n])| + m..]
  {
    FlatAround(g.blocks, n);
    var h := Drop(g, n, m, gone, goneMem);
    assert h.blocks[1..] == g.blocks[n + 1..];
  }

  /** While a drain of len bytes takes whole chains, it has not reached the last chain with data. */
  lemma MoreData(g: Shape, n: nat, len: nat, remaining: nat)
    requires Sound(g) && n <= g.k < |g.spine| && len < |g.Bytes()|
    requires len == |Flat(g.blocks[..n])| + remaining && remaining >= |g.blocks[n]|
    ensures n < g.k && len == |Flat(g.blocks[..n + 1])| + remaining - |g.blocks[n]|
  {
    FlatAround(g.blocks, n);
    FlatUpTo(g, g.k + 1);
  }

  /** last_with_datap falls back to &first when chain c, or the chain it hangs from, goes. */
  method ForgetPred(buf: Evbuffer, c: Chain)
    modifies buf`lastWithDatap
    ensures buf.lastWithDatap == var p := old(buf.lastWithDatap); if p != null && p != c && p.next != c then p else null
  {
    if c == (if buf.lastWithDatap == null then buf.first else buf.lastWithDatap.next) { buf.lastWithDatap := null; }
    if c == buf.lastWithDatap { buf.lastWithDatap := null; }
  }

  /** The loop of evbuffer_drain: frees the chains that go entirely. */
  method FreeDrained(buf: Evbuffer, len: nat) returns (chain: Chain, remaining: nat, ghost n: nat)
    requires buf.Core() && len < |buf.Contents()|
    modifies buf`lastWithDatap, buf.g.cells`refcnt
    ensures n <= buf.g.k < |buf.g.spine| == |buf.g.blocks| && chain == buf.g.spine[n] && remaining < |buf.g.blocks[n]|
    ensures len == |Flat(buf.g.blocks[..n])| + remaining
    ensures buf.lastWithDatap == if n < buf.g.k then buf.g.spine[buf.g.k - 1] else null
    ensures forall i | 0 <= i < n :: buf.g.spine[i].refcnt == old(buf.g.spine[i].refcnt) - 1
    ensures forall i | n <= i < |buf.g.spine| :: buf.g.spine[i].refcnt == old(buf.g.spine[i].refcnt)
  {
    hide Differ;
    ghost var g := buf.g;
    Pairwise(g);
    var cur := buf.first;
    remaining := len;
    n := 0;
    assert SoundAt(g, 0);
    while remaining >= cur.off
      invariant n <= g.k < |g.spine| && cur == g.spine[n]
      invariant len == |Flat(g.blocks[..n])| + remaining
      invariant buf.lastWithDatap == if n < g.k then g.spine[g.k - 1] else null
      invariant forall i | 0 <= i < n :: g.spine[i].refcnt == old(g.spine[i].refcnt) - 1
      invariant forall i | n <= i < |g.spine| :: g.spine[i].refcnt == old(g.spine[i].refcnt)
      invariant Sound(g)
      decreases |g.spine| - n
    {
      assert SoundAt(g, n) && Linked(g, n) && old(Held(g, n)) && Linked(g, g.k - 1);
      MoreData(g, n, len, remaining);
      var next := cur.next;
      remaining := remaining - cur.off;
      ForgetPred(buf, cur);
      cur.refcnt := cur.refcnt - 1;
      cur, n := next, n + 1;
    }
    assert SoundAt(g, n);
    chain := cur;
  }

  /** What is left of the chain a drain stopped at becomes the front. */
  method TrimFront(buf: Evbuffer, chain: Chain, m: nat, ghost n: nat, ghost g: Shape, ghost gone: set<Chain>,
                   ghost goneMem: set<array<byte>>)
    requires Sound(g) && n <= g.k < |g.spine| && chain == g.spine[n] && m < |g.blocks[n]|
    requires forall i | n <= i < |g.spine| :: g.spine[i] !in gone && g.spine[i].data !in goneMem
    modifies buf`first, buf`g, chain`misalign, chain`off
    ensures buf.first == chain && buf.g == Drop(g, n, m, gone, goneMem) && Sound(buf.g)
  {
    Pairwise(g);
    assert SoundAt(g, n);
    ghost var h := Drop(g, n, m, gone, goneMem);
    label before:
    buf.first := chain;
    Skip(chain, m, g.blocks[n]);
    buf.g := h;
    forall j ensures SoundAt(h, j) { assert old@before(SoundAt(g, n + j)); }
    forall x, y ensures Differ(h, x, y) { assert Differ(g, n + x, n + y); }
  }

  /** The links and counts of what Drop keeps. */
  lemma SpineDrop(g: Shape, n: nat, m: nat, gone: set<Chain>, goneMem: set<array<byte>>)
    requires n < |g.spine| == |g.blocks| && n <= g.k && m <= |g.blocks[n]|
    requires forall i :: Linked(g, i)
    requires forall i | n <= i < |g.spine| :: Held(g, i)
    requires forall i | n <= i < |g.spine| :: g.spine[i] !in gone
    ensures Spine(g.spine[n], Drop(g, n, m, gone, goneMem))
  {
    var h := Drop(g, n, m, gone, goneMem);
    forall i ensures Linked(h, i) { if 0 <= i < |h.spine| { assert Linked(g, n + i); } }
    forall i ensures Held(h, i) { if 0 <= i < |h.spine| { assert Held(g, n + i); } }
  }

  /** Makes the first m bytes of chain n, and every chain before it, disappear from the front. */
  method DropFront(buf: Evbuffer, chain: Chain, m: nat, len: nat, ghost n: nat, ghost g: Shape, ghost gone: set<Chain>,
                   ghost goneMem: set<array<byte>>)
    requires Sound(g) && n <= g.k < |g.spine| && chain == g.spine[n] && m < |g.blocks[n]|
    requires len == |Flat(g.blocks[..n])| + m
    requires forall i :: Linked(g, i)
    requires forall i | n <= i < |g.spine| :: Held(g, i)
    requires forall i | n <= i < |g.spine| :: g.spine[i] !in gone && g.spine[i].data !in goneMem
    requires buf.totalLen == |g.Bytes()| && buf.last == g.Last()
    requires buf.lastWithDatap == if n < g.k then g.spine[g.k - 1] else null
    modifies buf`first, buf`totalLen, buf`g, chain`misalign, chain`off
    ensures buf.Valid() && buf.g == Drop(g, n, m, gone, goneMem)
    ensures len <= |g.Bytes()| && buf.Contents() == g.Bytes()[len..]
  {
    DropBytes(g, n, m, gone, goneMem);
    SpineDrop(g, n, m, gone, goneMem);
    TrimFront(buf, chain, m, n, g, gone, goneMem);
    buf.totalLen := buf.totalLen - len;
  }

  /** evbuffer_drain: the first n chains are freed, once each; the others keep their references. */
  method Drain(buf: Evbuffer, len: nat) returns (r: int, ghost n: nat)
    requires buf.Valid()
    modifies buf`first, buf`last, buf`lastWithDatap, buf`totalLen, buf`g, buf.g.cells`misalign, buf.g.cells`off,
             buf.g.cells`refcnt
    ensures buf.Valid()
    ensures r == if buf.freezeStart && old(buf.Contents()) != [] then -1 else 0
    ensures buf.Contents() ==
              old(buf.Contents())[if r == -1 then 0
                                  else if len < |old(buf.Contents())| then len else |old(buf.Contents())|..]
    ensures buf.g.cells == old(buf.g.cells) && buf.g.mem == old(buf.g.mem) && buf.g.shared == old(buf.g.shared)
    ensures n <= |old(buf.g.spine)| && buf.g.spine == old(buf.g.spine)[n..]
    ensures forall i | 0 <= i < |old(buf.g.spine)| ::
              old(buf.g.spine)[i].refcnt == old(buf.g.spine[i].refcnt) - (if i < n then 1 else 0)
  {
    if buf.totalLen == 0 {
      return 0, 0;
    }
    if buf.freezeStart {
      return -1, 0;
    }
    if len >= buf.totalLen {
      n := |buf.g.spine|;
      FreeAllChains(buf.first, buf.g, 0);
      ZeroChain(buf, buf.g);
    } else {
      n := DrainSome(buf, len);
    }
    r := 0;
  }

  /** ZERO_CHAIN */
  method ZeroChain(buf: Evbuffer, ghost g: Shape)
    requires g.mem !! g.shared
    modifies buf`first, buf`last, buf`lastWithDatap, buf`totalLen, buf`g
    ensures buf.g == g.(spine := [], blocks := [], k := 0) && buf.Valid()
  {
    buf.first, buf.last, buf.lastWithDatap, buf.totalLen := null, null, null, 0;
    buf.g := g.(spine := [], blocks := [], k := 0);
  }

  /** evbuffer_drain, when some data stays. */
  method DrainSome(buf: Evbuffer, len: nat) returns (ghost n: nat)
    requires buf.Valid() && len < |buf.Contents()|
    modifies buf`first, buf`lastWithDatap, buf`totalLen, buf`g, buf.g.cells`misalign, buf.g.cells`off,
             buf.g.cells`refcnt
    ensures buf.Valid() && buf.Contents() == old(buf.Contents())[len..]
    ensures buf.g.cells == old(buf.g.cells) && buf.g.mem == old(buf.g.mem) && buf.g.shared == old(buf.g.shared)
    ensures n <= |old(buf.g.spine)| && buf.g.spine == old(buf.g.spine)[n..]
    ensures forall i | 0 <= i < |old(buf.g.spine)| ::
              old(buf.g.spine)[i].refcnt == old(buf.g.spine[i].refcnt) - (if i < n then 1 else 0)
  {
    ghost var g := buf.g;
    label before:
    var chain, remaining;
    chain, remaining, n := FreeDrained(buf, len);
    forall i | n <= i < |g.spine| ensures Held(g, i) { assert old@before(Held(g, i)); }
    assert SoundAt(g, n);
    DropFront(buf, chain, remaining, len, n, g, {}, {});
  }
}
