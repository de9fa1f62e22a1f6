/** evbuffer_add_buffer, evbuffer_prepend_buffer and evbuffer_remove_buffer. */
module EvbufferMove {
  import opened Basics
  import opened Chains
  import opened EvbufferEnds

  /** The two shapes share nothing that either may write. */
  ghost predicate Separate(g: Shape, h: Shape) {
    && g.cells !! h.cells && g.mem !! h.mem && g.mem !! h.shared && g.shared !! h.mem
  }

  const NOTHING := Shape([], [], 0, {}, {}, {})

  /** The chains of g, then those of h. */
  ghost function Join(g: Shape, h: Shape, k: nat): Shape {
    Shape(g.spine + h.spine, g.blocks + h.blocks, k, g.cells + h.cells, g.mem + h.mem, g.shared + h.shared)
  }

  lemma PiledJoin(g: Shape, h: Shape, k: nat)
    requires Piled(g) && Piled(h) && Separate(g, h)
    ensures Piled(Join(g, h, k)) && Join(g, h, k).Bytes() == g.Bytes() + h.Bytes()
  {
    FlatConcat(g.blocks, h.blocks);
    var j := Join(g, h, k);
    forall i ensures SoundAt(j, i) { assert SoundAt(g, i) && SoundAt(h, i - |g.spine|); }
    forall x, y ensures Differ(j, x, y) {
      assert Differ(g, x, y) && Differ(h, x - |g.spine|, y - |g.spine|);
      assert SoundAt(g, x) && SoundAt(h, y - |g.spine|);
    }
  }

  /** The last chain with data of the joined list is that of the second one if it has any. */
  lemma JoinLast(g: Shape, h: Shape)
    requires Sound(g) && Sound(h) && h.Bytes() != []
    ensures h.k < |h.spine| && LastData(g.blocks + h.blocks, |g.spine| + h.k)
    ensures Join(g, h, |g.spine| + h.k).Pred() == if h.k == 0 then g.Last() else h.Pred()
    ensures Join(g, h, |g.spine| + h.k).Last() == h.Last()
  {
    if h.k == 0 && (h.blocks == [] || h.blocks[0] == []) {
      FlatEmpty(h.blocks);
    }
  }

  /** Hangs the list h, which starts at head, after ch, the end of the list of dst. */
  method AttachList(dst: Evbuffer, ch: Chain?, head: Chain, ghost g: Shape, ghost h: Shape, ghost j: Shape)
    requires Spine(dst.first, g) && Spine(head, h) && g.cells !! h.cells && ch == g.Last()
    requires j.spine == g.spine + h.spine && g.cells + h.cells <= j.cells
    modifies dst`first, g.cells`next
    ensures Spine(dst.first, j)
  {
    assert Linked(g, |g.spine| - 1);
    label before:
    if ch == null { dst.first := head; } else { ch.next := head; }
    forall i ensures Linked(j, i) { assert old@before(Linked(g, i)) && old@before(Linked(h, i - |g.spine|)); }
    forall i ensures Held(j, i) { assert Held(g, i) && Held(h, i - |g.spine|); }
  }

  /** Hangs the list of src after ch, the end of the list of dst, and takes over its end. */
  method LinkLists(dst: Evbuffer, src: Evbuffer, ch: Chain?, ghost g: Shape, ghost h: Shape, ghost j: Shape)
    requires dst != src && Spine(dst.first, g) && Spine(src.first, h) && g.cells !! h.cells && ch == g.Last()
    requires j.spine == g.spine + h.spine && g.cells + h.cells <= j.cells && h.spine != [] && Sound(j)
    modifies dst`first, dst`last, dst`lastWithDatap, dst`totalLen, dst`g, g.cells`next
    ensures Spine(dst.first, j) && Sound(j) && dst.g == j && dst.last == src.last
    ensures dst.lastWithDatap == if src.lastWithDatap == null then ch else src.lastWithDatap
    ensures dst.totalLen == old(dst.totalLen) + src.totalLen
  {
    AttachList(dst, ch, src.first, g, h, j);
    dst.lastWithDatap := if src.lastWithDatap == null then ch else src.lastWithDatap;
    dst.last := src.last;
    dst.totalLen := dst.totalLen + src.totalLen;
    dst.g := j;
  }

  /** What every move keeps: both buffers are valid and share nothing either may write. */
  ghost predicate Pair(dst: Evbuffer, src: Evbuffer)
    reads dst`first, dst`last, dst`lastWithDatap, dst`totalLen, dst`g, dst.g.cells, dst.g.mem, dst.g.shared
    reads src`first, src`last, src`lastWithDatap, src`totalLen, src`g, src.g.cells, src.g.mem, src.g.shared
  {
    dst.Valid() && src.Valid() && (dst != src ==> Separate(dst.g, src.g))
  }

  /** COPY_CHAIN */
  method CopyFields(dst: Evbuffer, src: Evbuffer, ghost h: Shape, ghost j: Shape)
    requires dst != src && Spine(src.first, h) && j.spine == h.spine && h.cells <= j.cells && Sound(j)
    modifies dst`first, dst`last, dst`lastWithDatap, dst`totalLen, dst`g
    ensures Spine(dst.first, j) && Sound(j) && dst.g == j
    ensures dst.last == src.last && dst.lastWithDatap == src.lastWithDatap && dst.totalLen == src.totalLen
  {
    forall i ensures Linked(j, i) { assert Linked(h, i); }
    forall i ensures Held(j, i) { assert Held(h, i); }
    dst.first, dst.last, dst.lastWithDatap, dst.totalLen := src.first, src.last, src.lastWithDatap, src.totalLen;
    dst.g := j;
  }

  /** COPY_CHAIN, then ZERO_CHAIN: dst has freed its chains and takes those of src. */
  method CopyChain(dst: Evbuffer, src: Evbuffer, ghost g: Shape)
    requires dst != src && src.Valid() && src.Contents() != []
    requires Sound(g) && g.spine == [] && Separate(g, src.g)
    modifies dst`first, dst`last, dst`lastWithDatap, dst`totalLen, dst`g, src`first, src`last, src`lastWithDatap,
             src`totalLen, src`g
    ensures dst.Valid() && dst.g == Join(g, old(src.g), old(src.g.k)) && dst.Contents() == old(src.Contents())
    ensures src.g == NOTHING && src.Valid()
  {
    ghost var h := src.g;
    PiledJoin(g, h, h.k);
    JoinLast(g, h);
    CopyFields(dst, src, h, Join(g, h, h.k));
    ZeroChain(src, NOTHING);
  }

  /** APPEND_CHAIN, after evbuffer_free_trailing_empty_chains found the link ch, then ZERO_CHAIN. */
  method AppendChain(dst: Evbuffer, src: Evbuffer, ch: Chain?, ghost n: nat)
    requires dst != src && Pair(dst, src) && src.Contents() != []
    requires dst.g.k <= n <= |dst.g.spine| && (n == 0 || dst.g.k < n)
    requires ch == if n == 0 then null else dst.g.spine[n - 1]
    requires forall i | n <= i < |dst.g.spine| :: dst.g.blocks[i] == []
    modifies dst`first, dst`last, dst`lastWithDatap, dst`totalLen, dst`g, src`first, src`last, src`lastWithDatap,
             src`totalLen, src`g
    modifies dst.g.cells`next, dst.g.cells`refcnt
    ensures dst.Valid() && |old(dst.g.blocks)| == |old(dst.g.spine)|
    ensures dst.g == Join(old(dst.g).Cut(n), old(src.g), n + old(src.g.k))
    ensures dst.Contents() == old(dst.Contents()) + old(src.Contents())
    ensures src.g == NOTHING && src.Valid()
  {
    ghost var g, h := dst.g.Cut(n), src.g;
    ghost var j := Join(g, h, n + h.k);
    SoundCut(dst.g, n);
    PiledJoin(g, h, n + h.k);
    JoinLast(g, h);
    CutAndLink(dst, src, ch, dst.g, n, h, j);
    ZeroChain(src, NOTHING);
  }

  /** The link and field updates of APPEND_CHAIN. */
  method CutAndLink(dst: Evbuffer, src: Evbuffer, ch: Chain?, ghost g: Shape, ghost n: nat, ghost h: Shape,
                    ghost j: Shape)
    requires dst != src && Spine(dst.first, g) && Spine(src.first, h) && g.cells !! h.cells
    requires n <= |g.spine| == |g.blocks| && ch == (if n == 0 then null else g.spine[n - 1])
    requires forall x, y :: Differ(g, x, y)
    requires j.spine == g.spine[..n] + h.spine && j.cells == g.cells + h.cells && h.spine != [] && Sound(j)
    modifies dst`first, dst`last, dst`lastWithDatap, dst`totalLen, dst`g, g.cells`next, g.cells`refcnt
    ensures Spine(dst.first, j) && Sound(j) && dst.g == j && dst.last == src.last
    ensures dst.lastWithDatap == if src.lastWithDatap == null then ch else src.lastWithDatap
    ensures dst.totalLen == old(dst.totalLen) + src.totalLen
  {
    CutList(dst, ch, g, n);
    LinkLists(dst, src, ch, g.Cut(n), h, j);
  }

  /** evbuffer_add_buffer */
  method AddBuffer(dst: Evbuffer, src: Evbuffer) returns (r: int)
    requires Pair(dst, src)
    modifies dst`first, dst`last, dst`lastWithDatap, dst`totalLen, dst`g, src`first, src`last, src`lastWithDatap,
             src`totalLen, src`g
    modifies dst.g.cells`next, dst.g.cells`refcnt
    ensures Pair(dst, src)
    ensures r == if old(src.Contents()) != [] && dst != src && (dst.freezeEnd || src.freezeStart) then -1 else 0
    ensures r == 0 && dst != src ==> dst.Contents() == old(dst.Contents()) + old(src.Contents()) && src.Contents() == []
    ensures r == -1 || dst == src ==> dst.Contents() == old(dst.Contents()) && src.Contents() == old(src.Contents())
    ensures dst.g.cells <= old(dst.g.cells) + old(src.g.cells) && src.g.cells <= old(src.g.cells)
    ensures dst.g.mem <= old(dst.g.mem) + old(src.g.mem) && src.g.mem <= old(src.g.mem)
    ensures dst.g.shared <= old(dst.g.shared) + old(src.g.shared) && src.g.shared <= old(src.g.shared)
  {
    if src.totalLen == 0 || dst == src {
      return 0;
    }
    if dst.freezeEnd || src.freezeStart {
      return -1;
    }
    if dst.totalLen == 0 {
      FreeAllChains(dst.first, dst.g, 0);
      NoData(dst.g);
      CopyChain(dst, src, dst.g.Cut(0));
    } else {
      var ch;
      ghost var n;
      ch, n := FirstVictim(dst);
      AppendChain(dst, src, ch, n);
    }
    r := 0;
  }

  lemma NoData(g: Shape)
    requires Sound(g) && g.Bytes() == []
    ensures Sound(g.Cut(0)) && g.k == 0
  {
    if g.k > 0 { FlatAround(g.blocks, g.k); }
  }

  /** PREPEND_CHAIN */
  method LinkFrontList(dst: Evbuffer, src: Evbuffer, ghost g: Shape, ghost h: Shape, ghost j: Shape)
    requires dst != src && Spine(dst.first, g) && Spine(src.first, h) && g.cells !! h.cells
    requires h.spine != [] && src.last == h.Last() && g.spine != []
    requires j.spine == h.spine + g.spine && g.cells + h.cells <= j.cells && Sound(j)
    modifies dst`first, dst`lastWithDatap, dst`totalLen, dst`g, h.cells`next
    ensures Spine(dst.first, j) && Sound(j) && dst.g == j
    ensures dst.lastWithDatap == if old(dst.lastWithDatap) == null then src.last else old(dst.lastWithDatap)
    ensures dst.totalLen == old(dst.totalLen) + src.totalLen
  {
    assert Linked(h, |h.spine| - 1);
    label before:
    src.last.next := dst.first;
    dst.first := src.first;
    dst.totalLen := dst.totalLen + src.totalLen;
    if dst.lastWithDatap == null { dst.lastWithDatap := src.last; }
    dst.g := j;
    forall i ensures Linked(j, i) { assert old@before(Linked(h, i)) && old@before(Linked(g, i - |h.spine|)); }
    forall i ensures Held(j, i) { assert Held(h, i) && Held(g, i - |h.spine|); }
  }

  /** PREPEND_CHAIN, then ZERO_CHAIN. */
  method PrependList(dst: Evbuffer, src: Evbuffer)
    requires dst != src && Pair(dst, src) && src.Contents() != [] && dst.Contents() != []
    modifies dst`first, dst`lastWithDatap, dst`totalLen, dst`g, src`first, src`last, src`lastWithDatap, src`totalLen,
             src`g
    modifies src.g.cells`next
    ensures dst.Valid() && dst.g == Join(old(src.g), old(dst.g), |old(src.g.spine)| + old(dst.g.k))
    ensures dst.Contents() == old(src.Contents()) + old(dst.Contents())
    ensures src.g == NOTHING && src.Valid()
  {
    ghost var g, h := dst.g, src.g;
    ghost var j := Join(h, g, |h.spine| + g.k);
    PiledJoin(h, g, |h.spine| + g.k);
    JoinLast(h, g);
    assert h.spine != [];
    LinkFrontList(dst, src, g, h, j);
    ZeroChain(src, NOTHING);
  }

  /** evbuffer_prepend_buffer */
  method PrependBuffer(dst: Evbuffer, src: Evbuffer) returns (r: int)
    requires Pair(dst, src)
    modifies dst`first, dst`last, dst`lastWithDatap, dst`totalLen, dst`g, src`first, src`last, src`lastWithDatap,
             src`totalLen, src`g
    modifies dst.g.cells`refcnt, src.g.cells`next
    ensures Pair(dst, src)
    ensures r == if old(src.Contents()) != [] && dst != src && (dst.freezeStart || src.freezeStart) then -1 else 0
    ensures r == 0 && dst != src ==> dst.Contents() == old(src.Contents()) + old(dst.Contents()) && src.Contents() == []
    ensures r == -1 || dst == src ==> dst.Contents() == old(dst.Contents()) && src.Contents() == old(src.Contents())
    ensures dst.g.cells <= old(dst.g.cells) + old(src.g.cells) && src.g.cells <= old(src.g.cells)
    ensures dst.g.mem <= old(dst.g.mem) + old(src.g.mem) && src.g.mem <= old(src.g.mem)
    ensures dst.g.shared <= old(dst.g.shared) + old(src.g.shared) && src.g.shared <= old(src.g.shared)
  {
    if src.totalLen == 0 || dst == src {
      return 0;
    }
    if dst.freezeStart || src.freezeStart {
      return -1;
    }
    if dst.totalLen == 0 {
      FreeAllChains(dst.first, dst.g, 0);
      NoData(dst.g);
      CopyChain(dst, src, dst.g.Cut(0));
    } else {
      PrependList(dst, src);
    }
    r := 0;
  }

  // ----- evbuffer_remove_buffer

  /** advance_last_with_data: moves last_with_datap on to the last chain with data. */
  method AdvanceLastWithData(buf: Evbuffer, ghost g: Shape) returns (ghost k: nat)
    requires Spine(buf.first, g) && Piled(g) && buf.lastWithDatap == g.Pred()
    requires if g.spine == [] then g.k == 0 else g.k < |g.spine| && (g.k > 0 ==> g.blocks[g.k] != [])
    modifies buf`lastWithDatap
    ensures Spine(buf.first, g.(k := k)) && Sound(g.(k := k)) && buf.lastWithDatap == g.(k := k).Pred()
  {
    SameSpine(buf.first, g, g.(k := g.k));
    k := g.k;
    var chainp := buf.lastWithDatap;
    assert Linked(g, g.k - 1);
    var cur := if chainp == null then buf.first else chainp.next;
    if cur == null {
      SamePile(g, k);
      return;
    }
    ghost var i := g.k;
    assert Linked(g, i);
    while cur.next != null
      invariant g.k <= i < |g.spine| && cur == g.spine[i] && Linked(g, i)
      invariant k <= i && buf.lastWithDatap == g.(k := k).Pred()
      invariant k > 0 ==> g.blocks[k] != []
      invariant forall x | k < x <= i :: g.blocks[x] == []
      decreases |g.spine| - i
    {
      chainp, cur, i := cur, cur.next, i + 1;
      assert SoundAt(g, i) && Linked(g, i);
      if cur.off > 0 { buf.lastWithDatap, k := chainp, i; }
    }
    SameSpine(buf.first, g, g.(k := k));
    SamePile(g, k);
  }

  lemma SamePile(g: Shape, k: nat)
    requires Piled(g) && LastData(g.blocks, k)
    ensures Sound(g.(k := k))
  {
    forall i ensures SoundAt(g.(k := k), i) { assert SoundAt(g, i); }
    forall x, y ensures Differ(g.(k := k), x, y) { assert Differ(g, x, y); }
  }

  /** The loop of evbuffer_remove_buffer: which chains can be moved whole. */
  method FindMovable(src: Evbuffer, len: nat) returns (chain: Chain, previous: Chain, nread: nat, ghost n: nat)
    requires src.Core() && len < |src.Contents()|
    modifies src`lastWithDatap
    ensures n <= src.g.k < |src.g.spine| == |src.g.blocks| && chain == src.g.spine[n]
    ensures nread == |Flat(src.g.blocks[..n])| <= len < |src.Contents()| && len - nread < |src.g.blocks[n]|
    ensures n > 0 ==> previous == src.g.spine[n - 1]
    ensures src.lastWithDatap == if n < src.g.k then src.g.spine[src.g.k - 1] else null
  {
    ghost var g := src.g;
    Pairwise(g);
    chain, previous, nread, n := src.first, src.first, 0, 0;
    assert SoundAt(g, 0);
    while chain.off <= len - nread
      invariant n <= g.k < |g.spine| && chain == g.spine[n]
      invariant n > 0 ==> previous == g.spine[n - 1]
      invariant nread == |Flat(g.blocks[..n])| <= len
      invariant src.lastWithDatap == if n < g.k then g.spine[g.k - 1] else null
      decreases |g.spine| - n
    {
      assert SoundAt(g, n) && Linked(g, n);
      MoreData(g, n, len, len - nread);
      nread := nread + chain.off;
      previous := chain;
      if src.lastWithDatap == chain { src.lastWithDatap := null; }
      chain, n := chain.next, n + 1;
    }
    assert SoundAt(g, n);
  }

  // The first n chains of a shape, with the storage they may write, as a shape of their own.
  ghost function LeadCells(g: Shape, n: nat): set<Chain> {
    set i | 0 <= i < n && i < |g.spine| :: g.spine[i]
  }

  ghost function LeadMem(g: Shape, n: nat): set<array<byte>> {
    set i | 0 <= i < n && i < |g.spine| && g.spine[i].data in g.mem :: g.spine[i].data
  }

  ghost function Lead(g: Shape, n: nat): Shape
    requires n <= |g.spine| && n <= |g.blocks|
  {
    Shape(g.spine[..n], g.blocks[..n], 0, LeadCells(g, n), LeadMem(g, n), g.shared)
  }

  lemma PiledLead(g: Shape, n: nat)
    requires Piled(g) && n <= |g.spine|
    ensures Piled(Lead(g, n)) && LeadCells(g, n) <= g.cells && LeadMem(g, n) <= g.mem
    ensures forall i | n <= i < |g.spine| :: g.spine[i] !in LeadCells(g, n) && g.spine[i].data !in LeadMem(g, n)
  {
    var h := Lead(g, n);
    forall i ensures SoundAt(h, i) { assert SoundAt(g, i); }
    forall x, y ensures Differ(h, x, y) { assert Differ(g, x, y); }
    forall i | 0 <= i < n ensures g.spine[i] in g.cells { assert SoundAt(g, i); }
    forall i, j | 0 <= j < n <= i < |g.spine|
      ensures g.spine[i] != g.spine[j] && (g.spine[j].data in g.mem ==> g.spine[i].data != g.spine[j].data)
    {
      assert Differ(g, j, i);
    }
  }

  /** Takes the first n chains off the list of src; r is the shape of those that stay. */
  method DetachLead(src: Evbuffer, chain: Chain, previous: Chain, ghost n: nat, ghost h: Shape, ghost r: Shape)
    returns (head: Chain)
    requires Spine(src.first, h) && 0 < n < |h.spine| == |h.blocks| && chain == h.spine[n] && previous == h.spine[n - 1]
    requires forall x, y :: Differ(h, x, y)
    requires r.spine == h.spine[n..] && r.cells == h.cells - LeadCells(h, n)
    modifies src`first, previous`next
    ensures Spine(head, Lead(h, n)) && Spine(src.first, r) && src.first == chain
  {
    Pairwise(h);
    label before:
    head := src.first;
    previous.next := null;
    src.first := chain;
    forall i ensures Linked(Lead(h, n), i) && Held(Lead(h, n), i) {
      assert old@before(Linked(h, i)) && Held(h, i);
      if 0 <= i < n { assert h.spine[i] in LeadCells(h, n); }
    }
    forall i ensures Linked(r, i) && Held(r, i) { assert old@before(Linked(h, n + i)) && Held(h, n + i); }
  }

  /** Frees the chains of dst from index c on and hangs the list l, which ends in tail, there. */
  method ReplaceTailBy(dst: Evbuffer, ch: Chain?, head: Chain, tail: Chain, ghost c: nat, ghost g: Shape,
                       ghost l: Shape, ghost j: Shape)
    requires Spine(dst.first, g) && Spine(head, l) && g.cells !! l.cells
    requires c <= |g.spine| == |g.blocks| && ch == (if c == 0 then null else g.spine[c - 1])
    requires forall x, y :: Differ(g, x, y)
    requires j.spine == g.spine[..c] + l.spine && g.cells + l.cells <= j.cells
    modifies dst`first, dst`last, g.cells`next, g.cells`refcnt
    ensures Spine(dst.first, j) && dst.last == tail
  {
    CutList(dst, ch, g, c);
    AttachList(dst, ch, head, g.Cut(c), l, j);
    dst.last := tail;
  }

  /** What Drop leaves behind once the first n chains belong to another buffer. */
  lemma SoundRest(h: Shape, n: nat)
    requires Sound(h) && 0 < n <= h.k < |h.spine|
    ensures Sound(Drop(h, n, 0, LeadCells(h, n), LeadMem(h, n)))
    ensures |Flat(h.blocks[..n])| <= |h.Bytes()| && Flat(h.blocks[..n]) == h.Bytes()[..|Flat(h.blocks[..n])|]
    ensures Drop(h, n, 0, LeadCells(h, n), LeadMem(h, n)).Bytes() == h.Bytes()[|Flat(h.blocks[..n])|..]
    ensures Drop(h, n, 0, LeadCells(h, n), LeadMem(h, n)).Pred() == if n < h.k then h.spine[h.k - 1] else null
    ensures Drop(h, n, 0, LeadCells(h, n), LeadMem(h, n)).Last() == h.Last()
  {
    var r := Drop(h, n, 0, LeadCells(h, n), LeadMem(h, n));
    PiledLead(h, n);
    FlatAround(h.blocks, n);
    DropBytes(h, n, 0, LeadCells(h, n), LeadMem(h, n));
    forall i ensures SoundAt(r, i) { assert SoundAt(h, n + i); }
    forall x, y ensures Differ(r, x, y) { assert Differ(h, n + x, n + y); }
  }

  /** The relinking of evbuffer_remove_buffer: the first n chains of src end up behind those of dst. */
  method MoveLead(dst: Evbuffer, src: Evbuffer, ch: Chain?, chain: Chain, previous: Chain, ghost c: nat, ghost n: nat,
                  ghost j: Shape, ghost r: Shape)
    requires dst != src && dst.Core() && Spine(src.first, src.g) && Sound(src.g) && Separate(dst.g, src.g)
    requires c <= |dst.g.spine| && ch == (if c == 0 then null else dst.g.spine[c - 1])
    requires 0 < n < |src.g.spine| && chain == src.g.spine[n] && previous == src.g.spine[n - 1]
    requires j.spine == dst.g.spine[..c] + src.g.spine[..n] && j.cells == dst.g.cells + LeadCells(src.g, n)
    requires r.spine == src.g.spine[n..] && r.cells == src.g.cells - LeadCells(src.g, n)
    requires LeadCells(src.g, n) <= src.g.cells
    requires Piled(j) && Sound(r)
    modifies dst`first, dst`last, src`first, dst.g.cells`next, dst.g.cells`refcnt, previous`next
    ensures Spine(dst.first, j) && Piled(j) && dst.last == previous
    ensures Spine(src.first, r) && Sound(r) && src.first == chain
  {
    ghost var g, h := dst.g, src.g;
    assert Linked(h, n - 1);
    var head := DetachLead(src, chain, previous, n, h, r);
    ReplaceTailBy(dst, ch, head, previous, c, g, Lead(h, n), j);
  }

  /** The shapes after the first n chains of h went behind those of g, cut at c. */
  lemma MovedShapes(g: Shape, h: Shape, c: nat, n: nat, j: Shape, r: Shape)
    requires Sound(g) && Sound(h) && Separate(g, h) && 0 < n <= h.k < |h.spine|
    requires g.k <= c <= |g.spine| && (c == 0 || g.k < c) && forall i | c <= i < |g.spine| :: g.blocks[i] == []
    requires j == Join(g.Cut(c), Lead(h, n), g.k) && r == Drop(h, n, 0, LeadCells(h, n), LeadMem(h, n))
    ensures LeadCells(h, n) <= h.cells && Separate(j, r)
    ensures Piled(j) && j.Bytes() == g.Bytes() + Flat(h.blocks[..n]) && j.Pred() == g.Pred() &&
            j.Last() == h.spine[n - 1]
    ensures Sound(r) && r.Pred() == (if n < h.k then h.spine[h.k - 1] else null) && r.Last() == h.Last()
    ensures h.Bytes() == Flat(h.blocks[..n]) + r.Bytes()
    ensures j.k < |j.spine| && (j.k > 0 ==> j.blocks[j.k] != [])
    ensures j.cells <= g.cells + h.cells && j.mem <= g.mem + h.mem && j.shared <= g.shared + h.shared
  {
    SoundCut(g, c);
    PiledLead(h, n);
    PiledJoin(g.Cut(c), Lead(h, n), g.k);
    SoundRest(h, n);
  }

  /** The length updates at the end of a move, when all else is in place. */
  method SetTotals(dst: Evbuffer, src: Evbuffer, nread: nat, ghost j: Shape, ghost r: Shape)
    requires dst != src && nread <= src.totalLen && Separate(j, r)
    requires Spine(dst.first, j) && Sound(j) && dst.lastWithDatap == j.Pred() && dst.last == j.Last()
    requires Spine(src.first, r) && Sound(r) && src.lastWithDatap == r.Pred() && src.last == r.Last()
    requires dst.totalLen + nread == |j.Bytes()| && src.totalLen - nread == |r.Bytes()|
    modifies dst`totalLen, dst`g, src`totalLen, src`g
    ensures Pair(dst, src) && dst.g == j && src.g == r
  {
    dst.totalLen := dst.totalLen + nread;
    src.totalLen := src.totalLen - nread;
    dst.g := j;
    src.g := r;
  }

  /** MoveLead, then advance_last_with_data and the lengths. */
  method MoveAndAdvance(dst: Evbuffer, src: Evbuffer, ch: Chain?, chain: Chain, previous: Chain, nread: nat,
                        ghost c: nat, ghost n: nat, ghost j: Shape, ghost r: Shape)
    requires dst != src && dst.Core() && Spine(src.first, src.g) && Sound(src.g) && Separate(dst.g, src.g)
    requires c <= |dst.g.spine| && ch == (if c == 0 then null else dst.g.spine[c - 1])
    requires 0 < n < |src.g.spine| && chain == src.g.spine[n] && previous == src.g.spine[n - 1]
    requires j.spine == dst.g.spine[..c] + src.g.spine[..n] && j.cells == dst.g.cells + LeadCells(src.g, n)
    requires r.spine == src.g.spine[n..] && r.cells == src.g.cells - LeadCells(src.g, n)
    requires LeadCells(src.g, n) <= src.g.cells && nread <= src.totalLen
    requires Piled(j) && Sound(r) && dst.lastWithDatap == j.Pred()
    requires j.k < |j.spine| && (j.k > 0 ==> j.blocks[j.k] != []) && previous == j.Last()
    requires src.lastWithDatap == r.Pred() && src.last == r.Last() && Separate(j, r)
    requires dst.totalLen + nread == |j.Bytes()| && src.totalLen - nread == |r.Bytes()|
    modifies dst`first, dst`last, dst`lastWithDatap, dst`totalLen, dst`g, src`first, src`totalLen, src`g
    modifies dst.g.cells`next, dst.g.cells`refcnt, previous`next
    ensures Pair(dst, src) && dst.g == j.(k := dst.g.k) && src.g == r
  {
    MoveLead(dst, src, ch, chain, previous, c, n, j, r);
    ghost var k := AdvanceLastWithData(dst, j);
    SetTotals(dst, src, nread, j.(k := k), r);
  }

  /** The part of evbuffer_remove_buffer that moves whole chains. */
  method MoveChains(dst: Evbuffer, src: Evbuffer, chain: Chain, previous: Chain, nread: nat, ghost n: nat)
    requires dst != src && dst.Valid() && Spine(src.first, src.g) && Sound(src.g) && Separate(dst.g, src.g)
    requires 0 < n <= src.g.k < |src.g.spine| && chain == src.g.spine[n] && previous == src.g.spine[n - 1]
    requires nread == |Flat(src.g.blocks[..n])|
    requires src.totalLen == |src.g.Bytes()| && src.last == src.g.Last()
    requires src.lastWithDatap == if n < src.g.k then src.g.spine[src.g.k - 1] else null
    modifies dst`first, dst`last, dst`lastWithDatap, dst`totalLen, dst`g, src`first, src`totalLen, src`g
    modifies dst.g.cells`next, dst.g.cells`refcnt, src.g.cells`next
    ensures Pair(dst, src)
    ensures nread <= |old(src.Contents())| && src.Contents() == old(src.Contents())[nread..]
    ensures dst.Contents() == old(dst.Contents()) + old(src.Contents())[..nread]
    ensures dst.g.cells <= old(dst.g.cells) + old(src.g.cells) && src.g.cells <= old(src.g.cells)
    ensures dst.g.mem <= old(dst.g.mem) + old(src.g.mem) && src.g.mem <= old(src.g.mem)
    ensures dst.g.shared <= old(dst.g.shared) + old(src.g.shared) && src.g.shared == old(src.g.shared)
    ensures n < |old(src.g.blocks)| && src.g.k < |src.g.spine| == |src.g.blocks| &&
            src.g.blocks[0] == old(src.g.blocks)[n]
  {
    ghost var g, h := dst.g, src.g;
    var ch;
    ghost var c;
    ch, c := FirstVictim(dst);
    ghost var j := Join(g.Cut(c), Lead(h, n), g.k);
    ghost var r := Drop(h, n, 0, LeadCells(h, n), LeadMem(h, n));
    MovedShapes(g, h, c, n, j, r);
    assert Linked(h, n - 1);
    MoveAndAdvance(dst, src, ch, chain, previous, nread, c, n, j, r);
  }

  /** The first n bytes that chain c holds. */
  method Peek(c: Chain, n: nat, ghost b: seq<byte>) returns (d: seq<byte>)
    requires c.Holds(b) && n <= |b|
    ensures d == b[..n]
  {
    d := c.data[c.misalign..c.misalign + n];
    forall j | 0 <= j < n ensures d[j] == b[j] { assert c.At(b, j); }
  }

  lemma FlatHead(bs: seq<seq<byte>>, m: nat)
    requires bs != [] && m <= |bs[0]|
    ensures m <= |Flat(bs)| && Flat(bs)[..m] == bs[0][..m]
  {}

  /** evbuffer_add to dst leaves src alone. */
  method AddApart(dst: Evbuffer, src: Evbuffer, d: seq<byte>)
    requires dst != src && Pair(dst, src) && !dst.freezeEnd && |d| <= MAX_ALLOC && |dst.Contents()| + |d| <= SIZE_MAX
    modifies dst`first, dst`last, dst`lastWithDatap, dst`totalLen, dst`g, dst.g.cells, dst.g.mem
    ensures Pair(dst, src) && dst.Contents() == old(dst.Contents()) + d
    ensures fresh(dst.g.cells - old(dst.g.cells)) && fresh(dst.g.mem - old(dst.g.mem)) &&
            dst.g.shared == old(dst.g.shared)
  {
    var _ := Add(dst, d);
  }

  /** Draining bytes of its first chain by hand leaves dst alone. */
  method DropApart(dst: Evbuffer, src: Evbuffer, m: nat)
    requires dst != src && Pair(dst, src) && src.g.k < |src.g.spine| && m < |src.g.blocks[0]|
    modifies src`first, src`totalLen, src`g, src.g.cells`misalign, src.g.cells`off
    ensures Pair(dst, src) && m <= |old(src.Contents())| && src.Contents() == old(src.Contents())[m..]
    ensures src.g.cells == old(src.g.cells) && src.g.mem == old(src.g.mem) && src.g.shared == old(src.g.shared)
  {
    assert SoundAt(src.g, 0);
    DropFirst(src, src.first, m);
  }

  /** The end of evbuffer_remove_buffer: copies m bytes out of the first chain of src and drains them by hand. */
  method CopyTail(dst: Evbuffer, src: Evbuffer, m: nat)
    requires dst != src && Pair(dst, src) && !dst.freezeEnd
    requires src.g.k < |src.g.spine| == |src.g.blocks| && m < |src.g.blocks[0]|
    requires |dst.Contents()| + m <= SIZE_MAX
    modifies dst`first, dst`last, dst`lastWithDatap, dst`totalLen, dst`g, dst.g.cells, dst.g.mem
    modifies src`first, src`totalLen, src`g, src.g.cells`misalign, src.g.cells`off
    ensures Pair(dst, src)
    ensures m <= |old(src.Contents())| && src.Contents() == old(src.Contents())[m..]
    ensures dst.Contents() == old(dst.Contents()) + old(src.Contents())[..m]
    ensures fresh(dst.g.cells - old(dst.g.cells)) && fresh(dst.g.mem - old(dst.g.mem)) &&
            dst.g.shared == old(dst.g.shared)
    ensures src.g.cells == old(src.g.cells) && src.g.mem == old(src.g.mem) && src.g.shared == old(src.g.shared)
  {
    assert SoundAt(src.g, 0);
    var d := Peek(src.first, m, src.g.blocks[0]);
    FlatHead(src.g.blocks, m);
    AddApart(dst, src, d);
    DropApart(dst, src, m);
  }

  /** chain->misalign += m; chain->off -= m, on the first chain. */
  method DropFirst(src: Evbuffer, chain: Chain, m: nat)
    requires src.Valid() && src.g.k < |src.g.spine| && m < |src.g.blocks[0]| && chain == src.first
    modifies src`first, src`totalLen, src`g, chain`misalign, chain`off
    ensures src.Valid() && m <= |old(src.Contents())| && src.Contents() == old(src.Contents())[m..]
    ensures src.g.cells == old(src.g.cells) && src.g.mem == old(src.g.mem) && src.g.shared == old(src.g.shared)
  {
    forall i | 0 <= i < |src.g.spine| ensures Held(src.g, i) {}
    DropFront(src, chain, m, m, 0, src.g, {}, {});
  }

  /** What (int) makes of a size. */
  function AsInt(n: int): int { (n + 0x8000_0000) % 0x1_0000_0000 - 0x8000_0000 }

  /** evbuffer_remove_buffer */
  method RemoveBuffer(src: Evbuffer, dst: Evbuffer, datlen: nat) returns (r: int)
    requires Pair(dst, src) && |dst.Contents()| + |src.Contents()| <= SIZE_MAX
    modifies dst`first, dst`last, dst`lastWithDatap, dst`totalLen, dst`g, dst.g.cells, dst.g.mem
    modifies src`first, src`last, src`lastWithDatap, src`totalLen, src`g, src.g.cells, src.g.mem
    ensures Pair(dst, src)
    ensures dst == src || datlen == 0 ==>
              r == 0 && dst.Contents() == old(dst.Contents()) && src.Contents() == old(src.Contents())
    ensures dst != src && datlen > 0 && (dst.freezeEnd || src.freezeStart) ==>
      r == -1 && dst.Contents() == old(dst.Contents()) && src.Contents() == old(src.Contents())
    ensures dst != src && datlen > 0 && !dst.freezeEnd && !src.freezeStart ==>
      var m := if datlen < |old(src.Contents())| then datlen else |old(src.Contents())|;
      r == AsInt(m) && dst.Contents() == old(dst.Contents()) + old(src.Contents())[..m] &&
      src.Contents() == old(src.Contents())[m..]
    ensures fresh(dst.g.cells - old(dst.g.cells) - old(src.g.cells)) &&
            fresh(dst.g.mem - old(dst.g.mem) - old(src.g.mem))
    ensures src.g.cells <= old(src.g.cells) && src.g.mem <= old(src.g.mem)
    ensures dst.g.shared <= old(dst.g.shared) + old(src.g.shared) && src.g.shared <= old(src.g.shared)
  {
    if datlen == 0 || dst == src {
      return 0;
    }
    if dst.freezeEnd || src.freezeStart {
      return -1;
    }
    if datlen >= src.totalLen {
      var total := src.totalLen;
      var _ := AddBuffer(dst, src);
      return AsInt(total);
    }
    RemoveSome(src, dst, datlen);
    r := AsInt(datlen);
  }

  /** Finds and moves the chains of src that go whole; rest bytes of the next one are still wanted. */
  method MoveWhole(src: Evbuffer, dst: Evbuffer, len: nat) returns (rest: nat)
    requires dst != src && Pair(dst, src) && len < |src.Contents()|
    modifies dst`first, dst`last, dst`lastWithDatap, dst`totalLen, dst`g, src`first, src`lastWithDatap, src`totalLen,
             src`g
    modifies dst.g.cells`next, dst.g.cells`refcnt, src.g.cells`next
    ensures Pair(dst, src) && rest <= len
    ensures src.Contents() == old(src.Contents())[len - rest..] &&
            dst.Contents() == old(dst.Contents()) + old(src.Contents())[..len - rest]
    ensures src.g.k < |src.g.spine| == |src.g.blocks| && rest < |src.g.blocks[0]|
    ensures dst.g.cells <= old(dst.g.cells) + old(src.g.cells) && src.g.cells <= old(src.g.cells)
    ensures dst.g.mem <= old(dst.g.mem) + old(src.g.mem) && src.g.mem <= old(src.g.mem)
    ensures dst.g.shared <= old(dst.g.shared) + old(src.g.shared) && src.g.shared <= old(src.g.shared)
  {
    Pairwise(src.g);
    var chain, previous, nread;
    ghost var n;
    chain, previous, nread, n := FindMovable(src, len);
    if chain != src.first {
      MoveChains(dst, src, chain, previous, nread, n);
    }
    rest := len - nread;
  }

  /** evbuffer_remove_buffer, when some data stays in src. */
  method RemoveSome(src: Evbuffer, dst: Evbuffer, len: nat)
    requires dst != src && Pair(dst, src) && len < |src.Contents()| && !dst.freezeEnd &&
             |dst.Contents()| + len <= SIZE_MAX
    modifies dst`first, dst`last, dst`lastWithDatap, dst`totalLen, dst`g, dst.g.cells, dst.g.mem
    modifies src`first, src`last, src`lastWithDatap, src`totalLen, src`g, src.g.cells, src.g.mem
    ensures Pair(dst, src)
    ensures dst.Contents() == old(dst.Contents()) + old(src.Contents())[..len] &&
            src.Contents() == old(src.Contents())[len..]
    ensures fresh(dst.g.cells - old(dst.g.cells) - old(src.g.cells)) &&
            fresh(dst.g.mem - old(dst.g.mem) - old(src.g.mem))
    ensures src.g.cells <= old(src.g.cells) && src.g.mem <= old(src.g.mem)
    ensures dst.g.shared <= old(dst.g.shared) + old(src.g.shared) && src.g.shared <= old(src.g.shared)
  {
    ghost var d, s := dst.Contents(), src.Contents();
    ghost var cells, mem := dst.g.cells + src.g.cells, dst.g.mem + src.g.mem;
    var rest := MoveWhole(src, dst, len);
    TwoCuts(d, s, len - rest, len);
    CopyTail(dst, src, rest);
    assert fresh(dst.g.cells - cells) && fresh(dst.g.mem - mem);
  }

  lemma TwoCuts(d: seq<byte>, s: seq<byte>, a: nat, b: nat)
    requires a <= b <= |s|
    ensures d + s[..a] + s[a..][..b - a] == d + s[..b] && s[a..][b - a..] == s[b..]
  {
    assert s[..a] + s[a..][..b - a] == s[..b];
  }
}
