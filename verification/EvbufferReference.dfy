/** Chains over storage that a buffer does not own: evbuffer_add_reference and
    evbuffer_add_buffer_reference. */
module EvbufferReference {
  import opened Basics
  import opened Chains
  import opened EvbufferEnds
  import opened EvbufferMove
  import opened EvbufferPullup
  import opened EvbufferReserve

  /** evbuffer_add_reference, for storage that no buffer may write */
  method AddReference(buf: Evbuffer, data: array<byte>) returns (r: int)
    requires buf.Valid() && data !in buf.g.mem && data.Length <= MAX_ALLOC
    modifies buf`first, buf`last, buf`lastWithDatap, buf`totalLen, buf`g, buf.g.cells`next, buf.g.cells`refcnt
    ensures buf.Valid() && r == if buf.freezeEnd then -1 else 0
    ensures buf.Contents() == old(buf.Contents()) + if r == 0 then data[..] else []
    ensures fresh(buf.g.cells - old(buf.g.cells)) && buf.g.mem == old(buf.g.mem)
    ensures buf.g.shared == old(buf.g.shared) + if r == 0 then {data} else {}
  {
    if buf.freezeEnd {
      return -1;
    }
    var c := new Chain.Over(data, 0, data.Length, false);
    ghost var b := data[..];
    assert c.Holds(b) by { forall j ensures c.At(b, j) {} }
    ghost var n := ChainInsert(buf, c, b, {}, {data});
    r := 0;
  }

  /** The shape once the storage of a chain may only be read. */
  ghost function Share(g: Shape, a: array<byte>): Shape {
    g.(mem := g.mem - {a}, shared := g.shared + {a})
  }

  /** The chain i of src becomes immutable and gets one more reference. */
  method MarkShared(src: Evbuffer, chain: Chain, ghost g: Shape, ghost i: nat)
    requires src.Valid() && g == src.g && i < |g.spine| && chain == g.spine[i] && chain.off > 0
    modifies src`g, chain`refcnt, chain`immutable
    ensures src.Valid() && src.g == Share(g, chain.data) && src.Contents() == g.Bytes()
    ensures chain.refcnt == old(chain.refcnt) + 1
  {
    Pairwise(g);
    assert SoundAt(g, i);
    ghost var h := Share(g, chain.data);
    label before:
    chain.refcnt := chain.refcnt + 1;
    chain.immutable := true;
    src.g := h;
    forall x ensures SoundAt(h, x) { assert old@before(SoundAt(g, x)) && Differ(g, x, i) && Differ(g, i, x); }
    forall x, y ensures Differ(h, x, y) { assert Differ(g, x, y); }
    forall x ensures Linked(h, x) && Held(h, x) { assert old@before(Linked(g, x)) && old@before(Held(g, x)); }
  }

  /** The multicast chain t shows what chain c holds. */
  ghost predicate Shows(t: Chain, c: Chain)
    reads t`misalign, t`off, t`immutable, c`misalign, c`off
  {
    t.data == c.data && t.misalign == c.misalign && t.off == c.off && t.immutable && t.multicast
  }

  /** dst, which had the shape d, has the chain t, holding b, behind its first n chains. */
  ghost predicate Inserted(d: Shape, h: Shape, n: nat, t: Chain, b: seq<byte>) {
    && n <= |d.spine| == |d.blocks| && h == d.Cut(n).Push(t, b, {}, {t.data})
    && (if n == 0 then d.Bytes() == [] else n == d.k + 1)
  }

  /** dst gets a chain over the storage of a chain of src. */
  method InsertOver(dst: Evbuffer, src: Evbuffer, chain: Chain, ghost b: seq<byte>) returns (tmp: Chain, ghost n: nat)
    requires b != []
    requires dst != src && Pair(dst, src) && chain.Holds(b) && chain.data in src.g.shared &&
             chain.data.Length <= MAX_ALLOC
    modifies dst`first, dst`last, dst`lastWithDatap, dst`totalLen, dst`g, dst.g.cells`next, dst.g.cells`refcnt
    ensures Pair(dst, src) && dst.Contents() == old(dst.Contents()) + b
    ensures fresh(dst.g.cells - old(dst.g.cells)) && dst.g.mem == old(dst.g.mem)
    ensures dst.g.shared == old(dst.g.shared) + {chain.data}
    ensures Shows(tmp, chain) && fresh(tmp) && Inserted(old(dst.g), dst.g, n, tmp, b)
  {
    tmp := new Chain.Over(chain.data, chain.misalign, chain.off, true);
    forall j ensures tmp.At(b, j) { assert chain.At(b, j); }
    ghost var d := dst.g;
    n := ChainInsert(dst, tmp, b, {}, {chain.data});
    if n == 0 { CutToNone(d, tmp, b); }
  }

  lemma CutToNone(d: Shape, t: Chain, b: seq<byte>)
    requires d.Cut(0).Push(t, b, {}, {t.data}).Bytes() == d.Bytes() + b
    ensures d.Bytes() == []
  {
    assert d.Cut(0).Push(t, b, {}, {t.data}).blocks == [] + [b];
    FlatPush([], b);
  }

  /** One round of APPEND_CHAIN_MULTICAST: chain i of src is shared with dst. */
  method ShareChain(dst: Evbuffer, src: Evbuffer, chain: Chain, ghost i: nat) returns (tmp: Chain, ghost n: nat)
    requires chain.off > 0
    requires dst != src && Pair(dst, src) && i < |src.g.spine| && chain == src.g.spine[i]
    modifies dst`first, dst`last, dst`lastWithDatap, dst`totalLen, dst`g, dst.g.cells`next, dst.g.cells`refcnt
    modifies src`g, chain`refcnt, chain`immutable
    ensures Pair(dst, src) && |src.g.blocks| == |src.g.spine|
    ensures src.g == Share(old(src.g), chain.data)
    ensures dst.Contents() == old(dst.Contents()) + src.g.blocks[i]
    ensures fresh(dst.g.cells - old(dst.g.cells)) && dst.g.mem == old(dst.g.mem)
    ensures dst.g.shared == old(dst.g.shared) + {chain.data}
    ensures chain.refcnt == old(chain.refcnt) + 1
    ensures Shows(tmp, chain) && fresh(tmp) && Inserted(old(dst.g), dst.g, n, tmp, src.g.blocks[i])
  {
    ghost var g := src.g;
    assert SoundAt(g, i);
    MarkShared(src, chain, g, i);
    assert SoundAt(src.g, i);
    tmp, n := InsertOver(dst, src, chain, g.blocks[i]);
  }

  /** Chain i lies within the first n and has data, so it has been shared. */
  ghost predicate SharedUpTo(g: Shape, h: Shape, n: nat) {
    && h.spine == g.spine && h.blocks == g.blocks && h.k == g.k && h.cells == g.cells
    && h.mem <= g.mem && g.shared <= h.shared <= g.shared + g.mem
    && (forall i | 0 <= i < n && i < |g.spine| && i < |g.blocks| && g.blocks[i] != [] :: g.spine[i].data in h.shared)
  }

  /** The first i chains of src, which had the shape g, have been shared; d was the shape of dst. */
  ghost predicate Multicasting(dst: Evbuffer, src: Evbuffer, d: Shape, g: Shape, i: nat)
    reads dst, src, dst.g.cells, dst.g.mem, dst.g.shared, src.g.cells, src.g.mem, src.g.shared
  {
    && Pair(dst, src) && SharedUpTo(g, src.g, i) && i <= |g.blocks| == |g.spine|
    && dst.Contents() == d.Bytes() + Flat(g.blocks[..i])
    && dst.g.mem == d.mem && dst.g.shared - d.shared <= src.g.shared
  }

  /** The chains with data among the first n. */
  ghost function Solid(g: Shape, n: nat): seq<Chain>
    requires n <= |g.spine| == |g.blocks|
  {
    if n == 0 then []
    else Solid(g, n - 1) + if g.blocks[n - 1] != [] then [g.spine[n - 1]] else []
  }

  ghost predicate ShowsAt(news: seq<Chain>, olds: seq<Chain>, j: int)
    reads set c | c in news, set c | c in olds
  {
    0 <= j < |news| && j < |olds| ==> Shows(news[j], olds[j])
  }

  /** Each of the new chains shows the chain in the same place of the other list. */
  ghost predicate Showing(news: seq<Chain>, olds: seq<Chain>)
    reads set c | c in news, set c | c in olds
  {
    |news| == |olds| && forall j :: ShowsAt(news, olds, j)
  }

  /** Behind the first m chains of d, where only empty ones were left out, h has the new chains. */
  ghost predicate Extends(d: Shape, h: Shape, m: nat, news: seq<Chain>) {
    && m <= |d.spine| && h.spine == d.spine[..m] + news
    && (if news == [] then h == d && m == |d.spine|
        else (if m == 0 then d.Bytes() == [] else m == d.k + 1) && h.k + 1 == |h.spine| && h.Bytes() != [])
  }

  lemma SharedNext(g: Shape, h: Shape, i: nat)
    requires SharedUpTo(g, h, i) && i < |g.spine| == |g.blocks|
    ensures g.blocks[i] == [] ==> SharedUpTo(g, h, i + 1)
    ensures g.spine[i].data in h.mem + h.shared ==> SharedUpTo(g, Share(h, g.spine[i].data), i + 1)
  {
  }

  lemma SharedNone(g: Shape)
    ensures SharedUpTo(g, g, 0)
  {
  }

  lemma SameLists(g: Shape, h: Shape, i: nat)
    requires SharedUpTo(g, h, i)
    ensures h.spine == g.spine && h.blocks == g.blocks && h.cells == g.cells
  {
  }

  lemma ExtendsNext(d: Shape, g: Shape, h: Shape, m: nat, news: seq<Chain>, n: nat, t: Chain, b: seq<byte>)
    requires Extends(d, g, m, news) && Inserted(g, h, n, t, b) && b != [] && h.Bytes() == g.Bytes() + b
    ensures Extends(d, h, if news == [] then n else m, news + [t])
  {
    if news != [] {
      assert n == |g.spine|;
      assert h.spine == d.spine[..m] + (news + [t]);
    }
  }

  /** How many references more chain x gets. */
  function More(g: Shape, x: nat, n: nat): nat
    requires x < |g.blocks|
  {
    if x < n && g.blocks[x] != [] then 1 else 0
  }

  /** One round of the loop of APPEND_CHAIN_MULTICAST. */
  method MulticastRound(dst: Evbuffer, src: Evbuffer, chain: Chain, ghost d: Shape, ghost g: Shape, ghost i: nat,
                        ghost m: nat, ghost news: seq<Chain>)
    returns (ghost m': nat, ghost news': seq<Chain>)
    requires dst != src && Multicasting(dst, src, d, g, i) && i < |g.spine| && chain == g.spine[i]
    requires Extends(d, dst.g, m, news)
    modifies dst`first, dst`last, dst`lastWithDatap, dst`totalLen, dst`g, dst.g.cells`next, dst.g.cells`refcnt
    modifies src`g, chain`refcnt, chain`immutable
    ensures Multicasting(dst, src, d, g, i + 1)
    ensures fresh(dst.g.cells - old(dst.g.cells))
    ensures chain.refcnt == old(chain.refcnt) + (if g.blocks[i] == [] then 0 else 1)
    ensures chain.next == if i + 1 < |g.spine| then g.spine[i + 1] else null
    ensures src.g.cells == old(src.g.cells) && dst.g.cells !! src.g.cells
    ensures Extends(d, dst.g, m', news')
    ensures if g.blocks[i] == [] then news' == news
            else |news'| == |news| + 1 && news'[..|news|] == news && Shows(news'[|news|], chain)
  {
    hide SharedUpTo, LastData, Differ;
    SharedNext(g, src.g, i);
    SameLists(g, src.g, i);
    assert SoundAt(src.g, i) && Linked(src.g, i);
    assert g.blocks[..i + 1] == g.blocks[..i] + [g.blocks[i]];
    FlatPush(g.blocks[..i], g.blocks[i]);
    hide Extends, Inserted, Shows;
    m', news' := m, news;
    if chain.off != 0 {
      ghost var h := dst.g;
      var tmp;
      ghost var n;
      tmp, n := ShareChain(dst, src, chain, i);
      ExtendsNext(d, h, dst.g, m, news, n, tmp, g.blocks[i]);
      m', news' := if news == [] then n else m, news + [tmp];
    }
  }

  lemma CastValid(dst: Evbuffer, src: Evbuffer, d: Shape, g: Shape, i: nat)
    requires Multicasting(dst, src, d, g, i)
    ensures dst.Valid() && src.Valid() && i <= |g.spine| == |g.blocks|
  {
  }

  /** The new chains are of dst, and so no chains of src. */
  lemma NewsOf(dst: Evbuffer, d: Shape, m: nat, news: seq<Chain>)
    requires dst.Valid() && Extends(d, dst.g, m, news)
    ensures forall t | t in news :: t in dst.g.cells
  {
    forall t | t in news ensures t in dst.g.cells {
      var j :| 0 <= j < |news| && news[j] == t;
      assert Linked(dst.g, m + j) && dst.g.spine[m + j] == t;
    }
  }

  /** Before the loop. */
  lemma MulticastStart(dst: Evbuffer, src: Evbuffer)
    requires dst != src && Pair(dst, src)
    ensures var d, g := dst.g, src.g;
      && |g.spine| == |g.blocks| && Multicasting(dst, src, d, g, 0) && dst.g.cells !! g.cells
      && Extends(d, d, |d.spine|, []) && Showing([], Solid(g, 0))
      && (forall x | 0 <= x < |g.spine| :: g.spine[x] in g.cells) && (forall x, y :: Differ(g, x, y))
      && src.first == if 0 < |g.spine| then g.spine[0] else null
  {
    var d, g := dst.g, src.g;
    assert g.blocks[..0] == [] && d.spine[..|d.spine|] + [] == d.spine;
    SharedNone(g);
    forall x | 0 <= x < |g.spine| ensures g.spine[x] in g.cells { assert Linked(g, x); }
  }

  /** APPEND_CHAIN_MULTICAST */
  method AppendMulticast(dst: Evbuffer, src: Evbuffer) returns (ghost m: nat, ghost news: seq<Chain>)
    requires dst != src && Pair(dst, src)
    modifies dst`first, dst`last, dst`lastWithDatap, dst`totalLen, dst`g, dst.g.cells`next, dst.g.cells`refcnt
    modifies src`g, src.g.cells`refcnt, src.g.cells`immutable
    ensures Multicasting(dst, src, old(dst.g), old(src.g), |old(src.g.blocks)|)
    ensures fresh(dst.g.cells - old(dst.g.cells))
    ensures |old(src.g.spine)| == |old(src.g.blocks)|
    ensures forall x | 0 <= x < |old(src.g.spine)| ::
              old(src.g.spine)[x].refcnt == old(src.g.spine[x].refcnt) + More(old(src.g), x, |old(src.g.blocks)|)
    ensures Extends(old(dst.g), dst.g, m, news) && Showing(news, Solid(old(src.g), |old(src.g.spine)|))
  {
    hide Multicasting, Extends, Showing, Solid, Pair;
    ghost var d, g := dst.g, src.g;
    MulticastStart(dst, src);
    Pairwise(g);
    var chain := src.first;
    ghost var i := 0;
    m, news := |d.spine|, [];
    while chain != null
      invariant i <= |g.spine| == |g.blocks| && src.g.cells == g.cells
      invariant Multicasting(dst, src, d, g, i) && chain == if i < |g.spine| then g.spine[i] else null
      invariant fresh(dst.g.cells - d.cells) && dst.g.cells !! g.cells
      invariant forall x | 0 <= x < |g.spine| :: g.spine[x].refcnt == old(g.spine[x].refcnt) + More(g, x, i)
      invariant Extends(d, dst.g, m, news) && Showing(news, Solid(g, i))
      decreases |g.spine| - i
    {
      m, news := NextShown(dst, src, chain, d, g, i, m, news);
      chain, i := chain.next, i + 1;
    }
  }

  /** MulticastRound, and what the chains show that were new before it. */
  method NextShown(dst: Evbuffer, src: Evbuffer, chain: Chain, ghost d: Shape, ghost g: Shape, ghost i: nat,
                   ghost m: nat, ghost news: seq<Chain>)
    returns (ghost m': nat, ghost news': seq<Chain>)
    requires dst != src && Multicasting(dst, src, d, g, i) && i < |g.spine| && chain == g.spine[i]
    requires Extends(d, dst.g, m, news) && Showing(news, Solid(g, i)) && src.g.cells == g.cells &&
             dst.g.cells !! g.cells
    requires forall x | 0 <= x < |g.spine| :: g.spine[x] in g.cells
    modifies dst`first, dst`last, dst`lastWithDatap, dst`totalLen, dst`g, dst.g.cells`next, dst.g.cells`refcnt
    modifies src`g, chain`refcnt, chain`immutable
    ensures Multicasting(dst, src, d, g, i + 1)
    ensures fresh(dst.g.cells - old(dst.g.cells))
    ensures chain.refcnt == old(chain.refcnt) + (if g.blocks[i] == [] then 0 else 1)
    ensures chain.next == if i + 1 < |g.spine| then g.spine[i + 1] else null
    ensures src.g.cells == old(src.g.cells) && dst.g.cells !! src.g.cells
    ensures Extends(d, dst.g, m', news') && Showing(news', Solid(g, i + 1))
  {
    hide Multicasting, Extends, SharedUpTo, Pair;
    CastValid(dst, src, d, g, i);
    NewsOf(dst, d, m, news);
    ghost var olds := Solid(g, i);
    m', news' := MulticastRound(dst, src, chain, d, g, i, m, news);
    ghost var all := Solid(g, i + 1);
    forall j ensures ShowsAt(news', all, j) {
      assert old(ShowsAt(news, olds, j));
      if 0 <= j < |news| { assert news'[j] == news'[..|news|][j] == news[j]; }
    }
  }

  /** evbuffer_add_buffer_reference refuses. */
  ghost predicate Refuses(outbuf: Evbuffer, inbuf: Evbuffer)
    reads outbuf, inbuf
  {
    inbuf.Contents() != [] && (outbuf.freezeEnd || outbuf == inbuf || exists c :: c in inbuf.g.spine && c.multicast)
  }

  /** evbuffer_add_buffer_reference frees chains of outbuf that stay in its list. */
  ghost predicate Dangles(outbuf: Evbuffer, inbuf: Evbuffer)
    reads outbuf, inbuf
  {
    inbuf.Contents() != [] && !Refuses(outbuf, inbuf) && outbuf.Contents() == [] && outbuf.g.spine != []
  }

  /** evbuffer_add_buffer_reference. The bytes of inbuf are appended to outbuf, and from now on neither
      of the two buffers may write the storage they share. The chains of an outbuf without data are freed,
      but stay in its list: dangling says that there were some, and the model ends there. */
  method AddBufferReference(outbuf: Evbuffer, inbuf: Evbuffer)
    returns (r: int, dangling: bool, ghost m: nat, ghost news: seq<Chain>)
    requires Pair(outbuf, inbuf)
    modifies outbuf`first, outbuf`last, outbuf`lastWithDatap, outbuf`totalLen, outbuf`g, outbuf.g.cells`next,
             outbuf.g.cells`refcnt
    modifies inbuf`g, inbuf.g.cells`refcnt, inbuf.g.cells`immutable
    ensures r == if old(Refuses(outbuf, inbuf)) then -1 else 0
    ensures dangling <==> old(Dangles(outbuf, inbuf))
    ensures dangling ==> outbuf.g == old(outbuf.g) && outbuf.first == old(outbuf.first)
    ensures dangling ==>
              forall x | 0 <= x < |outbuf.g.spine| :: outbuf.g.spine[x].refcnt == old(outbuf.g.spine[x].refcnt) - 1
    ensures inbuf.Contents() == old(inbuf.Contents()) && (!dangling ==> Pair(outbuf, inbuf))
    ensures !dangling ==> outbuf.Contents() == old(outbuf.Contents()) + if r == 0 then old(inbuf.Contents()) else []
    ensures !dangling && r == 0 ==> SharedUpTo(old(inbuf.g), inbuf.g, |old(inbuf.g.spine)|)
    ensures |old(inbuf.g.spine)| == |old(inbuf.g.blocks)|
    ensures !dangling && r == 0 ==>
              forall x | 0 <= x < |old(inbuf.g.spine)| ::
                old(inbuf.g.spine)[x].refcnt ==
                  old(inbuf.g.spine[x].refcnt) + More(old(inbuf.g), x, |old(inbuf.g.spine)|)
    ensures !dangling && r == 0 && old(inbuf.Contents()) != [] ==>
              Extends(old(outbuf.g), outbuf.g, m, news) && Showing(news, Solid(old(inbuf.g), |old(inbuf.g.spine)|))
    ensures !dangling && r == 0 ==> outbuf.g.shared - old(outbuf.g.shared) <= inbuf.g.shared
    ensures fresh(outbuf.g.cells - old(outbuf.g.cells)) && outbuf.g.mem <= old(outbuf.g.mem)
  {
    hide Extends, Showing, Solid, SharedUpTo;
    m, news := 0, [];
    ghost var g := inbuf.g;
    assert g.blocks[..|g.blocks|] == g.blocks;
    dangling := false;
    if inbuf.totalLen == 0 {
      AllEmpty(g);
      return 0, false, 0, [];
    }
    if outbuf.freezeEnd || outbuf == inbuf {
      return -1, false, 0, [];
    }
    var bad := HasMulticast(inbuf);
    if bad {
      return -1, false, 0, [];
    }
    if outbuf.totalLen == 0 {
      dangling := FreeWithoutReset(outbuf);
      if dangling {
        return 0, true, 0, [];
      }
    }
    m, news := AppendMulticast(outbuf, inbuf);
    SameLists(g, inbuf.g, |g.blocks|);
    r := 0;
  }

  /** evbuffer_free_all_chains, on a buffer whose list is not reset. */
  method FreeWithoutReset(buf: Evbuffer) returns (some: bool)
    requires buf.Valid()
    modifies buf.g.cells`refcnt
    ensures some <==> buf.g.spine != []
    ensures !some ==> unchanged(buf.g.cells)
    ensures forall x | 0 <= x < |buf.g.spine| :: buf.g.spine[x].refcnt == old(buf.g.spine[x].refcnt) - 1
  {
    if buf.first == null {
      return false;
    }
    FreeAllChains(buf.first, buf.g, 0);
    some := true;
  }

  lemma AllEmpty(g: Shape)
    requires Sound(g) && g.Bytes() == []
    ensures SharedUpTo(g, g, |g.spine|) && forall x | 0 <= x < |g.spine| :: More(g, x, |g.spine|) == 0
  {
    NoData(g);
    assert LastData(g.blocks, 0);
    if g.blocks != [] { assert g.blocks[0] == []; }
  }

  /** A buffer that was expanded and has no data yet. */
  method ExpandedBuffer() returns (buf: Evbuffer)
    ensures fresh(buf) && fresh(buf.g.cells) && fresh(buf.g.mem) && buf.g.shared == {}
    ensures buf.Valid() && buf.Contents() == [] && buf.g.spine != [] && !buf.freezeEnd
  {
    buf := new Evbuffer();
    var r := Expand(buf, 1);
  }

  /** Its chain is freed, and stays in the list. */
  method ExpandedDangles() returns (dangling: bool)
    ensures dangling
  {
    hide Spine, Piled, LastData;
    var outbuf := ExpandedBuffer();
    var inbuf := BufferOf([1]);
    var r;
    ghost var m, news;
    r, dangling, m, news := AddBufferReference(outbuf, inbuf);
  }

  /** Is there a chain that cannot be referenced again? */
  method HasMulticast(buf: Evbuffer) returns (bad: bool)
    requires buf.Valid()
    ensures bad <==> exists c :: c in buf.g.spine && c.multicast
  {
    ghost var g := buf.g;
    var chain := buf.first;
    ghost var i := 0;
    while chain != null
      invariant i <= |g.spine| && chain == if i < |g.spine| then g.spine[i] else null
      invariant forall x | 0 <= x < i :: !g.spine[x].multicast
      decreases |g.spine| - i
    {
      assert Linked(g, i);
      if chain.multicast {
        return true;
      }
      chain, i := chain.next, i + 1;
    }
    bad := false;
  }

  /** The first chain of outbuf, after the bytes of inbuf were added to it by reference. */
  lemma FirstShown(g: Shape, d: Shape, h: Shape, m: nat, news: seq<Chain>)
    requires |g.spine| == |g.blocks| == 1 && g.blocks[0] != []
    requires Extends(d, h, m, news) && Showing(news, Solid(g, 1))
    ensures h.spine != []
    ensures d.spine == [] ==> Shows(h.spine[0], g.spine[0])
    ensures d.Bytes() != [] && d.spine != [] ==> h.spine[0] == d.spine[0]
  {
    assert Solid(g, 0) == [] && Solid(g, 1) == [g.spine[0]];
    assert ShowsAt(news, Solid(g, 1), 0);
  }

  /** A new buffer with the bytes d, in one chain that has room behind them. */
  method BufferOf(d: seq<byte>) returns (buf: Evbuffer)
    requires 0 < |d| <= 100
    ensures fresh(buf) && fresh(buf.g.cells) && fresh(buf.g.mem) && buf.g.shared == {}
    ensures buf.Valid() && buf.Contents() == d && Alone(buf.g, d)
  {
    buf := new Evbuffer();
    var r := Add(buf, d);
    assert [] + d == d;
  }

  /** What is known of dst once it has the two bytes. */
  ghost predicate ShowsTwo(dst: Evbuffer)
    reads dst, dst.g.cells, dst.g.mem, dst.g.shared
  {
    && dst.Valid() && !dst.freezeEnd && |dst.Contents()| == 2 && |dst.g.spine| == |dst.g.blocks| == 1
    && dst.g.spine[0] in dst.g.cells
    && var c := dst.g.spine[0]; c.immutable && c.misalign == 0 && c.off == 2 && c.data.Length == 976
  }

  lemma PairValid(dst: Evbuffer, src: Evbuffer)
    requires Pair(dst, src)
    ensures dst.Valid() && src.Valid()
  {
  }

  lemma OneSpine(dst: Evbuffer)
    requires dst.Valid() && |dst.g.spine| == 1
    ensures |dst.g.blocks| == 1 && dst.g.spine[0] in dst.g.cells
  {
    assert SoundAt(dst.g, 0);
  }

  /** A reference to two bytes that have room behind them. */
  method ReferToTwo() returns (dst: Evbuffer)
    ensures fresh(dst) && fresh(dst.g.cells) && fresh(dst.g.mem) && ShowsTwo(dst)
  {
    hide Spine, LastData, Piled, Extends, Showing, Solid;
    var a := BufferOf([1, 2]);
    dst := new Evbuffer();
    ghost var d, g := dst.g, a.g;
    OneBlock(a);
    assert Pair(dst, a);
    hide Pair, SharedUpTo;
    var r, dangling;
    ghost var m, news;
    r, dangling, m, news := AddBufferReference(dst, a);
    PairValid(dst, a);
    FirstShown(g, d, dst.g, m, news);
    OneShown(g, d, dst.g, m, news);
    OneSpine(dst);
  }

  lemma OneBlock(a: Evbuffer)
    requires a.Valid() && |a.g.spine| == 1
    ensures |a.g.blocks| == 1 && a.g.spine[0].off == |a.g.blocks[0]|
  {
    assert SoundAt(a.g, 0);
  }

  lemma OneShown(g: Shape, d: Shape, h: Shape, m: nat, news: seq<Chain>)
    requires |g.spine| == |g.blocks| == 1 && d.spine == []
    requires Extends(d, h, m, news) && Showing(news, Solid(g, 1))
    ensures |h.spine| <= 1
  {
    assert Solid(g, 0) == [];
  }

  lemma Across(dst: Evbuffer, c: Chain)
    requires dst.Valid() && dst.g.spine != [] && dst.g.spine[0] == c && |dst.Contents()| == 3
    requires c.immutable && c.misalign == 0 && c.off == 2 && c.data.Length == 976
    ensures Intrudes(dst, 3)
  {
    assert SoundAt(dst.g, 0);
  }

  /** Two buffers are added by reference to a third one. */
  method ReferToThree() returns (dst: Evbuffer)
    ensures fresh(dst) && fresh(dst.g.cells) && fresh(dst.g.mem) && dst.Valid() && Intrudes(dst, 3)
  {
    hide Spine, LastData, Piled, Intrudes, Extends, Showing, Solid, More;
    dst := ReferToTwo();
    var b := BufferOf([3]);
    ghost var d, g := dst.g, b.g;
    OneBlock(b);
    assert Pair(dst, b);
    hide Pair, SharedUpTo;
    var r, dangling;
    ghost var m, news;
    r, dangling, m, news := AddBufferReference(dst, b);
    PairValid(dst, b);
    FirstShown(g, d, dst.g, m, news);
    Across(dst, d.spine[0]);
  }

  /** A pullup across them writes into the storage of the first. */
  method SharedPullup() returns (intrudes: bool)
    ensures intrudes
  {
    hide Spine, LastData, Piled, Intrudes;
    var dst := ReferToThree();
    var c;
    ghost var start, stop;
    c, intrudes, start, stop := Pullup(dst, 3);
  }

  datatype Write = Append(d: seq<byte>) | Prefix(d: seq<byte>) | Take(n: nat)

  method SourceAppend(dst: Evbuffer, src: Evbuffer, d: seq<byte>)
    requires dst != src && Pair(dst, src)
    modifies src`first, src`last, src`lastWithDatap, src`totalLen, src`g, src.g.cells, src.g.mem
    ensures Pair(dst, src)
  {
    var r := Add(src, d);
  }

  method SourcePrepend(dst: Evbuffer, src: Evbuffer, d: seq<byte>)
    requires dst != src && Pair(dst, src)
    modifies src`first, src`last, src`lastWithDatap, src`totalLen, src`g, src.g.cells, src.g.mem
    ensures Pair(dst, src)
  {
    var r;
    ghost var n;
    r, n := Prepend(src, d, true);
  }

  method SourceDrain(dst: Evbuffer, src: Evbuffer, len: nat)
    requires dst != src && Pair(dst, src)
    modifies src`first, src`last, src`lastWithDatap, src`totalLen, src`g, src.g.cells`misalign, src.g.cells`off,
             src.g.cells`refcnt
    ensures Pair(dst, src)
  {
    var r;
    ghost var n;
    r, n := Drain(src, len);
  }

  /** No append, prepend or drain on the source changes what a referencing buffer holds. */
  method SourceWrites(dst: Evbuffer, src: Evbuffer, w: Write)
    requires dst != src && Pair(dst, src)
    modifies src`first, src`last, src`lastWithDatap, src`totalLen, src`g, src.g.cells, src.g.mem
    ensures Pair(dst, src) && dst.g == old(dst.g) && dst.Contents() == old(dst.Contents())
  {
    match w
    case Append(d) => SourceAppend(dst, src, d);
    case Prefix(d) => SourcePrepend(dst, src, d);
    case Take(n) => SourceDrain(dst, src, n);
  }
}
