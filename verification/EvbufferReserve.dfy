/** evbuffer_expand, evbuffer_reserve_space and evbuffer_commit_space. */
module EvbufferReserve {
  import opened Basics
  import opened Chains
  import opened EvbufferEnds
  import opened EvbufferMove
  import opened EvbufferPullup
  import opened EvbufferExpand

  // ----- evbuffer_expand_singlechain

  /** What evbuffer_expand_singlechain promises of the chain it returns. */
  ghost predicate Roomy(buf: Evbuffer, c: Chain, i: nat, datlen: nat)
    reads buf, c`immutable, c`misalign, c`off
  {
    buf.g.k <= i < |buf.g.spine| && c == buf.g.spine[i] && !c.immutable && SpaceLen(c) >= datlen
  }

  /** *chainp = tmp in place of chain k, which is freed. */
  method SwapLink(buf: Evbuffer, chain: Chain, tmp: Chain, ghost g: Shape, ghost h: Shape)
    requires Spine(buf.first, g) && g.k < |g.spine| && chain == g.spine[g.k] && buf.lastWithDatap == g.Pred()
    requires forall x, y :: Differ(g, x, y)
    requires tmp !in g.cells && tmp.refcnt > 0 && h.spine == g.spine[g.k := tmp] && h.cells == g.cells + {tmp}
    modifies buf`first, g.cells`next, chain`refcnt, tmp`next
    ensures Spine(buf.first, h) && chain.refcnt == old(chain.refcnt) - 1
  {
    Pairwise(g);
    assert Linked(g, g.k) && Linked(g, g.k - 1) && Held(g, g.k);
    label before:
    if buf.lastWithDatap == null { buf.first := tmp; } else { buf.lastWithDatap.next := tmp; }
    tmp.next := chain.next;
    chain.refcnt := chain.refcnt - 1;
    forall i ensures Linked(h, i) { assert old@before(Linked(g, i)) && old@before(Linked(g, i + 1)); }
    forall i ensures Held(h, i) { assert old@before(Held(g, i)); }
  }

  method ReplaceLink(buf: Evbuffer, chain: Chain, tmp: Chain, ghost g: Shape, ghost h: Shape)
    requires Spine(buf.first, g) && g.k < |g.spine| && chain == g.spine[g.k] && buf.lastWithDatap == g.Pred() &&
             buf.last == g.Last()
    requires forall x, y :: Differ(g, x, y)
    requires tmp !in g.cells && tmp.refcnt > 0
    requires h.spine == g.spine[g.k := tmp] && h.cells == g.cells + {tmp} && h.k == g.k && Sound(h)
    modifies buf`first, buf`last, buf`g, g.cells`next, chain`refcnt, tmp`next
    ensures Spine(buf.first, h) && Sound(h) && buf.g == h && buf.last == h.Last() && buf.lastWithDatap == h.Pred()
    ensures chain.refcnt == old(chain.refcnt) - 1
  {
    Pairwise(g);
    if buf.last == chain { buf.last := tmp; }
    SwapLink(buf, chain, tmp, g, h);
    buf.g := h;
  }

  lemma SoundReplace(g: Shape, c: Chain, h: Shape)
    requires Sound(g) && g.k < |g.spine| && Joins(c, g.blocks[g.k], {c.data}, {}, g)
    requires h == g.(spine := g.spine[g.k := c], cells := g.cells + {c}, mem := g.mem + {c.data})
    ensures Sound(h)
  {
    forall i ensures SoundAt(h, i) { assert SoundAt(g, i); }
    forall i, j ensures Differ(h, i, j) { assert Differ(g, i, j) && SoundAt(g, i) && SoundAt(g, j); }
  }

  /** The part of evbuffer_expand_singlechain that moves the data into a larger chain. */
  method Resize(buf: Evbuffer, chain: Chain, datlen: nat) returns (tmp: Chain?)
    requires buf.Valid() && buf.g.k < |buf.g.spine| && chain == buf.g.spine[buf.g.k]
    modifies buf`first, buf`last, buf`g, buf.g.cells`next, buf.g.cells`refcnt
    ensures buf.Valid() && buf.Contents() == old(buf.Contents())
    ensures tmp == null <==> old(chain.off) + datlen > MAX_ALLOC
    ensures tmp != null ==> Roomy(buf, tmp, old(buf.g.k), datlen) && fresh(tmp) && fresh(tmp.data)
    ensures tmp != null ==> buf.g.k == old(buf.g.k) && |buf.g.spine| == |old(buf.g.spine)|
    ensures fresh(buf.g.cells - old(buf.g.cells)) && fresh(buf.g.mem - old(buf.g.mem)) &&
            buf.g.shared == old(buf.g.shared)
  {
    ghost var g := buf.g;
    assert SoundAt(g, g.k);
    ghost var b := g.blocks[g.k];
    var d := Peek(chain, chain.off, b);
    assert b[..|b|] == b;
    tmp := ChainNewWith(chain.off + datlen, d);
    if tmp != null {
      ghost var h := g.(spine := g.spine[g.k := tmp], cells := g.cells + {tmp}, mem := g.mem + {tmp.data});
      SoundReplace(g, tmp, h);
      ReplaceLink(buf, chain, tmp, g, h);
    }
  }

  /** insert_new: a new chain behind the last one with data. */
  method InsertRoomy(buf: Evbuffer, datlen: nat) returns (c: Chain?, ghost i: nat)
    requires buf.Valid()
    modifies buf`first, buf`last, buf`lastWithDatap, buf`totalLen, buf`g, buf.g.cells`next, buf.g.cells`refcnt
    ensures buf.Valid() && buf.Contents() == old(buf.Contents())
    ensures c == null <==> datlen > MAX_ALLOC
    ensures c != null ==> Roomy(buf, c, i, datlen) && i == |buf.g.spine| - 1
    ensures fresh(buf.g.cells - old(buf.g.cells)) && fresh(buf.g.mem - old(buf.g.mem)) &&
            buf.g.shared == old(buf.g.shared)
  {
    ghost var m;
    c, m := ChainInsertNew(buf, datlen);
    i := if c == null then 0 else m;
  }

  /** The last chain with data is not worth resizing and the next one, which is not the last, has the room. */
  ghost predicate Strands(g: Shape, datlen: nat)
    reads g.cells`misalign, g.cells`off, g.cells`immutable
  {
    && g.k + 2 < |g.spine| && g.spine[g.k] in g.cells && g.spine[g.k + 1] in g.cells
    && var c := g.spine[g.k];
    && !c.immutable && c.off > 0 && 0 < SpaceLen(c) < datlen && !ShouldRealign(c, datlen)
    && (SpaceLen(c) < c.data.Length / 8 || c.off > MAX_TO_COPY_IN_EXPAND || datlen >= CHAIN_MAX - c.off)
    && SpaceLen(g.spine[g.k + 1]) >= datlen
  }

  /** Resizing the last chain with data is not worth it: can the next one be used? */
  method ExpandNext(buf: Evbuffer, chain: Chain, datlen: nat) returns (c: Chain?, ghost i: nat)
    requires buf.Valid() && buf.g.k < |buf.g.spine| && chain == buf.g.spine[buf.g.k]
    requires !chain.immutable && chain.off > 0 && 0 < SpaceLen(chain) < datlen
    modifies buf`first, buf`last, buf`lastWithDatap, buf`totalLen, buf`g, buf.g.cells`next, buf.g.cells`refcnt
    ensures buf.Valid() && buf.Contents() == old(buf.Contents())
    ensures c == null ==> datlen > MAX_ALLOC
    ensures c != null ==> Roomy(buf, c, i, datlen)
    ensures c != null ==>
              i == |buf.g.spine| - 1 || (i == FirstFree(buf.g) + 1 && i + 1 < |buf.g.spine| && buf.g == old(buf.g))
    ensures c != null && i < |buf.g.spine| - 1 ==>
              old(buf.g.k + 1 < |buf.g.spine| && SpaceLen(buf.g.spine[buf.g.k + 1]) >= datlen)
    ensures c != null && old(buf.g.k + 2 < |buf.g.spine| && SpaceLen(buf.g.spine[buf.g.k + 1]) >= datlen) ==>
              i < |buf.g.spine| - 1
    ensures fresh(buf.g.cells - old(buf.g.cells)) && fresh(buf.g.mem - old(buf.g.mem)) &&
            buf.g.shared == old(buf.g.shared)
  {
    ghost var g := buf.g;
    assert SoundAt(g, g.k) && SoundAt(g, g.k + 1) && Linked(g, g.k);
    if chain.next != null && SpaceLen(chain.next) >= datlen {
      c, i := chain.next, g.k + 1;
    } else {
      c, i := InsertRoomy(buf, datlen);
    }
  }

  /** The part of evbuffer_expand_singlechain for a chain with data whose free space is too small. */
  method ExpandBusy(buf: Evbuffer, chain: Chain, datlen: nat) returns (c: Chain?, ghost i: nat)
    requires buf.Valid() && buf.g.k < |buf.g.spine| && chain == buf.g.spine[buf.g.k]
    requires !chain.immutable && chain.off > 0 && 0 < SpaceLen(chain) < datlen
    modifies buf`first, buf`last, buf`lastWithDatap, buf`totalLen, buf`g, buf.g.cells, buf.g.mem
    ensures buf.Valid() && buf.Contents() == old(buf.Contents())
    ensures c != null ==> Roomy(buf, c, i, datlen)
    ensures c == null ==> datlen + MAX_TO_COPY_IN_EXPAND > MAX_ALLOC
    ensures c != null ==> (i == |buf.g.spine| - 1 || i == FirstFree(buf.g) <==> !old(Strands(buf.g, datlen)))
    ensures fresh(buf.g.cells - old(buf.g.cells)) && fresh(buf.g.mem - old(buf.g.mem)) &&
            buf.g.shared == old(buf.g.shared)
  {
    i := buf.g.k;
    assert SoundAt(buf.g, i) && SoundAt(buf.g, i + 1);
    hide Spine, LastData;
    if ShouldRealign(chain, datlen) {
      Realign(buf, chain, buf.g.k);
      assert SoundAt(buf.g, i);
      c := chain;
    } else if SpaceLen(chain) < chain.data.Length / 8 || chain.off > MAX_TO_COPY_IN_EXPAND ||
              datlen >= CHAIN_MAX - chain.off {
      c, i := ExpandNext(buf, chain, datlen);
    } else {
      c := Resize(buf, chain, datlen);
      assert c != null ==> SoundAt(buf.g, i);
    }
  }

  /** Only a chain with data and too little space can make the next one be used. */
  lemma NotStranded(g: Shape, f: nat, datlen: nat)
    requires Sound(g) && f == FirstFree(g)
    requires f < |g.spine| ==> g.spine[f] in g.cells
    ensures f >= |g.spine| || g.spine[f].immutable || g.spine[f].off == 0 || SpaceLen(g.spine[f]) >= datlen ==>
              !Strands(g, datlen)
  {
    assert SoundAt(g, g.k);
  }

  /** evbuffer_expand_singlechain: one of the last chains, with room for datlen bytes. */
  method ExpandSingle(buf: Evbuffer, datlen: nat) returns (c: Chain?, ghost i: nat)
    requires buf.Valid()
    modifies buf`first, buf`last, buf`lastWithDatap, buf`totalLen, buf`g, buf.g.cells, buf.g.mem
    ensures buf.Valid() && buf.Contents() == old(buf.Contents())
    ensures c != null ==> Roomy(buf, c, i, datlen)
    ensures c == null ==> datlen + MAX_TO_COPY_IN_EXPAND > MAX_ALLOC
    ensures c != null ==> (i == |buf.g.spine| - 1 || i == FirstFree(buf.g) <==> !old(Strands(buf.g, datlen)))
    ensures fresh(buf.g.cells - old(buf.g.cells)) && fresh(buf.g.mem - old(buf.g.mem)) &&
            buf.g.shared == old(buf.g.shared)
  {
    var chain, chainp := null, null;
    if buf.last != null { chain, chainp := FirstWithSpace(buf); }
    i := FirstFree(buf.g);
    assert SoundAt(buf.g, i) && SoundAt(buf.g, buf.g.k);
    NotStranded(buf.g, i, datlen);
    if chain == null || chain.immutable || (SpaceLen(chain) < datlen && chain.off == 0) {
      c, i := InsertRoomy(buf, datlen);
    } else if SpaceLen(chain) >= datlen {
      c := chain;
    } else {
      c, i := ExpandBusy(buf, chain, datlen);
    }
  }

  /** evbuffer_expand */
  method Expand(buf: Evbuffer, datlen: nat) returns (r: int)
    requires buf.Valid()
    modifies buf`first, buf`last, buf`lastWithDatap, buf`totalLen, buf`g, buf.g.cells, buf.g.mem
    ensures buf.Valid() && buf.Contents() == old(buf.Contents())
    ensures r == 0 || (r == -1 && datlen + MAX_TO_COPY_IN_EXPAND > MAX_ALLOC)
    ensures r == 0 ==> buf.g.spine != []
    ensures fresh(buf.g.cells - old(buf.g.cells)) && fresh(buf.g.mem - old(buf.g.mem)) &&
            buf.g.shared == old(buf.g.shared)
  {
    var c;
    ghost var i;
    c, i := ExpandSingle(buf, datlen);
    r := if c != null then 0 else -1;
  }

  // ----- evbuffer_commit_space

  /** d is what was written into the stretch v, as far as that exists. */
  ghost predicate Wrote(v: Iovec, d: seq<byte>)
    reads v.base
  {
    && |d| == v.len
    && forall j | 0 <= j < v.len && v.at + j < v.base.Length :: v.base[v.at + j] == d[j]
  }

  /** chain->off += |d|, where d is already in the free space of chain i. */
  method CommitOne(chain: Chain, len: nat, ghost g: Shape, ghost i: nat, ghost d: seq<byte>)
    requires Sound(g) && g.k <= i < |g.spine| && chain == g.spine[i]
    requires len == |d| <= SpaceLen(chain) && Filled(chain.data, chain.misalign + chain.off, d)
    modifies chain`off
    ensures Sound(g.Append(i, d)) && g.Append(i, d).Bytes() == g.Bytes() + d && chain.off == old(chain.off) + len
  {
    Pairwise(g);
    SoundAppend(g, i, d);
    assert SoundAt(g, i);
    ghost var h := g.Append(i, d);
    label before:
    chain.off := chain.off + len;
    forall j ensures chain.At(h.blocks[i], j) {
      assert old@before(chain.At(g.blocks[i], j)) &&
             Placed(chain.data, chain.misalign + old@before(chain.off), d, j - |g.blocks[i]|);
    }
    forall j ensures SoundAt(h, j) { assert old@before(SoundAt(g, j)); }
    forall x, y ensures Differ(h, x, y) { assert Differ(g, x, y); }
  }

  /** Pass 1 of evbuffer_commit_space: are the stretches the free space of successive chains? */
  method CheckVecs(buf: Evbuffer, start: Chain?, vecs: seq<Iovec>, ghost f: nat) returns (ok: bool)
    requires buf.Valid() && f <= |buf.g.spine| && start == if f < |buf.g.spine| then buf.g.spine[f] else null
    ensures ok <==> Fits(buf.g, f, vecs)
  {
    ghost var g := buf.g;
    var chain := start;
    var i := 0;
    while i < |vecs|
      invariant i <= |vecs| && f + i <= |g.spine| && chain == if f + i < |g.spine| then g.spine[f + i] else null
      invariant forall x | 0 <= x < i :: VecAt(g, f, vecs, x)
    {
      assert Linked(g, f + i);
      if chain == null || !IsSpacePtr(vecs[i], chain) || vecs[i].len > SpaceLen(chain) {
        assert !VecAt(g, f, vecs, i);
        return false;
      }
      chain, i := chain.next, i + 1;
    }
    assert forall x | x < 0 || x >= |vecs| :: VecAt(g, f, vecs, x);
    ok := true;
  }

  lemma VecWritten(g: Shape, f: nat, vecs: seq<Iovec>, data: seq<seq<byte>>, x: nat)
    requires Sound(g) && x < |vecs| == |data| && VecAt(g, f, vecs, x) && Wrote(vecs[x], data[x])
    ensures var c := g.spine[f + x];
      vecs[x].len == |data[x]| <= SpaceLen(c) && Filled(c.data, c.misalign + c.off, data[x])
  {
    var c := g.spine[f + x];
    assert SoundAt(g, f + x);
    var at := c.misalign + c.off;
    forall j ensures Placed(c.data, at, data[x], j) {}
  }

  /** g is s with the first i pieces of data added. */
  ghost predicate Committed(s: Shape, g: Shape, data: seq<seq<byte>>, i: nat) {
    i <= |data| && g == s.(blocks := g.blocks, k := g.k) && g.Bytes() == s.Bytes() + Flat(data[..i])
  }

  lemma CommitGrow(s: Shape, g: Shape, data: seq<seq<byte>>, at: nat, i: nat)
    requires i < |data| && Committed(s, g, data, i) && |g.blocks| == |g.spine| && LastData(g.blocks, g.k) &&
             g.k <= at < |g.spine|
    ensures Committed(s, g.Append(at, data[i]), data, i + 1) &&
            |g.Append(at, data[i]).Bytes()| == |g.Bytes()| + |data[i]|
  {
    assert data[..i + 1] == data[..i] + [data[i]];
    FlatPush(data[..i], data[i]);
    SoundAppend(g, at, data[i]);
  }

  /** One step of pass 2 of evbuffer_commit_space. */
  method CommitStep(buf: Evbuffer, chain: Chain, chainp: Chain?, i: nat, vecs: seq<Iovec>, ghost s: Shape,
                    ghost g: Shape, ghost f: nat, ghost data: seq<seq<byte>>)
    returns (ghost h: Shape)
    requires Sound(g) && g.k <= f + i < |g.spine| && chain == g.spine[f + i] &&
             chainp == if f + i == 0 then null else g.spine[f + i - 1]
    requires i < |vecs| == |data| && (forall x | i <= x < |vecs| :: VecAt(g, f, vecs, x)) && Wrote(vecs[i], data[i])
    requires buf.lastWithDatap == g.Pred() && Committed(s, g, data, i)
    modifies buf`lastWithDatap, chain`off
    ensures Sound(h) && buf.lastWithDatap == h.Pred() && h.k <= f + i
    ensures Committed(s, h, data, i + 1) && |h.Bytes()| == |g.Bytes()| + vecs[i].len
    ensures forall x | i < x < |vecs| :: VecAt(h, f, vecs, x)
  {
    Pairwise(g);
    h := g.Append(f + i, data[i]);
    VecWritten(g, f, vecs, data, i);
    CommitGrow(s, g, data, f + i, i);
    label before:
    CommitOne(chain, vecs[i].len, g, f + i, data[i]);
    forall x | i < x < |vecs| ensures VecAt(h, f, vecs, x) { assert old@before(VecAt(g, f, vecs, x)); }
    if vecs[i].len > 0 { buf.lastWithDatap := chainp; }
  }

  /** The loop of pass 2 of evbuffer_commit_space. */
  method CommitLoop(buf: Evbuffer, start: Chain?, startp: Chain?, vecs: seq<Iovec>, ghost s: Shape, ghost f: nat,
                    ghost data: seq<seq<byte>>)
    returns (added: nat, ghost g: Shape)
    requires Spine(buf.first, s) && Sound(s) && buf.lastWithDatap == s.Pred()
    requires s.k <= f <= |s.spine| && start == if f < |s.spine| then s.spine[f] else null
    requires startp == if f == 0 then null else s.spine[f - 1]
    requires Fits(s, f, vecs)
    requires |data| == |vecs| && forall x | 0 <= x < |vecs| :: Wrote(vecs[x], data[x])
    modifies buf`lastWithDatap, s.cells`off
    ensures Sound(g) && buf.lastWithDatap == g.Pred()
    ensures Committed(s, g, data, |data|) && |g.Bytes()| == |s.Bytes()| + added
  {
    var chain, chainp, i := start, startp, 0;
    g, added := s, 0;
    assert data[..0] == [];
    while i < |vecs|
      invariant i <= |vecs| && f + i <= |s.spine| && chain == (if f + i < |s.spine| then s.spine[f + i] else null)
      invariant g.k <= f + i && chainp == if f + i == 0 then null else s.spine[f + i - 1]
      invariant Sound(g) && Committed(s, g, data, i) && |g.Bytes()| == |s.Bytes()| + added
      invariant buf.lastWithDatap == g.Pred() && Spine(buf.first, s)
      invariant forall x | i <= x < |vecs| :: VecAt(g, f, vecs, x)
      invariant forall x | 0 <= x < |vecs| :: Wrote(vecs[x], data[x])
    {
      assert VecAt(g, f, vecs, i) && Linked(s, f + i);
      g := CommitStep(buf, chain, chainp, i, vecs, s, g, f, data);
      added := added + vecs[i].len;
      chainp, chain, i := chain, chain.next, i + 1;
    }
  }

  /** Pass 2 of evbuffer_commit_space. */
  method CommitAll(buf: Evbuffer, start: Chain?, startp: Chain?, vecs: seq<Iovec>, ghost f: nat,
                   ghost data: seq<seq<byte>>)
    requires buf.Valid() && buf.g.k <= f <= |buf.g.spine| && start == if f < |buf.g.spine| then buf.g.spine[f] else null
    requires startp == if f == 0 then null else buf.g.spine[f - 1]
    requires Fits(buf.g, f, vecs)
    requires |data| == |vecs| && forall x | 0 <= x < |vecs| :: Wrote(vecs[x], data[x])
    modifies buf`lastWithDatap, buf`totalLen, buf`g, buf.g.cells`off
    ensures buf.Valid() && buf.Contents() == old(buf.Contents()) + Flat(data)
    ensures buf.g == old(buf.g).(blocks := buf.g.blocks, k := buf.g.k)
  {
    ghost var s := buf.g;
    ghost var g;
    var added;
    assert data[..|data|] == data;
    added, g := CommitLoop(buf, start, startp, vecs, s, f, data);
    SameSpine(buf.first, s, g);
    Settle(buf, added, g);
  }

  lemma PiledStale(h: Shape, k: nat)
    requires Piled(h)
    ensures Piled(h.(k := k))
  {
    forall i ensures SoundAt(h.(k := k), i) { assert SoundAt(h, i); }
    forall x, y ensures Differ(h.(k := k), x, y) { assert Differ(h, x, y); }
  }

  /** advance_last_with_data, once more data is in the last chain. */
  method AdvanceToEnd(buf: Evbuffer, ghost g: Shape, ghost h: Shape) returns (ghost k: nat)
    requires Spine(buf.first, g) && Sound(h) && h.spine == g.spine && h.cells == g.cells &&
             buf.lastWithDatap == g.Pred()
    requires g.k < |h.spine| && (g.k > 0 ==> h.blocks[g.k] != [])
    modifies buf`lastWithDatap
    ensures Spine(buf.first, h.(k := k)) && Sound(h.(k := k)) && buf.lastWithDatap == h.(k := k).Pred()
  {
    ghost var stale := h.(k := g.k);
    PiledStale(h, g.k);
    SameSpine(buf.first, g, stale);
    k := AdvanceLastWithData(buf, stale);
  }

  /** The part of evbuffer_commit_space for one stretch, in the last chain. */
  method CommitLast(buf: Evbuffer, chain: Chain, len: nat, ghost d: seq<byte>)
    requires buf.Valid() && buf.g.spine != [] && chain == buf.g.Last()
    requires len == |d| <= SpaceLen(chain) && Filled(chain.data, chain.misalign + chain.off, d)
    modifies buf`lastWithDatap, buf`totalLen, buf`g, chain`off
    ensures buf.Valid() && buf.Contents() == old(buf.Contents()) + d
    ensures buf.g == old(buf.g).(blocks := buf.g.blocks, k := buf.g.k)
  {
    ghost var g := buf.g;
    ghost var i: nat := |g.spine| - 1;
    assert Linked(g, i);
    ghost var h := g.Append(i, d);
    CommitOne(chain, len, g, i, d);
    if len > 0 {
      ghost var k := AdvanceToEnd(buf, g, h);
      Settle(buf, len, h.(k := k));
    } else {
      SameSpine(buf.first, g, h);
      Settle(buf, len, h);
    }
  }

  /** The length update at the end of a commit, when all else is in place. */
  method Settle(buf: Evbuffer, added: nat, ghost h: Shape)
    requires Spine(buf.first, h) && Sound(h) && buf.lastWithDatap == h.Pred() && buf.last == h.Last()
    requires buf.totalLen + added == |h.Bytes()|
    modifies buf`totalLen, buf`g
    ensures buf.Valid() && buf.g == h
  {
    buf.totalLen := buf.totalLen + added;
    buf.g := h;
  }

  /** The stretches are one in the free space of the last chain, or successive ones from the first chain with space. */
  ghost predicate Committable(buf: Evbuffer, vecs: seq<Iovec>)
    requires buf.Valid()
    reads buf, buf.g.cells, buf.g.mem, buf.g.shared
  {
    assert SoundAt(buf.g, |buf.g.spine| - 1);
    || vecs == []
    || if |vecs| == 1 && buf.last != null && IsSpacePtr(vecs[0], buf.last) then vecs[0].len <= SpaceLen(buf.last)
       else buf.last != null && Fits(buf.g, FirstFree(buf.g), vecs)
  }

  /** evbuffer_commit_space: the bytes that were written into the stretches are now in the buffer, in order. */
  method CommitSpace(buf: Evbuffer, vecs: seq<Iovec>, ghost data: seq<seq<byte>>) returns (r: int)
    requires buf.Valid()
    requires |data| == |vecs| && forall x | 0 <= x < |vecs| :: Wrote(vecs[x], data[x])
    modifies buf`lastWithDatap, buf`totalLen, buf`g, buf.g.cells`off
    ensures buf.Valid() && buf.Contents() == old(buf.Contents()) + if r == 0 then Flat(data) else []
    ensures r == if !buf.freezeEnd && old(Committable(buf, vecs)) then 0 else -1
    ensures buf.g == old(buf.g).(blocks := buf.g.blocks, k := buf.g.k)
  {
    hide Spine, LastData, Fits;
    r := -1;
    if buf.freezeEnd {
      return;
    }
    assert SoundAt(buf.g, |buf.g.spine| - 1);
    if |vecs| == 0 {
      r := 0;
    } else if |vecs| == 1 && buf.last != null && IsSpacePtr(vecs[0], buf.last) {
      if vecs[0].len <= SpaceLen(buf.last) {
        OnlyOne(buf, vecs, data);
        CommitLast(buf, buf.last, vecs[0].len, data[0]);
        r := 0;
      }
    } else if buf.last != null {
      r := CommitFree(buf, vecs, data);
    }
  }

  lemma OnlyOne(buf: Evbuffer, vecs: seq<Iovec>, data: seq<seq<byte>>)
    requires buf.Valid() && buf.g.spine != [] && |vecs| == |data| == 1 && Wrote(vecs[0], data[0])
    requires SoundAt(buf.g, |buf.g.spine| - 1)
    requires IsSpacePtr(vecs[0], buf.last) && vecs[0].len <= SpaceLen(buf.last)
    ensures Filled(buf.last.data, buf.last.misalign + buf.last.off, data[0]) && Flat(data) == data[0]
  {
    var c := buf.last;
    var at := c.misalign + c.off;
    forall j ensures Placed(c.data, at, data[0], j) {}
    assert data[1..] == [];
  }

  /** The part of evbuffer_commit_space that starts at the first chain with space. */
  method CommitFree(buf: Evbuffer, vecs: seq<Iovec>, ghost data: seq<seq<byte>>) returns (r: int)
    requires buf.Valid() && buf.last != null
    requires |data| == |vecs| && forall x | 0 <= x < |vecs| :: Wrote(vecs[x], data[x])
    modifies buf`lastWithDatap, buf`totalLen, buf`g, buf.g.cells`off
    ensures buf.Valid() && buf.Contents() == old(buf.Contents()) + if r == 0 then Flat(data) else []
    ensures r == if old(Fits(buf.g, FirstFree(buf.g), vecs)) then 0 else -1
    ensures buf.g == old(buf.g).(blocks := buf.g.blocks, k := buf.g.k)
  {
    ghost var f := FirstFree(buf.g);
    var chain, chainp := FirstWithSpace(buf);
    var ok := CheckVecs(buf, chain, vecs, f);
    if !ok {
      return -1;
    }
    CommitAll(buf, chain, chainp, vecs, f, data);
    r := 0;
  }

  // ----- evbuffer_reserve_space

  /** A single stretch can be committed exactly when its chain is the last one or the first one with space. */
  lemma OneVecCommits(buf: Evbuffer, v: Iovec, f: nat)
    requires buf.Valid() && f < |buf.g.spine| && VecAt(buf.g, f, [v], 0) && !buf.g.spine[f].immutable
    ensures Committable(buf, [v]) <==> f == |buf.g.spine| - 1 || f == FirstFree(buf.g)
  {
    var g := buf.g;
    StorageApart(g, f);
    if f == FirstFree(g) && f < |g.spine| - 1 {
      forall x ensures VecAt(g, f, [v], x) { assert VecAt(g, f, [v], 0); }
    }
    if Fits(g, FirstFree(g), [v]) { assert VecAt(g, FirstFree(g), [v], 0); }
  }

  /** The room for one more byte is in some chain. */
  lemma RoomExists(g: Shape, spaces: seq<nat>, n: nat)
    requires Sound(g) && Room(g, spaces, n) && Sum(spaces) > 0
    ensures FirstFree(g) < |g.spine|
  {
    RoomSkipped(g, spaces);
    if FirstFree(g) - g.k <= |spaces| { RoomReached(g, spaces, FirstFree(g) - g.k, 0, 1); }
  }

  /** What (size_t) makes of a size. */
  function AsSize(size: int): nat
    requires -0x8000_0000_0000_0000 <= size <= 0x7FFF_FFFF_FFFF_FFFF
  {
    if size < 0 then size + 0x1_0000_0000_0000_0000 else size
  }

  /** The stretch that is handed out for a chain with room. */
  lemma RoomyVec(buf: Evbuffer, c: Chain, f: nat, datlen: nat, vecs: seq<Iovec>)
    requires buf.Valid() && Roomy(buf, c, f, datlen) && vecs == [Iovec(c.data, c.misalign + c.off, SpaceLen(c))]
    ensures f < |buf.g.spine| && !buf.g.spine[f].immutable && Fits(buf.g, f, vecs) && Total(vecs) >= datlen
    ensures Committable(buf, vecs) <==> f == |buf.g.spine| - 1 || f == FirstFree(buf.g)
  {
    assert SoundAt(buf.g, f) && vecs[..0] == [];
    OneVecCommits(buf, vecs[0], f);
  }

  /** evbuffer_reserve_space, when one stretch is asked for. */
  method ReserveOne(buf: Evbuffer, size: int) returns (r: int, vecs: seq<Iovec>, ghost f: nat)
    requires buf.Valid() && -0x8000_0000_0000_0000 <= size <= 0x7FFF_FFFF_FFFF_FFFF
    modifies buf`first, buf`last, buf`lastWithDatap, buf`totalLen, buf`g, buf.g.cells, buf.g.mem
    ensures buf.Valid() && buf.Contents() == old(buf.Contents())
    ensures r == -1 ==> size < 0 || size + MAX_TO_COPY_IN_EXPAND > MAX_ALLOC
    ensures r != -1 ==> r == |vecs| == 1 && size <= Total(vecs) && Fits(buf.g, f, vecs)
    ensures r != -1 ==> f < |buf.g.spine| && !buf.g.spine[f].immutable
    ensures r != -1 ==> (Committable(buf, vecs) <==> !old(Strands(buf.g, AsSize(size))))
    ensures fresh(buf.g.cells - old(buf.g.cells)) && fresh(buf.g.mem - old(buf.g.mem)) &&
            buf.g.shared == old(buf.g.shared)
  {
    r, vecs := -1, [];
    var chain;
    chain, f := ExpandSingle(buf, AsSize(size));
    if chain == null {
      return;
    }
    vecs := [Iovec(chain.data, chain.misalign + chain.off, SpaceLen(chain))];
    RoomyVec(buf, chain, f, AsSize(size), vecs);
    r := 1;
  }

  /** evbuffer_reserve_space, when at least two stretches are allowed. */
  method ReserveMany(buf: Evbuffer, size: int, nVecs: nat) 
    returns (r: int, vecs: seq<Iovec>, aborted: bool)
    requires buf.Valid() && -0x8000_0000_0000_0000 <= size <= 0x7FFF_FFFF_FFFF_FFFF
    requires nVecs >= 2
    modifies buf`first, buf`last, buf`lastWithDatap, buf`totalLen, buf`g
    modifies buf.g.cells`misalign, buf.g.cells`next, buf.g.cells`refcnt
    ensures buf.Valid() && buf.Contents() == old(buf.Contents())
    ensures aborted <==> size == 0 && old(FullEnd(buf.g))
    ensures aborted ==> r == -1
    ensures r == -1 ==> aborted || size < 0 || size > MAX_ALLOC
    ensures r != -1 ==> r == |vecs| <= nVecs && size <= Total(vecs) && Fits(buf.g, FirstFree(buf.g), vecs)
    ensures r != -1 && old(buf.last != null && !buf.last.immutable) && |old(buf.g.spine)| < nVecs ==>
              buf.g == old(buf.g) || Extended(old(buf.g), buf.g, AsSize(size))
    ensures forall c :: c in old(buf.g.cells) ==> c.misalign <= old(c.misalign)
    ensures fresh(buf.g.cells - old(buf.g.cells)) && fresh(buf.g.mem - old(buf.g.mem)) &&
            buf.g.shared == old(buf.g.shared)
  {
    ghost var spaces;
    hide Spine, Piled;
    vecs, aborted := [], false;
    r, spaces := ExpandFast(buf, AsSize(size), nVecs);
    if r == 0 {
      if size != 0 { RoomExists(buf.g, spaces, nVecs); }
      var chain, _ := FirstWithSpace(buf);
      if chain == null {
        return -1, [], true;
      }
      r, vecs := ReadSetupVecs(buf, size, nVecs, false, spaces);
    }
  }

  /** evbuffer_reserve_space; f is the chain the first stretch is in. When it is asked for no bytes, it can
      run into an assertion of evbuffer_read_setup_vecs_: then aborted says so. */
  method ReserveSpace(buf: Evbuffer, size: int, nVecs: int)
    returns (r: int, vecs: seq<Iovec>, aborted: bool, ghost f: nat)
    requires buf.Valid() && -0x8000_0000_0000_0000 <= size <= 0x7FFF_FFFF_FFFF_FFFF
    modifies buf`first, buf`last, buf`lastWithDatap, buf`totalLen, buf`g, buf.g.cells, buf.g.mem
    ensures buf.Valid() && buf.Contents() == old(buf.Contents())
    ensures buf.freezeEnd || nVecs < 1 ==> r == -1
    ensures aborted <==> !buf.freezeEnd && nVecs >= 2 && size == 0 && old(FullEnd(buf.g))
    ensures aborted ==> r == -1
    ensures r == -1 ==> aborted || buf.freezeEnd || nVecs < 1 || size < 0 || size + MAX_TO_COPY_IN_EXPAND > MAX_ALLOC
    ensures r != -1 ==> r == |vecs| <= nVecs && size <= Total(vecs) && Fits(buf.g, f, vecs)
    ensures r != -1 && nVecs >= 2 ==> f == FirstFree(buf.g)
    ensures r != -1 && nVecs == 1 ==> |vecs| == 1 && f < |buf.g.spine| && !buf.g.spine[f].immutable
    ensures r != -1 && nVecs == 1 ==> (Committable(buf, vecs) <==> !old(Strands(buf.g, AsSize(size))))
    ensures r != -1 && nVecs >= 2 && old(buf.last != null && !buf.last.immutable) && |old(buf.g.spine)| < nVecs ==>
              buf.g == old(buf.g) || Extended(old(buf.g), buf.g, AsSize(size))
    ensures nVecs >= 2 ==>
              forall c :: c in old(buf.g.cells) ==> c.misalign <= old(c.misalign) && c.immutable == old(c.immutable)
    ensures fresh(buf.g.cells - old(buf.g.cells)) && fresh(buf.g.mem - old(buf.g.mem)) &&
            buf.g.shared == old(buf.g.shared)
  {
    r, vecs, aborted, f := -1, [], false, 0;
    if buf.freezeEnd || nVecs < 1 {
      return;
    }
    if nVecs == 1 {
      r, vecs, f := ReserveOne(buf, size);
    } else {
      r, vecs, aborted := ReserveMany(buf, size, nVecs);
      f := FirstFree(buf.g);
    }
  }

  /** The stretches handed out lie apart, each behind the data of its own chain and in no other chain. */
  lemma StretchesApart(buf: Evbuffer, f: nat, vecs: seq<Iovec>, x: nat, i: nat)
    requires buf.Valid() && Fits(buf.g, f, vecs) && x < |vecs| && vecs[x].len > 0 && i < |buf.g.spine|
    ensures f + x < |buf.g.spine|
    ensures vecs[x].base == buf.g.spine[i].data ==>
              i == f + x && vecs[x].at == buf.g.spine[i].misalign + buf.g.spine[i].off
    ensures vecs[x].at + vecs[x].len <= vecs[x].base.Length
  {
    assert VecAt(buf.g, f, vecs, x);
    StorageApart(buf.g, f + x);
  }

  /** used is what of vecs is given back: fewer stretches, or shorter ones. */
  predicate Trimmed(used: seq<Iovec>, vecs: seq<Iovec>) {
    |used| <= |vecs| &&
    forall x | 0 <= x < |used| :: used[x] == vecs[x].(len := used[x].len) && used[x].len <= vecs[x].len
  }

  /** Whatever part of the reserved stretches was used can be committed. */
  lemma ReservedCommits(buf: Evbuffer, vecs: seq<Iovec>, used: seq<Iovec>)
    requires buf.Valid() && Fits(buf.g, FirstFree(buf.g), vecs) && Trimmed(used, vecs)
    ensures Committable(buf, used)
  {
    var g := buf.g;
    var f := FirstFree(g);
    forall x ensures VecAt(g, f, used, x) { assert VecAt(g, f, vecs, x); }
    assert VecAt(g, f, vecs, 0) && SoundAt(g, g.k);
    if used != [] && IsSpacePtr(used[0], buf.last) {
      assert SoundAt(g, f);
      if !g.spine[f].immutable { StorageApart(g, f); }
    }
  }

  /** A buffer whose one chain is full: asked for no bytes in two stretches, the source runs into its own
      assertion. */
  method ReserveNone(d: seq<byte>) returns (aborted: bool)
    requires |d| + CHAIN_SIZE == MIN_BUFFER_SIZE
    ensures aborted
  {
    var buf := new Evbuffer();
    var r := Add(buf, d);
    assert SoundAt(buf.g, 0);
    var vecs;
    ghost var f;
    r, vecs, aborted, f := ReserveSpace(buf, 0, 2);
  }

  /** The first chain holds 970 of 976 bytes, and n chains follow it. */
  ghost predicate NearlyFull(buf: Evbuffer, n: nat)
    requires buf.Valid()
    reads buf, buf.g.cells, buf.g.mem, buf.g.shared
  {
    && !buf.freezeEnd && |buf.g.spine| == |buf.g.blocks| == n + 1 && buf.g.k == 0
    && |buf.g.blocks[0]| == 970
    && (forall i | 0 <= i <= n ::
          buf.g.spine[i] in buf.g.cells && buf.g.spine[i].misalign == 0 && !buf.g.spine[i].immutable)
    && buf.g.spine[0].data.Length == 976
  }

  /** So many bytes of room are in the first n chains at most. */
  lemma RoomOfTwo(buf: Evbuffer, n: nat, vecs: seq<Iovec>)
    requires buf.Valid() && NearlyFull(buf, n) && n <= 1 && Fits(buf.g, FirstFree(buf.g), vecs)
    requires n == 1 ==> buf.g.spine[1].data.Length == 976
    ensures Total(vecs) <= 6 + 976 * n
  {
    assert SoundAt(buf.g, 0) && SoundAt(buf.g, 1);
    assert VecAt(buf.g, 0, vecs, 0) && VecAt(buf.g, 0, vecs, 1) && VecAt(buf.g, 0, vecs, 2);
    assert |vecs| > 0 ==> vecs[..|vecs| - 1][..|vecs| - 1] == vecs[..|vecs| - 1];
  }

  /** A reservation that needs one more chain. */
  method ReserveMore(buf: Evbuffer, n: nat, size: nat)
    requires buf.Valid() && NearlyFull(buf, n) && n <= 1 && 6 + 976 * n < size <= 2000
    requires n == 1 ==> buf.g.spine[1].data.Length == 976
    modifies buf`first, buf`last, buf`lastWithDatap, buf`totalLen, buf`g, buf.g.cells, buf.g.mem
    ensures buf.Valid() && NearlyFull(buf, n + 1)
    ensures size + CHAIN_SIZE <= MIN_BUFFER_SIZE ==> buf.g.spine[n + 1].data.Length == 976
    ensures n == 1 ==> buf.g.spine[1].data.Length == 976
    ensures fresh(buf.g.cells - old(buf.g.cells)) && fresh(buf.g.mem - old(buf.g.mem))
  {
    ghost var g := buf.g;
    var r, vecs, aborted;
    ghost var f;
    r, vecs, aborted, f := ReserveSpace(buf, size, 3);
    if buf.g == g {
      RoomOfTwo(buf, n, vecs);
    }
  }

  /** A new buffer with 970 bytes. */
  method BufferOfOne(data: seq<byte>) returns (buf: Evbuffer)
    requires |data| == 970
    ensures buf.Valid() && NearlyFull(buf, 0)
    ensures fresh(buf) && fresh(buf.g.cells) && fresh(buf.g.mem)
  {
    buf := new Evbuffer();
    var r := Add(buf, data);
  }

  lemma ThreeStrand(buf: Evbuffer)
    requires buf.Valid() && NearlyFull(buf, 2) && buf.g.spine[1].data.Length == 976
    ensures Strands(buf.g, 500) && !buf.freezeEnd
  {
    assert SoundAt(buf.g, 0) && SoundAt(buf.g, 1);
  }

  /** A buffer of three chains: 970 bytes are added, and 900 bytes and then 1900 reserved but not used. */
  method BufferOfThree(data: seq<byte>) returns (buf: Evbuffer)
    requires |data| == 970
    ensures buf.Valid() && Strands(buf.g, 500) && !buf.freezeEnd
    ensures fresh(buf) && fresh(buf.g.cells) && fresh(buf.g.mem)
  {
    hide Spine, Piled, LastData, NearlyFull, Strands;
    buf := BufferOfOne(data);
    ReserveMore(buf, 0, 900);
    ReserveMore(buf, 1, 1900);
    ThreeStrand(buf);
  }

  /** One stretch, reserved and at once given back in full. */
  method ReserveAndCommit(buf: Evbuffer, size: nat) returns (reserved: int, committed: int)
    requires buf.Valid() && size + MAX_TO_COPY_IN_EXPAND <= MAX_ALLOC && !buf.freezeEnd
    modifies buf`first, buf`last, buf`lastWithDatap, buf`totalLen, buf`g, buf.g.cells, buf.g.mem
    ensures reserved == 1 && committed == if old(Strands(buf.g, size)) then -1 else 0
  {
    var vecs, aborted;
    ghost var f;
    reserved, vecs, aborted, f := ReserveSpace(buf, size, 1);
    assert VecAt(buf.g, f, vecs, 0);
    ghost var v := vecs[0];
    ghost var written := v.base[v.at..v.at + v.len];
    assert Wrote(v, written);
    committed := CommitSpace(buf, vecs, [written]);
  }

  /** In that buffer one stretch of 500 bytes is reserved in the middle chain, and cannot be committed. */
  method StrandedReservation(data: seq<byte>) returns (reserved: int, committed: int)
    requires |data| == 970
    ensures reserved == 1 && committed == -1
  {
    var buf := BufferOfThree(data);
    reserved, committed := ReserveAndCommit(buf, 500);
  }
}
