/** Making room at the end of a buffer, handing it out, and committing what was written there. */
module EvbufferExpand {
  import opened Basics
  import opened Chains
  import opened EvbufferEnds

  const MAX_TO_COPY_IN_EXPAND := 4096

  /** A stretch of storage: base[at..at+len]. */
  datatype Iovec = Iovec(base: array<byte>, at: nat, len: nat)

  /** CHAIN_SPACE_LEN */
  function SpaceLen(c: Chain): int
    reads c`immutable, c`misalign, c`off
  {
    if c.immutable then 0 else c.data.Length - (c.misalign + c.off)
  }

  /** v starts at CHAIN_SPACE_PTR(c). */
  predicate IsSpacePtr(v: Iovec, c: Chain)
    reads c`misalign, c`off
  {
    v.base == c.data && v.at == c.misalign + c.off
  }

  /** The sum of the first j numbers. */
  function SumTo(s: seq<nat>, j: nat): nat
    requires j <= |s|
  {
    if j == 0 then 0 else SumTo(s, j - 1) + s[j - 1]
  }

  function Sum(s: seq<nat>): nat { SumTo(s, |s|) }

  lemma SumToPush(s: seq<nat>, n: nat, j: nat)
    requires j <= |s|
    ensures SumTo(s + [n], j) == SumTo(s, j)
  {}

  lemma SumPush(s: seq<nat>, n: nat)
    ensures Sum(s + [n]) == Sum(s) + n
  {
    SumToPush(s, n, |s|);
  }

  /** Chain g.k+x has room for spaces[x] bytes. */
  ghost predicate RoomAt(g: Shape, spaces: seq<nat>, x: int)
    reads g.cells`misalign, g.cells`off, g.cells`immutable
  {
    0 <= x < |spaces| ==>
      g.k + x < |g.spine| && g.spine[g.k + x] in g.cells && SpaceLen(g.spine[g.k + x]) >= spaces[x]
  }

  /** The last chain with data has no room left. */
  ghost predicate Full(g: Shape)
    reads g.cells`misalign, g.cells`off, g.cells`immutable
  {
    g.k < |g.spine| == |g.blocks| && g.blocks[g.k] != [] && g.spine[g.k] in g.cells && SpaceLen(g.spine[g.k]) == 0
  }

  /** The chains from the last one with data on have room, counted in spaces, in at most n pieces. */
  ghost predicate Room(g: Shape, spaces: seq<nat>, n: nat)
    reads g.cells`misalign, g.cells`off, g.cells`immutable
  {
    && g.k < |g.spine| && (forall x :: RoomAt(g, spaces, x))
    && |spaces| <= n + (if spaces != [] && Full(g) then 1 else 0)
  }

  /** What evbuffer_expand_fast_ counts for a chain. */
  function Spare(c: Chain): int
    reads c`immutable, c`misalign, c`off
  {
    if c.off > 0 then SpaceLen(c) else c.data.Length
  }

  /** The last chain is the last one with data, may be written, and has no room: then evbuffer_expand_fast_ adds
      none when it is asked for no bytes, and evbuffer_read_setup_vecs_ finds no chain with space. */
  ghost predicate FullEnd(g: Shape)
    reads g.cells`misalign, g.cells`off, g.cells`immutable
  {
    g.k + 1 == |g.spine| && g.spine[g.k] in g.cells && !g.spine[g.k].immutable && Spare(g.spine[g.k]) == 0
  }

  /** chain->misalign = 0, on an empty chain. */
  method RealignEmpty(c: Chain, ghost g: Shape, ghost i: nat)
    requires Sound(g) && i < |g.spine| && c == g.spine[i] && c.off == 0
    modifies c`misalign
    ensures Sound(g) && c.misalign == 0
  {
    Pairwise(g);
    label before:
    c.misalign := 0;
    forall j ensures SoundAt(g, j) { assert old@before(SoundAt(g, j)); }
  }

  /** One step of the loop of evbuffer_expand_fast_: the room in chain i. */
  method CountChain(c: Chain, avail: nat, used: nat, ghost g: Shape, ghost i: nat)
    returns (avail': nat, used': nat, ghost space: nat)
    requires Sound(g) && i < |g.spine| && c == g.spine[i]
    modifies c`misalign
    ensures Sound(g) && avail' == avail + space &&
            used' == used + (if g.blocks[i] != [] && SpaceLen(c) == 0 then 0 else 1)
    ensures g.blocks[i] != [] ==> c.misalign == old(c.misalign) && space == SpaceLen(c)
    ensures g.blocks[i] == [] ==> SpaceLen(c) == space
    ensures space == old(Spare(c)) && c.misalign <= old(c.misalign) && (g.blocks[i] == [] ==> space == c.data.Length)
  {
    assert SoundAt(g, i);
    avail', used', space := avail, used, if c.off > 0 then SpaceLen(c) else c.data.Length;
    if c.off > 0 {
      if SpaceLen(c) > 0 { avail', used' := avail + SpaceLen(c), used + 1; }
    } else {
      RealignEmpty(c, g, i);
      avail', used' := avail + c.data.Length, used + 1;
    }
  }

  /** CountChain, and what it adds to the room counted so far. */
  method CountOne(c: Chain, avail: nat, used: nat, ghost g: Shape, ghost i: nat, ghost spaces: seq<nat>)
    returns (avail': nat, used': nat, ghost spaces': seq<nat>)
    requires Sound(g) && i < |g.spine| && c == g.spine[i] && g.k + |spaces| == i && Sum(spaces) == avail
    requires forall x :: RoomAt(g, spaces, x)
    requires |spaces| == used + (if spaces != [] && Full(g) then 1 else 0)
    modifies c`misalign
    ensures Sound(g) && |spaces'| == |spaces| + 1 && Sum(spaces') == avail' && used <= used' <= used + 1
    ensures forall x :: RoomAt(g, spaces', x)
    ensures avail <= avail' && (g.blocks[i] != [] ==> SpaceLen(c) <= avail')
    ensures |spaces'| == used' + (if Full(g) then 1 else 0)
    ensures avail' == avail + old(Spare(c)) && c.misalign <= old(c.misalign)
  {
    Pairwise(g);
    assert SoundAt(g, i) && SoundAt(g, g.k);
    ghost var space;
    label before:
    avail', used', space := CountChain(c, avail, used, g, i);
    spaces' := spaces + [space];
    SumPush(spaces, space);
    assert i > g.k ==> (Full(g) <==> old@before(Full(g)));
    assert SoundAt(g, i);
    forall x ensures RoomAt(g, spaces', x) {
      if 0 <= x < |spaces| { assert old@before(RoomAt(g, spaces, x)); }
    }
  }

  /** The loop of evbuffer_expand_fast_: how much room the chains have in their first n free stretches. */
  method CountRoom(buf: Evbuffer, datlen: nat, n: nat) returns (avail: nat, used: nat, ghost spaces: seq<nat>)
    requires buf.Valid() && n >= 2 && buf.last != null
    modifies buf.g.cells`misalign
    ensures buf.Valid() && buf.g == old(buf.g) && Sum(spaces) == avail && used <= n && Room(buf.g, spaces, used)
    ensures avail < datlen && used < n ==> buf.g.k + |spaces| == |buf.g.spine|
    ensures spaces != []
    ensures |buf.g.blocks| > buf.g.k && |buf.g.blocks[buf.g.k]| > 0 ==> SpaceLen(buf.g.spine[buf.g.k]) <= avail
    ensures forall c :: c in old(buf.g.cells) ==> c.misalign <= old(c.misalign)
    ensures datlen == 0 ==> buf.g.k < |buf.g.spine| && avail == old(Spare(buf.g.spine[buf.g.k])) && |spaces| == 1
    ensures datlen == 0 && |buf.g.blocks[buf.g.k]| == 0 ==> avail == buf.g.spine[buf.g.k].data.Length
    ensures used <= |spaces| <= |buf.g.spine|
  {
    ghost var g := buf.g;
    Pairwise(g);
    var chain := buf.LastWithData();
    avail, used, spaces := 0, 0, [];
    ghost var i := g.k;
    while chain != null
      invariant g.k <= i <= |g.spine| && chain == (if i < |g.spine| then g.spine[i] else null) && i == g.k + |spaces|
      invariant Spine(buf.first, g) && Sound(g)
      invariant forall x :: RoomAt(g, spaces, x)
      invariant |spaces| == used + (if spaces != [] && Full(g) then 1 else 0)
      invariant Sum(spaces) == avail && used < n
      invariant spaces != [] && |g.blocks[g.k]| > 0 ==> SpaceLen(g.spine[g.k]) <= avail
      invariant forall c :: c in old(buf.g.cells) ==> c.misalign <= old(c.misalign)
      invariant datlen == 0 ==> i == g.k && avail == 0
      invariant i == g.k && g.k < |g.spine| ==> Spare(g.spine[g.k]) == old(Spare(g.spine[g.k]))
      decreases |g.spine| - i
    {
      assert Linked(g, i) && SoundAt(g, i);
      avail, used, spaces := CountOne(chain, avail, used, g, i, spaces);
      if avail >= datlen || used == n {
        return;
      }
      chain, i := chain.next, i + 1;
    }
  }

  /** Hangs the fresh empty chain c after ch, the last chain of g once it is cut at m. */
  method AppendEmpty(buf: Evbuffer, ch: Chain?, c: Chain, ghost g: Shape, ghost m: nat)
    requires m <= |g.spine| == |g.blocks| && g.k <= m && (m == 0 || g.k < m)
    requires Spine(buf.first, g.Cut(m)) && Sound(g.Cut(m)) && ch == g.Cut(m).Last()
    requires Joins(c, [], {c.data}, {}, g) && c.next == null && c.refcnt > 0
    requires buf.lastWithDatap == g.Cut(m).Pred() && buf.totalLen == |g.Cut(m).Bytes()|
    modifies buf`first, buf`last, buf`lastWithDatap, buf`totalLen, buf`g, g.cells`next
    ensures buf.Valid() && buf.g == g.Cut(m).Push(c, [], {c.data}, {}) && buf.Contents() == g.Cut(m).Bytes()
  {
    ghost var h := g.Cut(m).Push(c, [], {c.data}, {});
    SoundPush(g.Cut(m), c, [], {c.data}, {});
    AttachLast(buf, ch, c, g.Cut(m), h);
  }

  /** AppendEmpty, with a new chain for size bytes. */
  method AppendNew(buf: Evbuffer, ch: Chain?, size: nat, ghost g: Shape, ghost m: nat) returns (c: Chain?)
    requires g == buf.g && m <= |g.spine| == |g.blocks| && g.k <= m && (m == 0 || g.k < m)
    requires Spine(buf.first, g.Cut(m)) && Sound(g.Cut(m)) && ch == g.Cut(m).Last()
    requires buf.lastWithDatap == g.Cut(m).Pred() && buf.totalLen == |g.Cut(m).Bytes()|
    modifies buf`first, buf`last, buf`lastWithDatap, buf`totalLen, buf`g, g.cells`next
    ensures c == null <==> size > MAX_ALLOC
    ensures c == null ==> unchanged(buf) && unchanged(g.cells)
    ensures c != null ==> fresh(c) && fresh(c.data) && SpaceLen(c) >= size && !c.immutable && c.misalign == 0
    ensures c != null && size + CHAIN_SIZE <= MIN_BUFFER_SIZE ==> c.data.Length + CHAIN_SIZE == MIN_BUFFER_SIZE
    ensures c != null ==>
              buf.Valid() && buf.g == g.Cut(m).Push(c, [], {c.data}, {}) && buf.Contents() == g.Cut(m).Bytes()
  {
    c := ChainNew(size);
    if c != null {
      AppendEmpty(buf, ch, c, g, m);
    }
  }

  /** AppendNew, behind all the chains. */
  method AppendBehind(buf: Evbuffer, ch: Chain?, size: nat) returns (c: Chain?)
    requires buf.Core() && ch == buf.g.Last() && |buf.g.spine| == |buf.g.blocks| && (buf.g.spine == [] ==> buf.g.k == 0)
    modifies buf`first, buf`last, buf`lastWithDatap, buf`totalLen, buf`g, buf.g.cells`next
    ensures c == null <==> size > MAX_ALLOC
    ensures c == null ==> unchanged(buf) && buf.Core() && unchanged(buf.g.cells)
    ensures c != null ==> fresh(c) && fresh(c.data) && SpaceLen(c) >= size && !c.immutable && c.misalign == 0
    ensures c != null && size + CHAIN_SIZE <= MIN_BUFFER_SIZE ==> c.data.Length + CHAIN_SIZE == MIN_BUFFER_SIZE
    ensures |old(buf.g.spine)| == |old(buf.g.blocks)|
    ensures c != null ==>
              buf.Valid() && buf.g == old(buf.g).Cut(|old(buf.g.spine)|).Push(c, [], {c.data}, {}) &&
              buf.Contents() == old(buf.Contents())
  {
    ghost var g := buf.g;
    SoundCut(g, |g.spine|);
    SameSpine(buf.first, g, g.Cut(|g.spine|));
    c := AppendNew(buf, ch, size, g, |g.spine|);
  }

  /** The room after a new empty chain went behind the first m ones. */
  lemma RoomPush(g: Shape, m: nat, c: Chain, spaces: seq<nat>, n: nat, space: nat)
    requires m == g.k + |spaces| <= |g.spine| == |g.blocks| && SpaceLen(c) >= space
    requires forall x :: RoomAt(g, spaces, x)
    requires |spaces| < n + (if spaces != [] && Full(g) then 1 else 0)
    ensures Room(g.Cut(m).Push(c, [], {c.data}, {}), spaces + [space], n) &&
            Sum(spaces + [space]) == Sum(spaces) + space
  {
    SumPush(spaces, space);
    var h := g.Cut(m).Push(c, [], {c.data}, {});
    forall x ensures RoomAt(h, spaces + [space], x) { assert RoomAt(g, spaces, x); }
  }

  /** The room in the last chain with data, if it stays, and a new chain behind it. */
  lemma TwoRooms(g: Shape, m: nat, c: Chain, avail: nat, space: nat) returns (spaces: seq<nat>)
    requires m == g.k + (if m == 0 then 0 else 1) <= |g.spine| == |g.blocks| && SpaceLen(c) >= space
    requires m > 0 ==> g.blocks[g.k] != [] && g.spine[g.k] in g.cells && avail == SpaceLen(g.spine[g.k])
    ensures Room(g.Cut(m).Push(c, [], {c.data}, {}), spaces, 2) && Sum(spaces) == space + (if m == 0 then 0 else avail)
  {
    var lead: seq<nat> := if m == 0 then [] else [avail];
    assert SumTo(lead, 0) == 0;
    RoomPush(g, m, c, lead, 2, space);
    spaces := lead + [space];
  }

  /** evbuffer_chain_insert_new */
  method ChainInsertNew(buf: Evbuffer, datlen: nat) returns (c: Chain?, ghost m: nat)
    requires buf.Valid()
    modifies buf`first, buf`last, buf`lastWithDatap, buf`totalLen, buf`g, buf.g.cells`next, buf.g.cells`refcnt
    ensures buf.Valid() && buf.Contents() == old(buf.Contents())
    ensures c == null <==> datlen > MAX_ALLOC
    ensures c == null ==> buf.g == old(buf.g)
    ensures c != null ==> fresh(c) && fresh(c.data) && !c.immutable && SpaceLen(c) >= datlen && SpaceLen(c) > 0
    ensures c != null ==> m == old(buf.g.k) + (if m == 0 then 0 else 1) <= |old(buf.g.spine)| == |old(buf.g.blocks)|
    ensures c != null && m > 0 ==> old(buf.g.blocks)[old(buf.g.k)] != []
    ensures c != null ==> buf.g == old(buf.g).Cut(m).Push(c, [], {c.data}, {})
  {
    c := ChainNew(datlen);
    m := 0;
    if c != null {
      m := ChainInsert(buf, c, [], {c.data}, {});
    }
  }

  /** evbuffer_expand_fast_, when there is no last chain or it may not be written. */
  method ExpandInsert(buf: Evbuffer, datlen: nat) returns (r: int, ghost spaces: seq<nat>)
    requires buf.Valid()
    modifies buf`first, buf`last, buf`lastWithDatap, buf`totalLen, buf`g, buf.g.cells`next, buf.g.cells`refcnt
    ensures buf.Valid() && buf.Contents() == old(buf.Contents())
    ensures r == if datlen > MAX_ALLOC then -1 else 0
    ensures r == 0 ==> Room(buf.g, spaces, 2) && Sum(spaces) >= datlen
    ensures r == 0 ==> FirstFree(buf.g) < |buf.g.spine|
    ensures fresh(buf.g.cells - old(buf.g.cells)) && fresh(buf.g.mem - old(buf.g.mem)) &&
            buf.g.shared == old(buf.g.shared)
  {
    ghost var g := buf.g;
    assert SoundAt(g, g.k);
    var c;
    ghost var m;
    c, m := ChainInsertNew(buf, datlen);
    if c == null {
      return -1, [];
    }
    spaces := TwoRooms(g, m, c, if m == 0 then 0 else SpaceLen(g.spine[g.k]), datlen);
    r := 0;
  }

  /** RoomPush, behind all the chains. */
  lemma AppendedRoom(g: Shape, c: Chain, spaces: seq<nat>, n: nat, space: nat, h: Shape)
    requires |g.spine| == |g.blocks| == g.k + |spaces| && spaces != [] && SpaceLen(c) >= space && !c.immutable &&
             Room(g, spaces, n)
    requires h == g.Cut(|g.spine|).Push(c, [], {c.data}, {})
    ensures Room(h, spaces + [space], n + 1) && Sum(spaces + [space]) == Sum(spaces) + space
  {
    RoomPush(g, |g.spine|, c, spaces, n + 1, space);
  }

  /** h is g with a new empty chain behind it, for no more than size bytes that have no room yet. */
  ghost predicate Extended(g: Shape, h: Shape, size: nat)
    reads h.cells`immutable, h.cells`misalign
  {
    && h.spine != [] && h.spine[|h.spine| - 1] in h.cells
    && var c := h.spine[|h.spine| - 1];
    && h == g.Push(c, [], {c.data}, {}) && !c.immutable && c.misalign == 0
    && (size + CHAIN_SIZE <= MIN_BUFFER_SIZE ==> c.data.Length + CHAIN_SIZE == MIN_BUFFER_SIZE)
  }

  /** The part of evbuffer_expand_fast_ that hangs one more chain behind the last one. */
  method ExpandAppend(buf: Evbuffer, datlen: nat, avail: nat, n: nat, ghost spaces: seq<nat>)
    returns (r: int, ghost spaces': seq<nat>)
    requires buf.Valid() && avail < datlen && Room(buf.g, spaces, n) && Sum(spaces) == avail
    requires buf.g.k + |spaces| == |buf.g.spine| && spaces != []
    modifies buf`first, buf`last, buf`lastWithDatap, buf`totalLen, buf`g, buf.g.cells`next
    ensures buf.Valid() && buf.Contents() == old(buf.Contents())
    ensures r == if datlen - avail > MAX_ALLOC then -1 else 0
    ensures r == 0 ==> Room(buf.g, spaces', n + 1) && Sum(spaces') == datlen
    ensures r == 0 ==> Extended(old(buf.g), buf.g, datlen)
    ensures fresh(buf.g.cells - old(buf.g.cells)) && fresh(buf.g.mem - old(buf.g.mem)) &&
            buf.g.shared == old(buf.g.shared)
  {
    hide Room, Spine;
    ghost var g := buf.g;
    var tmp := AppendBehind(buf, buf.last, datlen - avail);
    if tmp == null {
      return -1, [];
    }
    AppendedRoom(g, tmp, spaces, n, datlen - avail, buf.g);
    assert g.Cut(|g.spine|) == g;
    spaces' := spaces + [datlen - avail];
    r := 0;
  }

  /** Frees the empty chains, m of the chains stay; ch is the last of them, or null. */
  method DropEmpty(buf: Evbuffer, ch: Chain?, ghost m: nat)
    requires buf.Core() && buf.g.k <= m <= |buf.g.spine| && (m == 0 || buf.g.k < m)
    requires ch == if m == 0 then null else buf.g.spine[m - 1]
    requires forall i | m <= i < |buf.g.spine| :: buf.g.blocks[i] == []
    modifies buf`first, buf`g, buf.g.cells`next, buf.g.cells`refcnt
    ensures |old(buf.g.spine)| == |old(buf.g.blocks)| && buf.g == old(buf.g).Cut(m) && buf.Core()
    ensures ch == buf.g.Last() && buf.Contents() == old(buf.Contents())
  {
    SoundCut(buf.g, m);
    CutList(buf, ch, buf.g, m);
    buf.g := buf.g.Cut(m);
  }

  /** Once the empty chains are gone, adds one with room for what ch cannot take. */
  method ExpandRefill(buf: Evbuffer, datlen: nat, ch: Chain?, room: nat) returns (r: int, ghost spaces: seq<nat>)
    requires buf.Core() && ch == buf.g.Last() && room < datlen
    requires |buf.g.spine| == |buf.g.blocks| == (if ch == null then 0 else buf.g.k + 1)
    requires ch != null ==> buf.g.blocks[buf.g.k] != [] && room == SpaceLen(ch)
    requires ch == null ==> room == 0
    modifies buf`first, buf`last, buf`lastWithDatap, buf`totalLen, buf`g, buf.g.cells`next
    ensures buf.Valid() && buf.Contents() == old(buf.Contents())
    ensures r == if datlen - room > MAX_ALLOC then -1 else 0
    ensures r == 0 ==> Room(buf.g, spaces, 2) && Sum(spaces) == datlen
    ensures fresh(buf.g.cells - old(buf.g.cells)) && fresh(buf.g.mem - old(buf.g.mem)) &&
            buf.g.shared == old(buf.g.shared)
  {
    ghost var g := buf.g;
    assert SoundAt(g, g.k);
    var tmp := AppendBehind(buf, ch, datlen - room);
    if tmp == null {
      if ch == null { ZeroChain(buf, g); } else { buf.last := ch; }
      return -1, [];
    }
    spaces := TwoRooms(g, |g.spine|, tmp, room, datlen - room);
    r := 0;
  }

  /** The part of evbuffer_expand_fast_ that replaces all empty chains by one that is large enough. */
  method ExpandReplace(buf: Evbuffer, datlen: nat, avail: nat) returns (r: int, ghost spaces: seq<nat>)
    requires buf.Valid() && buf.g.k < |buf.g.spine| == |buf.g.blocks| && avail < datlen
    requires buf.g.blocks[buf.g.k] != [] ==> SpaceLen(buf.g.spine[buf.g.k]) <= avail
    modifies buf`first, buf`last, buf`lastWithDatap, buf`totalLen, buf`g, buf.g.cells`next, buf.g.cells`refcnt
    ensures buf.Valid() && buf.Contents() == old(buf.Contents())
    ensures r == 0 ==> Room(buf.g, spaces, 2) && Sum(spaces) >= datlen
    ensures r == 0 || (r == -1 && datlen > MAX_ALLOC)
    ensures fresh(buf.g.cells - old(buf.g.cells)) && fresh(buf.g.mem - old(buf.g.mem)) &&
            buf.g.shared == old(buf.g.shared)
  {
    ghost var g := buf.g;
    assert SoundAt(g, g.k);
    var chain := buf.LastWithData();
    var removeAll, room := chain.off == 0, 0;
    if !removeAll { room := SpaceLen(chain); }
    ghost var m := if removeAll then 0 else g.k + 1;
    DropEmpty(buf, if removeAll then null else chain, m);
    r, spaces := ExpandRefill(buf, datlen, if removeAll then null else chain, room);
  }

  /** Once the one chain that is looked at has avail bytes of room. */
  lemma AskedForNone(buf: Evbuffer, avail: nat, spaces: seq<nat>)
    requires buf.Valid() && buf.last != null && !buf.last.immutable && |spaces| == 1 && Sum(spaces) == avail
    requires forall x :: RoomAt(buf.g, spaces, x)
    requires buf.g.k < |buf.g.spine|
    requires |buf.g.blocks[buf.g.k]| > 0 ==> SpaceLen(buf.g.spine[buf.g.k]) <= avail
    requires |buf.g.blocks[buf.g.k]| == 0 ==> avail == buf.g.spine[buf.g.k].data.Length
    ensures FirstFree(buf.g) == |buf.g.spine| <==> buf.g.k + 1 == |buf.g.spine| && avail == 0
  {
    assert RoomAt(buf.g, spaces, 0) && SoundAt(buf.g, buf.g.k) && SumTo(spaces, 0) == 0;
  }

  /** evbuffer_expand_fast_: room for datlen bytes in at most n pieces, and nothing the buffer holds changes. */
  method ExpandFast(buf: Evbuffer, datlen: nat, n: nat) returns (r: int, ghost spaces: seq<nat>)
    requires buf.Valid() && n >= 2
    modifies buf`first, buf`last, buf`lastWithDatap, buf`totalLen, buf`g, buf.g.cells`misalign, buf.g.cells`next,
             buf.g.cells`refcnt
    ensures buf.Valid() && buf.Contents() == old(buf.Contents())
    ensures r == 0 || (r == -1 && datlen > MAX_ALLOC)
    ensures r == 0 ==> Room(buf.g, spaces, n) && Sum(spaces) >= datlen
    ensures datlen == 0 ==>
              r == 0 && (FirstFree(buf.g) == |buf.g.spine| <==> old(FullEnd(buf.g)))
    ensures r == 0 && old(buf.last != null && !buf.last.immutable) && |old(buf.g.spine)| < n ==>
              buf.g == old(buf.g) || Extended(old(buf.g), buf.g, datlen)
    ensures forall c :: c in old(buf.g.cells) ==> c.misalign <= old(c.misalign)
    ensures fresh(buf.g.cells - old(buf.g.cells)) && fresh(buf.g.mem - old(buf.g.mem)) &&
            buf.g.shared == old(buf.g.shared)
  {
    hide Spine;
    assert SoundAt(buf.g, |buf.g.spine| - 1);
    if buf.last == null || buf.last.immutable {
      r, spaces := ExpandInsert(buf, datlen);
      return;
    }
    var avail, used;
    avail, used, spaces := CountRoom(buf, datlen, n);
    if avail >= datlen {
      if datlen == 0 { AskedForNone(buf, avail, spaces); }
      return 0, spaces;
    }
    if used < n {
      r, spaces := ExpandAppend(buf, datlen, avail, used, spaces);
    } else {
      r, spaces := ExpandReplace(buf, datlen, avail);
    }
  }

  // ----- handing out the room

  function Total(vecs: seq<Iovec>): nat {
    if vecs == [] then 0 else Total(vecs[..|vecs| - 1]) + vecs[|vecs| - 1].len
  }

  /** The first chain with space, if there is one: the index that the reserve and commit functions start from. */
  ghost function FirstFree(g: Shape): nat
    reads g.cells`misalign, g.cells`off, g.cells`immutable
  {
    if g.k < |g.spine| && g.spine[g.k] in g.cells && SpaceLen(g.spine[g.k]) == 0 then g.k + 1 else g.k
  }

  /** Stretch x lies in the free space of chain f+x, from its start. */
  ghost predicate VecAt(g: Shape, f: nat, vecs: seq<Iovec>, x: int)
    reads g.cells`misalign, g.cells`off, g.cells`immutable
  {
    0 <= x < |vecs| ==>
      && f + x < |g.spine| && g.spine[f + x] in g.cells
      && IsSpacePtr(vecs[x], g.spine[f + x]) && vecs[x].len <= SpaceLen(g.spine[f + x])
  }

  /** The first chain with space in it, and the chain it hangs from (null when it is the first one). */
  method FirstWithSpace(buf: Evbuffer) returns (chain: Chain?, chainp: Chain?)
    requires buf.Valid() && buf.g.k < |buf.g.spine|
    ensures FirstFree(buf.g) <= |buf.g.spine|
    ensures chain == if FirstFree(buf.g) < |buf.g.spine| then buf.g.spine[FirstFree(buf.g)] else null
    ensures chainp == if FirstFree(buf.g) == 0 then null else buf.g.spine[FirstFree(buf.g) - 1]
  {
    assert SoundAt(buf.g, buf.g.k) && Linked(buf.g, buf.g.k);
    chain, chainp := buf.LastWithData(), buf.lastWithDatap;
    if SpaceLen(chain) == 0 { chain, chainp := chain.next, chain; }
  }

  /** The stretches lie in the free space of successive chains, from chain f on. */
  ghost predicate Fits(g: Shape, f: nat, vecs: seq<Iovec>)
    reads g.cells`misalign, g.cells`off, g.cells`immutable
  {
    forall x :: VecAt(g, f, vecs, x)
  }

  /** While room is still wanted, chain g.k+j has what spaces[j] says. */
  lemma RoomReached(g: Shape, spaces: seq<nat>, j: nat, soFar: nat, howmuch: nat)
    requires j <= |spaces| && soFar >= SumTo(spaces, j) && soFar < howmuch <= Sum(spaces)
    requires forall x :: RoomAt(g, spaces, x)
    ensures j < |spaces| && SumTo(spaces, j + 1) == SumTo(spaces, j) + spaces[j]
    ensures g.k + j < |g.spine| && g.spine[g.k + j] in g.cells && SpaceLen(g.spine[g.k + j]) >= spaces[j]
  {
    assert RoomAt(g, spaces, j);
  }

  lemma VecsPush(g: Shape, f: nat, vecs: seq<Iovec>, c: Chain, len: nat, vecs': seq<Iovec>)
    requires forall x :: VecAt(g, f, vecs, x)
    requires f + |vecs| < |g.spine| && c == g.spine[f + |vecs|] && c in g.cells && len <= SpaceLen(c)
    requires vecs' == vecs + [Iovec(c.data, c.misalign + c.off, len)]
    ensures forall x :: VecAt(g, f, vecs', x)
    ensures Total(vecs') == Total(vecs) + len
  {
    assert vecs'[..|vecs|] == vecs;
    forall x ensures VecAt(g, f, vecs', x) { assert VecAt(g, f, vecs, x); }
  }

  /** What is left out in front of the first chain with space is no room. */
  lemma RoomSkipped(g: Shape, spaces: seq<nat>)
    requires g.k < |g.spine| && RoomAt(g, spaces, 0)
    ensures g.k <= FirstFree(g) <= g.k + 1
    ensures FirstFree(g) - g.k <= |spaces| ==> SumTo(spaces, FirstFree(g) - g.k) == 0
  {
    if FirstFree(g) > g.k && spaces != [] {
      assert SumTo(spaces, 1) == SumTo(spaces, 0) + spaces[0];
    }
  }

  /** One round of evbuffer_read_setup_vecs_: the stretch for the free space of a chain. */
  method NextVec(chain: Chain, left: nat, exact: bool, vecs: seq<Iovec>, ghost g: Shape, ghost f: nat)
    returns (more: seq<Iovec>, avail: nat)
    requires (forall x :: VecAt(g, f, vecs, x)) && f + |vecs| < |g.spine| && chain == g.spine[f + |vecs|] &&
             chain in g.cells && SpaceLen(chain) >= 0
    ensures (forall x :: VecAt(g, f, more, x)) && |more| == |vecs| + 1 && Total(more) == Total(vecs) + avail
    ensures avail == if exact && SpaceLen(chain) > left then left else SpaceLen(chain)
  {
    avail := SpaceLen(chain);
    if avail > left && exact { avail := left; }
    more := vecs + [Iovec(chain.data, chain.misalign + chain.off, avail)];
    VecsPush(g, f, vecs, chain, avail, more);
  }

  /** The loop of evbuffer_read_setup_vecs_, from chain f on. */
  method FillVecs(start: Chain?, howmuch: nat, nVecs: nat, exact: bool, ghost g: Shape, ghost f: nat,
                  ghost spaces: seq<nat>)
    returns (vecs: seq<Iovec>)
    requires g.k <= f <= |g.spine| && start == if f < |g.spine| then g.spine[f] else null
    requires forall i :: Linked(g, i)
    requires forall x :: RoomAt(g, spaces, x)
    requires howmuch <= Sum(spaces) && |spaces| <= nVecs + f - g.k &&
             (howmuch > 0 ==> f - g.k <= |spaces| && SumTo(spaces, f - g.k) == 0)
    ensures |vecs| <= nVecs && Fits(g, f, vecs)
    ensures howmuch <= Total(vecs) && (exact ==> Total(vecs) == howmuch)
  {
    var soFar, chain := 0, start;
    vecs := [];
    ghost var j := f - g.k;
    while |vecs| < nVecs && soFar < howmuch
      invariant |vecs| <= nVecs && soFar == Total(vecs) && (exact ==> soFar <= howmuch)
      invariant g.k + j == f + |vecs| <= |g.spine|
      invariant chain == if f + |vecs| < |g.spine| then g.spine[f + |vecs|] else null
      invariant Fits(g, f, vecs)
      invariant soFar < howmuch ==> j <= |spaces| && soFar >= SumTo(spaces, j)
      decreases nVecs - |vecs|
    {
      RoomReached(g, spaces, j, soFar, howmuch);
      assert Linked(g, g.k + j);
      var avail;
      vecs, avail := NextVec(chain, howmuch - soFar, exact, vecs, g, f);
      soFar := soFar + avail;
      chain, j := chain.next, j + 1;
    }
    if soFar < howmuch { RoomReached(g, spaces, j, soFar, howmuch); }
  }

  /** evbuffer_read_setup_vecs_: stretches of free space, at least howmuch bytes in all. */
  method ReadSetupVecs(buf: Evbuffer, howmuch: int, nVecs: nat, exact: bool, ghost spaces: seq<nat>)
    returns (r: int, vecs: seq<Iovec>)
    requires buf.Valid() && Room(buf.g, spaces, nVecs) && howmuch <= Sum(spaces) && FirstFree(buf.g) < |buf.g.spine|
    ensures r == (if howmuch < 0 then -1 else |vecs|) && |vecs| <= nVecs
    ensures Fits(buf.g, FirstFree(buf.g), vecs)
    ensures howmuch <= Total(vecs) && (exact && howmuch >= 0 ==> Total(vecs) == howmuch)
  {
    ghost var g := buf.g;
    vecs := [];
    if howmuch < 0 {
      return -1, [];
    }
    var chain, _ := FirstWithSpace(buf);
    assert SoundAt(g, g.k);
    RoomSkipped(g, spaces);
    vecs := FillVecs(chain, howmuch, nVecs, exact, g, FirstFree(g), spaces);
    r := |vecs|;
  }
}
