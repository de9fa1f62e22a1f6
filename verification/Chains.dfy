/** The chained byte buffer: its chains, how they are linked, and the invariant every operation keeps.
    What holds of chain i of a list is given a name (SoundAt, Linked, Held, Differ, Apart); a list
    property is that name for all i, and a proof uses it at the chains it names. */
module Chains {
  import opened Basics

  const CHAIN_SIZE := 48
  const MIN_BUFFER_SIZE := 1024
  const CHAIN_MAX := 0x7FFF_FFFF_FFFF_FFFF
  /** The largest storage evbuffer_chain_new gives out. */
  const MAX_ALLOC := CHAIN_MAX - CHAIN_SIZE

  /** One block of storage: data[misalign..misalign+off] is what it holds. */
  class Chain {
    var next: Chain?
    const data: array<byte>
    var misalign: nat
    var off: nat
    var immutable: bool
    var refcnt: nat
    const multicast: bool

    constructor (capacity: nat)
      ensures next == null && misalign == 0 && off == 0 && !immutable && refcnt == 1 && !multicast
      ensures fresh(data) && data.Length == capacity
    {
      next := null;
      data := new byte[capacity];
      misalign, off, immutable, refcnt, multicast := 0, 0, false, 1, false;
    }

    /** A chain over storage that it does not own and must not write. */
    constructor Over(storage: array<byte>, at: nat, len: nat, mc: bool)
      ensures next == null && misalign == at && off == len && immutable && refcnt == 1 && multicast == mc
      ensures data == storage
    {
      next := null;
      data := storage;
      misalign, off, immutable, refcnt, multicast := at, len, true, 1, mc;
    }

    /** Byte j of b is in its place. */
    ghost predicate At(b: seq<byte>, j: int)
      reads this`misalign, data
    {
      0 <= j < |b| ==> misalign + j < data.Length && data[misalign + j] == b[j]
    }

    ghost predicate Holds(b: seq<byte>)
      reads this`misalign, this`off, data
    {
      off == |b| && misalign + off <= data.Length && forall j :: At(b, j)
    }
  }

  // ----- cutting and joining sequences

  lemma CutAround<T>(s: seq<T>, n: nat)
    requires n < |s|
    ensures s[..n] + [s[n]] == s[..n + 1] && s[..n] + [s[n]] + s[n + 1..] == s
  {}

  lemma Halves<T>(s: seq<T>, n: nat)
    requires n <= |s|
    ensures s[..n] + s[n..] == s
  {}

  // ----- the bytes of a list of blocks

  function Flat(bs: seq<seq<byte>>): (r: seq<byte>) {
    if bs == [] then [] else bs[0] + Flat(bs[1..])
  }

  /** k is the index of the last block with data, or 0. */
  ghost predicate LastData(bs: seq<seq<byte>>, k: nat) {
    && (k > 0 ==> k < |bs| && bs[k] != [])
    && (forall i | k < i < |bs| :: bs[i] == [])
  }

  lemma FlatConcat(a: seq<seq<byte>>, b: seq<seq<byte>>)
    ensures Flat(a + b) == Flat(a) + Flat(b)
  {
    if a == [] {
      assert a + b == b;
    } else {
      assert (a + b)[1..] == a[1..] + b;
      FlatConcat(a[1..], b);
    }
  }

  lemma FlatCons(b: seq<byte>, a: seq<seq<byte>>)
    ensures Flat([b] + a) == b + Flat(a)
  {
    assert ([b] + a)[1..] == a;
  }

  lemma FlatEmpty(a: seq<seq<byte>>)
    requires forall i | 0 <= i < |a| :: a[i] == []
    ensures Flat(a) == []
  {}

  lemma FlatPush(bs: seq<seq<byte>>, b: seq<byte>)
    ensures Flat(bs + [b]) == Flat(bs) + b
  {
    FlatConcat(bs, [b]);
    assert Flat([b][1..]) == [];
  }

  /** Cutting off trailing empty blocks changes neither the bytes nor the last block with data. */
  lemma FlatCut(bs: seq<seq<byte>>, k: nat, n: nat)
    requires LastData(bs, k) && k <= n <= |bs| && (n == 0 || k < n)
    requires forall i | n <= i < |bs| :: bs[i] == []
    ensures Flat(bs[..n]) == Flat(bs) && LastData(bs[..n], k)
  {
    Halves(bs, n);
    FlatConcat(bs[..n], bs[n..]);
    FlatEmpty(bs[n..]);
  }

  lemma FlatAppendAt(bs: seq<seq<byte>>, k: nat, i: nat, d: seq<byte>)
    requires LastData(bs, k) && k <= i < |bs|
    ensures Flat(bs[i := bs[i] + d]) == Flat(bs) + d
    ensures LastData(bs[i := bs[i] + d], if d == [] then k else i)
  {
    var after := bs[i := bs[i] + d];
    FlatAround(bs, i);
    FlatAround(after, i);
    SameAround(bs, i, bs[i] + d);
    FlatEmpty(bs[i + 1..]);
  }

  lemma SameAround<T>(s: seq<T>, i: nat, x: T)
    requires i < |s|
    ensures s[i := x][..i] == s[..i] && s[i := x][i + 1..] == s[i + 1..]
  {}

  lemma FlatAround(bs: seq<seq<byte>>, n: nat)
    requires n < |bs|
    ensures Flat(bs) == Flat(bs[..n]) + bs[n] + Flat(bs[n + 1..])
    ensures Flat(bs[..n + 1]) == Flat(bs[..n]) + bs[n]
  {
    CutAround(bs, n);
    FlatThree(bs[..n], bs[n], bs[n + 1..]);
  }

  lemma FlatThree(a: seq<seq<byte>>, b: seq<byte>, c: seq<seq<byte>>)
    ensures Flat(a + [b] + c) == Flat(a) + b + Flat(c) && Flat(a + [b]) == Flat(a) + b
  {
    FlatPush(a, b);
    FlatConcat(a + [b], c);
  }

  // ----- the shape of a buffer

  /** The abstract shape of a buffer: its chains, the bytes each one holds, the index of the last
      chain with data, the chains and the storage the buffer may write, and the storage it only reads. */
  datatype Shape = Shape(spine: seq<Chain>, blocks: seq<seq<byte>>, k: nat,
                         cells: set<Chain>, mem: set<array<byte>>, shared: set<array<byte>>) {
    ghost function Bytes(): seq<byte> { Flat(blocks) }

    ghost function First(): Chain? { if spine == [] then null else spine[0] }

    ghost function Last(): Chain? { if spine == [] then null else spine[|spine| - 1] }

    /** The chain whose next field last_with_datap addresses, null for &first. */
    ghost function Pred(): Chain? { if 0 < k <= |spine| then spine[k - 1] else null }

    /** Only the first n chains. */
    ghost function Cut(n: nat): Shape
      requires n <= |spine| && n <= |blocks|
    {
      this.(spine := spine[..n], blocks := blocks[..n])
    }

    /** The chain c, holding b, added at the end; m and r are the storage that comes with it. */
    ghost function Push(c: Chain, b: seq<byte>, m: set<array<byte>>, r: set<array<byte>>): Shape {
      Shape(spine + [c], blocks + [b], if b != [] then |spine| else k, cells + {c}, mem + m, shared + r)
    }

    /** The bytes d added behind those of chain i. */
    ghost function Append(i: nat, d: seq<byte>): Shape
      requires i < |blocks|
    {
      this.(blocks := blocks[i := blocks[i] + d], k := if d == [] then k else i)
    }
  }

  ghost predicate Linked(g: Shape, i: int)
    reads g.cells`next
  {
    0 <= i < |g.spine| ==>
      g.spine[i] in g.cells && g.spine[i].next == if i + 1 < |g.spine| then g.spine[i + 1] else null
  }

  ghost predicate Held(g: Shape, i: int)
    reads g.cells`refcnt
  {
    0 <= i < |g.spine| ==> g.spine[i] in g.cells && g.spine[i].refcnt > 0
  }

  /** Two chains differ, and do not share storage that may be written. */
  ghost predicate Differ(g: Shape, i: int, j: int) {
    0 <= i < j < |g.spine| ==>
      g.spine[i] != g.spine[j] && (g.spine[i].data == g.spine[j].data ==> g.spine[i].data in g.shared)
  }

  /** Chain i holds its block, in storage of the right kind; it has no storage if it holds nothing and may not
      be written. */
  ghost predicate SoundAt(g: Shape, i: int)
    reads g.cells`misalign, g.cells`off, g.cells`immutable, g.mem, g.shared
  {
    0 <= i < |g.spine| && i < |g.blocks| ==>
      && g.spine[i] in g.cells && g.spine[i].data.Length <= MAX_ALLOC
      && g.spine[i].data in (if g.spine[i].immutable then g.shared else g.mem)
      && g.spine[i].Holds(g.blocks[i])
      && (g.spine[i].immutable && g.blocks[i] == [] ==> g.spine[i].data.Length == 0)
  }

  /** The chains of g are linked in order from first and each is alive. */
  ghost predicate Spine(first: Chain?, g: Shape)
    reads g.cells`next, g.cells`refcnt
  {
    && first == g.First()
    && (forall i :: Linked(g, i))
    && (forall i :: Held(g, i))
  }

  /** Every chain is sound; k may be stale. */
  ghost predicate Piled(g: Shape)
    reads g.cells`misalign, g.cells`off, g.cells`immutable, g.mem, g.shared
  {
    && |g.spine| == |g.blocks| && g.mem !! g.shared
    && (forall i :: SoundAt(g, i))
    && (forall i, j :: Differ(g, i, j))
  }

  ghost predicate Sound(g: Shape)
    reads g.cells`misalign, g.cells`off, g.cells`immutable, g.mem, g.shared
  {
    Piled(g) && LastData(g.blocks, g.k)
  }

  lemma Pairwise(g: Shape)
    requires forall i, j :: Differ(g, i, j)
    ensures forall i, j | 0 <= i < j < |g.spine| :: g.spine[i] != g.spine[j]
  {
    forall i, j | 0 <= i < j < |g.spine| ensures g.spine[i] != g.spine[j] { assert Differ(g, i, j); }
  }

  lemma SameSpine(first: Chain?, g: Shape, h: Shape)
    requires Spine(first, g) && h.spine == g.spine && h.cells == g.cells
    ensures Spine(first, h)
  {
    forall i ensures Linked(h, i) { assert Linked(g, i); }
    forall i ensures Held(h, i) { assert Held(g, i); }
  }

  /** A writable chain shares its storage with no other chain. */
  lemma StorageApart(g: Shape, i: nat)
    requires Sound(g) && i < |g.spine| && !g.spine[i].immutable
    ensures forall j | 0 <= j < |g.spine| && j != i :: g.spine[j] != g.spine[i] && g.spine[j].data != g.spine[i].data
  {
    forall j | 0 <= j < |g.spine| && j != i ensures g.spine[j] != g.spine[i] && g.spine[j].data != g.spine[i].data {
      assert Differ(g, i, j) && Differ(g, j, i) && SoundAt(g, i);
    }
  }

  lemma SoundCut(g: Shape, n: nat)
    requires Sound(g) && g.k <= n <= |g.spine| && (n == 0 || g.k < n)
    requires forall i | n <= i < |g.spine| :: g.blocks[i] == []
    ensures Sound(g.Cut(n)) && g.Cut(n).Bytes() == g.Bytes()
    ensures g.Cut(n).Pred() == g.Pred() && g.Cut(n).Last() == if n == 0 then null else g.spine[n - 1]
  {
    FlatCut(g.blocks, g.k, n);
    forall i ensures SoundAt(g.Cut(n), i) { assert SoundAt(g, i); }
    forall i, j ensures Differ(g.Cut(n), i, j) { assert Differ(g, i, j); }
  }

  /** A chain that holds b can join the shape g, bringing the storage m or r. */
  ghost predicate Joins(c: Chain, b: seq<byte>, m: set<array<byte>>, r: set<array<byte>>, g: Shape)
    reads c`misalign, c`off, c`immutable, c.data
  {
    && c.Holds(b) && c !in g.cells && c.data !in g.mem && c.data.Length <= MAX_ALLOC
    && (if c.immutable then m == {} && r == {c.data} else m == {c.data} && r == {} && c.data !in g.shared)
    && (c.immutable && b == [] ==> c.data.Length == 0)
  }

  lemma SoundPush(g: Shape, c: Chain, b: seq<byte>, m: set<array<byte>>, r: set<array<byte>>)
    requires Sound(g) && Joins(c, b, m, r, g)
    ensures Sound(g.Push(c, b, m, r)) && g.Push(c, b, m, r).Bytes() == g.Bytes() + b
    ensures g.Push(c, b, m, r).Pred() == if b != [] then g.Last() else g.Pred()
  {
    FlatPush(g.blocks, b);
    var h := g.Push(c, b, m, r);
    forall i ensures SoundAt(h, i) { assert SoundAt(g, i); }
    forall i, j ensures Differ(h, i, j) { assert Differ(g, i, j) && SoundAt(g, i); }
  }

  // ----- the buffer

  class Evbuffer {
    var first: Chain?
    var last: Chain?
    /** last_with_datap: the chain whose next field it addresses, or null when it is &first. */
    var lastWithDatap: Chain?
    var totalLen: nat
    var freezeStart: bool
    var freezeEnd: bool
    ghost var g: Shape

    /** evbuffer_new */
    constructor ()
      ensures Valid() && Contents() == [] && !freezeStart && !freezeEnd
      ensures g == Shape([], [], 0, {}, {}, {})
    {
      first, last, lastWithDatap, totalLen, freezeStart, freezeEnd := null, null, null, 0, false, false;
      g := Shape([], [], 0, {}, {}, {});
    }

    /** Everything but the last pointer, which several steps leave to their callers. */
    ghost predicate Core()
      reads `first, `lastWithDatap, `totalLen, `g, g.cells, g.mem, g.shared
    {
      Spine(first, g) && Sound(g) && lastWithDatap == g.Pred() && totalLen == |g.Bytes()|
    }

    ghost predicate Valid()
      reads `first, `last, `lastWithDatap, `totalLen, `g, g.cells, g.mem, g.shared
    {
      Core() && last == g.Last()
    }

    ghost function Contents(): seq<byte>
      reads `g
    {
      g.Bytes()
    }

    /** *last_with_datap */
    function LastWithData(): (c: Chain?)
      requires Core()
      reads `first, `lastWithDatap, `totalLen, `g, g.cells, g.mem, g.shared
      ensures c == if g.k < |g.spine| then g.spine[g.k] else null
    {
      assert Linked(g, g.k - 1);
      if lastWithDatap == null then first else lastWithDatap.next
    }
  }

  // ----- inserting and freeing chains

  /** evbuffer_chain_new; the allocation itself does not fail. */
  method ChainNew(size: nat) returns (c: Chain?)
    ensures c == null <==> size > MAX_ALLOC
    ensures c != null ==> fresh(c) && fresh(c.data) && size <= c.data.Length <= MAX_ALLOC
    ensures c != null ==> c.next == null && c.misalign == 0 && c.off == 0 && !c.immutable && c.refcnt == 1
    ensures c != null ==> !c.multicast
    ensures c != null && c.data.Length + CHAIN_SIZE > MIN_BUFFER_SIZE ==>
              c.data.Length + CHAIN_SIZE < 2 * (size + CHAIN_SIZE)
    ensures c != null ==> c.data.Length + CHAIN_SIZE >= MIN_BUFFER_SIZE
    ensures c != null && size + CHAIN_SIZE <= MIN_BUFFER_SIZE ==> c.data.Length + CHAIN_SIZE == MIN_BUFFER_SIZE
  {
    if size > MAX_ALLOC {
      return null;
    }
    var total := size + CHAIN_SIZE;
    var toAlloc := total;
    if total < CHAIN_MAX / 2 {
      toAlloc := MIN_BUFFER_SIZE;
      while toAlloc < total
        invariant toAlloc == MIN_BUFFER_SIZE || (MIN_BUFFER_SIZE < toAlloc < 2 * total && total > MIN_BUFFER_SIZE)
        decreases total - toAlloc
      {
        toAlloc := toAlloc * 2;
      }
    }
    c := new Chain(toAlloc - CHAIN_SIZE);
  }

  /** evbuffer_free_all_chains, on the part of the list that starts at index n. */
  method FreeAllChains(head: Chain?, ghost g: Shape, ghost n: nat)
    requires n <= |g.spine| == |g.blocks| && head == if n < |g.spine| then g.spine[n] else null
    requires forall i, j :: Differ(g, i, j)
    requires forall i :: Linked(g, i)
    requires forall i :: Held(g, i)
    modifies g.cells`refcnt
    ensures forall i :: Held(g.Cut(n), i)
    ensures forall i | n <= i < |g.spine| :: g.spine[i].refcnt == old(g.spine[i].refcnt) - 1
  {
    Pairwise(g);
    var chain := head;
    ghost var i := n;
    while chain != null
      invariant n <= i <= |g.spine|
      invariant chain == if i < |g.spine| then g.spine[i] else null
      invariant forall j | 0 <= j < n :: g.spine[j].refcnt == old(g.spine[j].refcnt)
      invariant forall j | n <= j < i :: g.spine[j].refcnt == old(g.spine[j].refcnt) - 1
      invariant forall j | i <= j < |g.spine| :: g.spine[j].refcnt == old(g.spine[j].refcnt)
      decreases |g.spine| - i
    {
      assert Linked(g, i) && old(Held(g, i));
      var next := chain.next;
      chain.refcnt := chain.refcnt - 1;
      chain, i := next, i + 1;
    }
    forall j ensures Held(g.Cut(n), j) { assert old(Held(g, j)); }
  }

  /** Frees *ch and every chain after it, then sets *ch to null. */
  method CutList(buf: Evbuffer, ch: Chain?, ghost g: Shape, ghost n: nat)
    requires Spine(buf.first, g) && n <= |g.spine| == |g.blocks|
    requires forall i, j :: Differ(g, i, j)
    requires ch == if n == 0 then null else g.spine[n - 1]
    modifies buf`first, g.cells`next, g.cells`refcnt
    ensures Spine(buf.first, g.Cut(n))
    ensures forall i | n <= i < |g.spine| :: g.spine[i].refcnt == old(g.spine[i].refcnt) - 1
  {
    Pairwise(g);
    assert Linked(g, n - 1);
    var cur := if ch == null then buf.first else ch.next;
    FreeAllChains(cur, g, n);
    if ch == null { buf.first := null; } else { ch.next := null; }
    forall i ensures Linked(g.Cut(n), i) { assert old(Linked(g, i)); }
  }

  /** The loop of evbuffer_free_trailing_empty_chains: the link to the first chain that can go. */
  method FirstVictim(buf: Evbuffer) returns (ch: Chain?, ghost n: nat)
    requires buf.Core()
    ensures buf.g.k <= n <= |buf.g.spine| && (n == 0 || n == buf.g.k + 1)
    ensures ch == if n == 0 then null else buf.g.spine[n - 1]
    ensures forall i | n <= i < |buf.g.spine| :: buf.g.blocks[i] == []
    ensures n > 0 ==> buf.g.blocks[buf.g.k] != []
  {
    ghost var g := buf.g;
    ch := buf.lastWithDatap;
    n := g.k;
    var cur := buf.LastWithData();
    while cur != null && cur.off != 0
      invariant g.k <= n <= |g.spine|
      invariant n == g.k || (n == g.k + 1 && g.blocks[g.k] != [])
      invariant ch == if n == 0 then null else g.spine[n-1]
      invariant cur == if n < |g.spine| then g.spine[n] else null
      decreases |g.spine| - n
    {
      assert SoundAt(g, n) && Linked(g, n);
      ch, cur, n := cur, cur.next, n + 1;
    }
    assert SoundAt(g, n);
  }

  /** The tail of evbuffer_chain_insert: *ch = c at the end of the list, and the cached fields. */
  method AttachLast(buf: Evbuffer, ch: Chain?, c: Chain, ghost g: Shape, ghost h: Shape)
    requires Spine(buf.first, g) && ch == g.Last() && c !in g.cells && c.next == null && c.refcnt > 0
    requires h.spine == g.spine + [c] && h.cells == g.cells + {c}
    modifies buf`first, buf`last, buf`lastWithDatap, buf`totalLen, buf`g, g.cells`next
    ensures Spine(buf.first, h) && buf.last == c && buf.g == h
    ensures buf.lastWithDatap == if c.off > 0 then ch else old(buf.lastWithDatap)
    ensures buf.totalLen == old(buf.totalLen) + c.off
  {
    assert Linked(g, |g.spine| - 1);
    if ch == null { buf.first := c; } else { ch.next := c; }
    if c.off > 0 { buf.lastWithDatap := ch; }
    buf.last := c;
    buf.totalLen := buf.totalLen + c.off;
    buf.g := h;
    forall i ensures Linked(h, i) { assert old(Linked(g, i)); }
    forall i ensures Held(h, i) { assert Held(g, i); }
  }

  /** Replaces the chains from index n on by the chain c. */
  method ReplaceTail(buf: Evbuffer, ch: Chain?, c: Chain, ghost g: Shape, ghost n: nat, ghost h: Shape)
    requires Spine(buf.first, g) && n <= |g.spine| == |g.blocks|
    requires forall i, j :: Differ(g, i, j)
    requires ch == if n == 0 then null else g.spine[n - 1]
    requires c !in g.cells && c.next == null && c.refcnt > 0
    requires h.spine == g.spine[..n] + [c] && h.cells == g.cells + {c} && Sound(h)
    modifies buf`first, buf`last, buf`lastWithDatap, buf`totalLen, buf`g, g.cells`next, g.cells`refcnt
    ensures Spine(buf.first, h) && Sound(h) && buf.last == c && buf.g == h
    ensures buf.lastWithDatap == if c.off > 0 then ch else old(buf.lastWithDatap)
    ensures buf.totalLen == old(buf.totalLen) + c.off
    ensures forall i | n <= i < |g.spine| :: g.spine[i].refcnt == old(g.spine[i].refcnt) - 1
  {
    CutList(buf, ch, g, n);
    forall i, j ensures Differ(g.Cut(n), i, j) { assert Differ(g, i, j); }
    AttachLast(buf, ch, c, g.Cut(n), h);
  }

  /** evbuffer_chain_insert */
  method ChainInsert(buf: Evbuffer, c: Chain, ghost b: seq<byte>, ghost m: set<array<byte>>, ghost r: set<array<byte>>)
    returns (ghost n: nat)
    requires buf.Core() && Joins(c, b, m, r, buf.g) && c.next == null && c.refcnt > 0
    modifies buf`first, buf`last, buf`lastWithDatap, buf`totalLen, buf`g, buf.g.cells`next, buf.g.cells`refcnt
    ensures buf.Valid()
    ensures n <= |old(buf.g.spine)| == |old(buf.g.blocks)| && old(buf.g.k) <= n && (n == 0 || n == old(buf.g.k) + 1)
    ensures n > 0 ==> old(buf.g.blocks)[old(buf.g.k)] != []
    ensures buf.g == old(buf.g).Cut(n).Push(c, b, m, r)
    ensures buf.Contents() == old(buf.Contents()) + b
    ensures forall i | n <= i < |old(buf.g.spine)| :: old(buf.g.spine)[i].refcnt == old(buf.g.spine[i].refcnt) - 1
  {
    hide LastData, Flat;
    var ch;
    ch, n := FirstVictim(buf);
    ghost var g := buf.g;
    SoundCut(g, n);
    SoundPush(g.Cut(n), c, b, m, r);
    ReplaceTail(buf, ch, c, g, n, g.Cut(n).Push(c, b, m, r));
  }

  // ----- bytes within a chain

  method Memcpy(a: array<byte>, at: nat, d: seq<byte>)
    requires at + |d| <= a.Length
    modifies a
    ensures forall i | 0 <= i < |d| :: a[at + i] == d[i]
    ensures forall i | 0 <= i < a.Length && !(at <= i < at + |d|) :: a[i] == old(a[i])
  {
    forall i | 0 <= i < |d| { a[at + i] := d[i]; }
  }

  /** Copies d into the free space behind the data of c and counts it in. */
  method Extend(c: Chain, d: seq<byte>, ghost b: seq<byte>)
    requires c.Holds(b) && c.misalign + c.off + |d| <= c.data.Length
    modifies c`off, c.data
    ensures c.Holds(b + d)
  {
    label before:
    Memcpy(c.data, c.misalign + c.off, d);
    c.off := c.off + |d|;
    forall j ensures c.At(b + d, j) { assert old@before(c.At(b, j)); }
  }

  /** Copies d into the slack in front of the data of c and counts it in. */
  method ExtendFront(c: Chain, d: seq<byte>, ghost b: seq<byte>)
    requires c.Holds(b) && |d| <= c.misalign
    modifies c`off, c`misalign, c.data
    ensures c.Holds(d + b) && c.misalign == old(c.misalign) - |d|
  {
    label before:
    Memcpy(c.data, c.misalign - |d|, d);
    c.off := c.off + |d|;
    c.misalign := c.misalign - |d|;
    forall j ensures c.At(d + b, j) { assert old@before(c.At(b, j - |d|)); }
  }

  /** evbuffer_chain_align: memmove the data to the start of the storage. */
  method ChainAlign(c: Chain, ghost b: seq<byte>)
    requires c.Holds(b) && !c.immutable
    modifies c`misalign, c.data
    ensures c.Holds(b) && c.misalign == 0
  {
    label before:
    forall j | 0 <= j < c.off { c.data[j] := c.data[c.misalign + j]; }
    c.misalign := 0;
    forall j ensures c.At(b, j) { assert old@before(c.At(b, j)); }
  }

  /** Drops the first n bytes of the data of c. */
  method Skip(c: Chain, n: nat, ghost b: seq<byte>)
    requires c.Holds(b) && n <= c.off
    modifies c`misalign, c`off
    ensures c.Holds(b[n..])
  {
    label before:
    c.misalign := c.misalign + n;
    c.off := c.off - n;
    forall j ensures c.At(b[n..], j) { assert old@before(c.At(b, n + j)); }
  }

  lemma SoundAppend(g: Shape, i: nat, d: seq<byte>)
    requires |g.blocks| == |g.spine| && LastData(g.blocks, g.k) && g.k <= i < |g.spine|
    ensures LastData(g.Append(i, d).blocks, g.Append(i, d).k) && g.Append(i, d).Bytes() == g.Bytes() + d
  {
    FlatAppendAt(g.blocks, g.k, i, d);
  }

  /** Extend, on chain i of the buffer; the other chains keep their bytes. */
  method WriteBack(buf: Evbuffer, c: Chain, d: seq<byte>, ghost g: Shape, ghost i: nat)
    requires Sound(g) && g.k <= i < |g.spine| && c == g.spine[i]
    requires !c.immutable && c.misalign + c.off + |d| <= c.data.Length
    modifies buf`totalLen, buf`g, c`off, c.data
    ensures buf.g == g.Append(i, d) && Sound(buf.g) && buf.g.Bytes() == g.Bytes() + d
    ensures buf.totalLen == old(buf.totalLen) + |d|
  {
    StorageApart(g, i);
    SoundAppend(g, i, d);
    assert SoundAt(g, i);
    ghost var h := g.Append(i, d);
    label before:
    Extend(c, d, g.blocks[i]);
    buf.totalLen := buf.totalLen + |d|;
    buf.g := h;
    forall j ensures SoundAt(h, j) { assert old@before(SoundAt(g, j)); }
    forall x, y ensures Differ(h, x, y) { assert Differ(g, x, y); }
  }

  /** The part of evbuffer_add that fits in the last chain with data. */
  method AddInPlace(buf: Evbuffer, c: Chain, d: seq<byte>)
    requires buf.Valid() && buf.g.k < |buf.g.spine| && c == buf.g.spine[buf.g.k]
    requires !c.immutable && c.misalign + c.off + |d| <= c.data.Length
    modifies buf`totalLen, buf`g, c`off, c.data
    ensures buf.Valid() && |old(buf.g.spine)| == |old(buf.g.blocks)|
    ensures buf.g == old(buf.g).Append(old(buf.g.k), d)
    ensures buf.Contents() == old(buf.Contents()) + d
  {
    ghost var g := buf.g;
    WriteBack(buf, c, d, g, g.k);
    SameSpine(buf.first, g, buf.g);
  }
}
